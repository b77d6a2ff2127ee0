/**
 * The editor statistics of the browser client: the word count
 * (`text.trim().split(/\s+/).length`, or 0 for blank text) and the paragraph
 * count (`text.split(/\n\s*\n/).filter(p => p.trim()).length`).
 *
 * Both splits follow the ECMAScript `RegExp.prototype[@@split]` algorithm:
 * the separator is matched at each position `q` from the start of the
 * current piece, a match ends the piece at `q` and the next one begins at
 * the end of the match, and the text after the last match is the final piece.
 */
module Stats {
  import opened Strings

  // ---------------------------------------------------------------------------
  // Words
  // ---------------------------------------------------------------------------

  /** The index of the first white-space character of `s` at or after `k`, or `|s|`. */
  function NextSpace(s: string, k: nat): (i: nat)
    requires k <= |s|
    ensures k <= i <= |s|
    ensures i < |s| ==> IsSpace(s[i])
    decreases |s| - k
  {
    if k == |s| || IsSpace(s[k]) then k else NextSpace(s, k + 1)
  }

  /**
   * The pieces of `s.split(/\s+/)` from position `k` on, where `k` is where
   * the current piece begins: the greedy `\s+` swallows the whole run of
   * white space that starts at the next white-space character.
   */
  function WsPieces(s: string, k: nat): (r: seq<string>)
    requires k <= |s|
    ensures |r| >= 1
    decreases |s| - k
  {
    var e := NextSpace(s, k);
    if e == |s| then [s[k..]] else [s[k..e]] + WsPieces(s, SpaceEnd(s, e))
  }

  /** `s.split(/\s+/)`. */
  function SplitWs(s: string): (r: seq<string>)
    ensures |r| >= 1
  {
    WsPieces(s, 0)
  }

  /** The word count of `updateStats`. */
  function WordCount(text: string): (r: nat)
    ensures r == 0 <==> Trim(text) == ""
  {
    var t := Trim(text);
    if t == "" then 0 else |SplitWs(t)|
  }

  /** A run of non-white-space characters starts at index `j` of `s`. */
  predicate StartsRun(s: string, j: nat)
    requires j < |s|
  {
    !IsSpace(s[j]) && (j == 0 || IsSpace(s[j - 1]))
  }

  /** The number of runs of non-white-space characters of `s` that start in `[a, b)`. */
  function Runs(s: string, a: nat, b: nat): nat
    requires a <= b <= |s|
    decreases b - a
  {
    if a == b then 0 else (if StartsRun(s, a) then 1 else 0) + Runs(s, a + 1, b)
  }

  /** Counting runs over `[a, b)` is counting over `[a, m)` and then over `[m, b)`. */
  lemma {:induction false} RunsSplit(s: string, a: nat, m: nat, b: nat)
    requires a <= m <= b <= |s|
    ensures Runs(s, a, b) == Runs(s, a, m) + Runs(s, m, b)
    decreases m - a
  {
    if a < m {
      RunsSplit(s, a + 1, m, b);
    }
  }

  /** No run starts inside a stretch of white space. */
  lemma {:induction false} NoRunsInSpace(s: string, a: nat, b: nat)
    requires a <= b <= |s|
    requires forall j :: a <= j < b ==> IsSpace(s[j])
    ensures Runs(s, a, b) == 0
    decreases b - a
  {
    if a < b {
      NoRunsInSpace(s, a + 1, b);
    }
  }

  /** No run starts strictly inside a stretch of non-white-space characters. */
  lemma {:induction false} NoRunsInWord(s: string, a: nat, b: nat)
    requires 0 < a <= b <= |s|
    requires forall j :: a - 1 <= j < b ==> !IsSpace(s[j])
    ensures Runs(s, a, b) == 0
    decreases b - a
  {
    if a < b {
      NoRunsInWord(s, a + 1, b);
    }
  }

  /**
   * In a string that ends with a non-white-space character, the split from
   * the start `k` of a run has one piece per run from `k` on.
   */
  lemma {:induction false} WsPiecesCount(s: string, k: nat)
    requires k < |s| && StartsRun(s, k) && !IsSpace(s[|s| - 1])
    ensures |WsPieces(s, k)| == Runs(s, k, |s|)
    decreases |s| - k
  {
    var e := NextSpace(s, k + 1);
    assert NextSpace(s, k) == e;
    NonSpaceBefore(s, k + 1);
    RunsSplit(s, k + 1, e, |s|);
    NoRunsInWord(s, k + 1, e);
    if e < |s| {
      var k' := SpaceEnd(s, e);
      RunsSplit(s, e, k', |s|);
      NoRunsInSpace(s, e, k');
      WsPiecesCount(s, k');
    }
  }

  /** The search for white space passes only non-white-space characters. */
  lemma {:induction false} NonSpaceBefore(s: string, k: nat)
    requires k <= |s|
    ensures forall j :: k <= j < NextSpace(s, k) ==> !IsSpace(s[j])
    decreases |s| - k
  {
    if k < |s| && !IsSpace(s[k]) {
      NonSpaceBefore(s, k + 1);
    }
  }

  /** Runs that start inside a slice are the runs of the slice, when the slice begins after white space. */
  lemma {:induction false} RunsOfSlice(s: string, lo: nat, hi: nat, a: nat)
    requires lo <= hi <= |s| && a <= hi - lo
    requires a > 0 || lo == 0 || IsSpace(s[lo - 1])
    ensures Runs(s[lo..hi], a, hi - lo) == Runs(s, lo + a, hi)
    decreases hi - lo - a
  {
    if a < hi - lo {
      assert StartsRun(s[lo..hi], a) == StartsRun(s, lo + a);
      RunsOfSlice(s, lo, hi, a + 1);
    }
  }

  /** The words of a text that is not blank are the runs between its trimmed ends. */
  lemma TrimmedWords(text: string)
    requires Trim(text) != ""
    ensures WordCount(text) == Runs(text, TrimFront(text), TrimBack(text))
  {
    var t := Trim(text);
    assert StartsRun(t, 0);
    WsPiecesCount(t, 0);
    RunsOfSlice(text, TrimFront(text), TrimBack(text), 0);
  }

  /**
   * The word count is the number of maximal runs of non-white-space
   * characters of the text; in particular it is 0 exactly when the text is
   * empty or all white space.
   */
  lemma WordCountIsRuns(text: string)
    ensures WordCount(text) == Runs(text, 0, |text|)
    ensures WordCount(text) == 0 <==> AllSpace(text)
  {
    var lo, hi := TrimFront(text), TrimBack(text);
    RunsSplit(text, 0, lo, |text|);
    RunsSplit(text, lo, hi, |text|);
    NoRunsInSpace(text, 0, lo);
    NoRunsInSpace(text, hi, |text|);
    if Trim(text) != "" {
      TrimmedWords(text);
      assert StartsRun(text, lo);
      RunsSplit(text, lo, lo + 1, hi);
    }
  }

  // ---------------------------------------------------------------------------
  // Paragraphs
  // ---------------------------------------------------------------------------

  /** The index of the last newline of `s` in `[lo, hi)`, or `lo - 1` when there is none. */
  function LastNewline(s: string, lo: nat, hi: nat): (j: int)
    requires lo <= hi <= |s|
    ensures lo - 1 <= j < hi
    ensures j >= lo ==> s[j] == '\n'
    ensures forall k :: lo <= k < hi && j < k ==> s[k] != '\n'
    decreases hi - lo
  {
    if hi == lo then lo - 1 else if s[hi - 1] == '\n' then hi - 1 else LastNewline(s, lo, hi - 1)
  }

  /**
   * The separator `/\n\s*\n/` matches at `q`: `s[q]` is a newline and the
   * run of white space after it holds another one.
   */
  predicate BreaksAt(s: string, q: nat)
    requires q < |s|
  {
    s[q] == '\n' && LastNewline(s, q + 1, SpaceEnd(s, q + 1)) > q
  }

  /**
   * `/\n\s*\n/` matches at `q` exactly when `s[q]` is a newline and another
   * newline lies in the run of white space that follows it.
   */
  lemma BreaksAtMatches(s: string, q: nat)
    requires q < |s|
    ensures BreaksAt(s, q) <==> s[q] == '\n' && exists k :: q < k < SpaceEnd(s, q + 1) && s[k] == '\n'
  {
    var j := LastNewline(s, q + 1, SpaceEnd(s, q + 1));
    if s[q] == '\n' && exists k :: q < k < SpaceEnd(s, q + 1) && s[k] == '\n' {
      var k :| q < k < SpaceEnd(s, q + 1) && s[k] == '\n';
      assert j >= k;
    }
  }

  /**
   * Where a separator that matches at `q` ends: `\s*` takes the whole run of
   * white space after the newline and gives characters back until a newline
   * follows, so the match ends just after the last newline of that run.
   */
  function BreakEnd(s: string, q: nat): (e: nat)
    requires q < |s| && BreaksAt(s, q)
    ensures q + 2 <= e <= |s|
    ensures s[e - 1] == '\n'
    ensures forall k :: e <= k < SpaceEnd(s, q + 1) ==> s[k] != '\n'
  {
    LastNewline(s, q + 1, SpaceEnd(s, q + 1)) + 1
  }

  /**
   * The pieces of `s.split(/\n\s*\n/)` for a piece that began at `p`, with
   * the separator next tried at `q`.
   */
  function ParaPieces(s: string, p: nat, q: nat): (r: seq<string>)
    requires p <= q <= |s|
    ensures |r| >= 1
    decreases |s| - q
  {
    if q == |s| then
      [s[p..]]
    else if BreaksAt(s, q) then
      var e := BreakEnd(s, q);
      [s[p..q]] + ParaPieces(s, e, e)
    else
      ParaPieces(s, p, q + 1)
  }

  /** `s.split(/\n\s*\n/)`. */
  function SplitParagraphs(s: string): (r: seq<string>)
    ensures |r| >= 1
  {
    ParaPieces(s, 0, 0)
  }

  /** How many of `pieces` keep something after `trim` (`filter(p => p.trim()).length`). */
  function NonBlank(pieces: seq<string>): nat
  {
    if pieces == [] then 0 else (if Trim(pieces[0]) != "" then 1 else 0) + NonBlank(pieces[1..])
  }

  /** The paragraph count of `updateStats`. */
  function ParagraphCount(text: string): nat
  {
    NonBlank(SplitParagraphs(text))
  }

  /** Some character of `s` in `[a, b)` is not white space. */
  predicate HasWord(s: string, a: nat, b: nat)
    requires a <= b <= |s|
  {
    exists i :: a <= i < b && !IsSpace(s[i])
  }

  /** The number of non-blank pieces of `ParaPieces(s, p, q)`, counted on positions of `s`. */
  function WordPieces(s: string, p: nat, q: nat): nat
    requires p <= q <= |s|
    decreases |s| - q
  {
    if q == |s| then
      (if HasWord(s, p, |s|) then 1 else 0)
    else if BreaksAt(s, q) then
      (if HasWord(s, p, q) then 1 else 0) + WordPieces(s, BreakEnd(s, q), BreakEnd(s, q))
    else
      WordPieces(s, p, q + 1)
  }

  lemma NonBlankCons(x: string, rest: seq<string>)
    ensures NonBlank([x] + rest) == (if Trim(x) != "" then 1 else 0) + NonBlank(rest)
  {
    assert ([x] + rest)[1..] == rest;
  }

  /** `filter(p => p.trim()).length` is 0 exactly when every piece is blank. */
  lemma {:induction false} NonBlankZero(pieces: seq<string>)
    ensures NonBlank(pieces) == 0 <==> forall i :: 0 <= i < |pieces| ==> Trim(pieces[i]) == ""
  {
    if pieces != [] {
      NonBlankZero(pieces[1..]);
      assert forall i :: 1 <= i < |pieces| ==> pieces[i] == pieces[1..][i - 1];
    }
  }

  /** A slice is blank exactly when it holds no non-white-space character. */
  lemma SliceBlank(s: string, a: nat, b: nat)
    requires a <= b <= |s|
    ensures Trim(s[a..b]) != "" <==> HasWord(s, a, b)
  {
    var t := s[a..b];
    if HasWord(s, a, b) {
      var i :| a <= i < b && !IsSpace(s[i]);
      assert t[i - a] == s[i];
    } else {
      assert forall j :: 0 <= j < |t| ==> t[j] == s[a + j];
    }
  }

  /** Counting on positions counts the non-blank pieces. */
  lemma {:induction false} WordPiecesCount(s: string, p: nat, q: nat)
    requires p <= q <= |s|
    ensures NonBlank(ParaPieces(s, p, q)) == WordPieces(s, p, q)
    decreases |s| - q
  {
    if q == |s| {
      SliceBlank(s, p, |s|);
      assert s[p..] == s[p..|s|];
    } else if BreaksAt(s, q) {
      var e := BreakEnd(s, q);
      SliceBlank(s, p, q);
      WordPiecesCount(s, e, e);
      NonBlankCons(s[p..q], ParaPieces(s, e, e));
    } else {
      WordPiecesCount(s, p, q + 1);
    }
  }

  /** A separator consists of white space only: its two newlines and what lies between. */
  lemma SeparatorIsSpace(s: string, q: nat)
    requires q < |s| && BreaksAt(s, q)
    ensures forall i :: q <= i < BreakEnd(s, q) ==> IsSpace(s[i])
  {
  }

  /** When everything from `p` on is white space, every piece is blank. */
  lemma {:induction false} BlankTail(s: string, p: nat, q: nat)
    requires p <= q <= |s|
    requires forall i :: p <= i < |s| ==> IsSpace(s[i])
    ensures WordPieces(s, p, q) == 0
    decreases |s| - q
  {
    if q < |s| {
      if BreaksAt(s, q) {
        BlankTail(s, BreakEnd(s, q), BreakEnd(s, q));
      } else {
        BlankTail(s, p, q + 1);
      }
    }
  }

  /** A non-white-space character at or after `p` lands in a piece that is not blank. */
  lemma {:induction false} WordInTail(s: string, p: nat, q: nat, i: nat)
    requires p <= q <= |s| && p <= i < |s| && !IsSpace(s[i])
    ensures WordPieces(s, p, q) >= 1
    decreases |s| - q
  {
    if q < |s| {
      if BreaksAt(s, q) {
        if q <= i {
          SeparatorIsSpace(s, q);
          WordInTail(s, BreakEnd(s, q), BreakEnd(s, q), i);
        }
      } else {
        WordInTail(s, p, q + 1, i);
      }
    }
  }

  /** The paragraph count is 0 exactly when the text is empty or all white space. */
  lemma ParagraphCountZero(text: string)
    ensures ParagraphCount(text) == 0 <==> AllSpace(text)
  {
    WordPiecesCount(text, 0, 0);
    if AllSpace(text) {
      BlankTail(text, 0, 0);
    } else {
      var i :| 0 <= i < |text| && !IsSpace(text[i]);
      WordInTail(text, 0, 0, i);
    }
  }

  /** Two lines separated by an empty line are two paragraphs. */
  lemma TwoParagraphs()
    ensures ParagraphCount("a\n\nb") == 2
  {
    var s := "a\n\nb";
    assert !BreaksAt(s, 0);
    assert BreaksAt(s, 1) && BreakEnd(s, 1) == 3;
    assert ParaPieces(s, 0, 0) == [s[0..1]] + ParaPieces(s, 3, 3);
    assert ParaPieces(s, 3, 3) == [s[3..]];
    assert Trim(s[0..1]) != "" && Trim(s[3..]) != "";
    NonBlankCons(s[0..1], [s[3..]]);
    NonBlankCons(s[3..], []);
  }
}
