/**
 * Newline framing as the browser client does it: `text.split('\n')`, and the
 * division of a split into the complete lines (every piece but the last) and
 * the pending fragment (`lines.pop()`, the text after the last newline).
 */
module Lines {
  const NL: char := '\n'

  /** The index of the first newline of `s` at or after `k`, or `|s|` when there is none. */
  function NextNewline(s: string, k: nat): (i: nat)
    requires k <= |s|
    ensures k <= i <= |s|
    decreases |s| - k
  {
    if k == |s| || s[k] == NL then k else NextNewline(s, k + 1)
  }

  /** The index of the first newline of `s`, or `|s|` when it has none. */
  function LineEnd(s: string): (i: nat)
    ensures i <= |s|
  {
    NextNewline(s, 0)
  }

  /** `s.split('\n')`: the pieces between newlines, in order; never empty. */
  function Split(s: string): (r: seq<string>)
    ensures |r| >= 1
    decreases |s|
  {
    var i := LineEnd(s);
    if i == |s| then [s] else [s[..i]] + Split(s[i + 1..])
  }

  /** `lines.join('\n')`. */
  function Join(lines: seq<string>): string
    requires |lines| >= 1
  {
    if |lines| == 1 then lines[0] else lines[0] + [NL] + Join(lines[1..])
  }

  /** The lines of `s` that a newline has terminated. */
  function Complete(s: string): seq<string>
  {
    var pieces := Split(s);
    pieces[..|pieces| - 1]
  }

  /** The unterminated fragment after the last newline of `s` (all of `s` if it has none). */
  function Pending(s: string): string
  {
    var pieces := Split(s);
    pieces[|pieces| - 1]
  }

  /** The search stops at a newline, and passes none before it. */
  lemma {:induction false} NextNewlineFound(s: string, k: nat)
    requires k <= |s|
    ensures NextNewline(s, k) < |s| ==> s[NextNewline(s, k)] == NL
    ensures forall j :: k <= j < NextNewline(s, k) ==> s[j] != NL
    decreases |s| - k
  {
    if k < |s| && s[k] != NL {
      NextNewlineFound(s, k + 1);
    }
  }

  /** Everything before the first newline is free of newlines, and a newline ends it. */
  lemma BeforeLineEnd(s: string)
    ensures NL !in s[..LineEnd(s)]
    ensures LineEnd(s) < |s| ==> s[LineEnd(s)] == NL
  {
    NextNewlineFound(s, 0);
    var i := LineEnd(s);
    assert forall j :: 0 <= j < i ==> s[..i][j] == s[j];
  }

  /** Searching `a + b` from inside `b` is searching `b`, shifted by `|a|`. */
  lemma {:induction false} NextNewlineShift(a: string, b: string, m: nat)
    requires m <= |b|
    ensures NextNewline(a + b, |a| + m) == |a| + NextNewline(b, m)
    decreases |b| - m
  {
    if m < |b| {
      assert (a + b)[|a| + m] == b[m];
      if b[m] != NL {
        NextNewlineShift(a, b, m + 1);
      }
    }
  }

  /** The search in `a + b` finds the newline of `a`, or, when `a` has none from `k` on, the first of `b`. */
  lemma {:induction false} NextNewlineAppend(a: string, b: string, k: nat)
    requires k <= |a|
    ensures NextNewline(a + b, k) == if NextNewline(a, k) < |a| then NextNewline(a, k) else |a| + LineEnd(b)
    decreases |a| - k
  {
    if k == |a| {
      NextNewlineShift(a, b, 0);
    } else {
      assert (a + b)[k] == a[k];
      if a[k] != NL {
        NextNewlineAppend(a, b, k + 1);
      }
    }
  }

  lemma LineEndAppend(a: string, b: string)
    ensures LineEnd(a + b) == if LineEnd(a) < |a| then LineEnd(a) else |a| + LineEnd(b)
  {
    NextNewlineAppend(a, b, 0);
  }

  /** A newline-free string has its line end at its end. */
  lemma {:induction false} NoNewlineFrom(x: string, k: nat)
    requires k <= |x|
    requires NL !in x
    ensures NextNewline(x, k) == |x|
    decreases |x| - k
  {
    if k < |x| {
      assert x[k] in x;
      NoNewlineFrom(x, k + 1);
    }
  }

  lemma LineEndNoNewline(x: string)
    requires NL !in x
    ensures LineEnd(x) == |x|
  {
    NoNewlineFrom(x, 0);
  }

  /** No piece of a split holds a newline. */
  lemma {:induction false} SplitPiecesLackNewline(s: string)
    ensures forall k :: 0 <= k < |Split(s)| ==> NL !in Split(s)[k]
    decreases |s|
  {
    var i := LineEnd(s);
    BeforeLineEnd(s);
    if i < |s| {
      SplitPiecesLackNewline(s[i + 1..]);
      assert s[..i] == s[..LineEnd(s)];
    }
  }

  /** A string with a newline is its first line, that newline, and the rest. */
  lemma AroundLineEnd(s: string)
    requires LineEnd(s) < |s|
    ensures s == s[..LineEnd(s)] + [NL] + s[LineEnd(s) + 1..]
  {
    var i := LineEnd(s);
    BeforeLineEnd(s);
    assert s == s[..i] + [s[i]] + s[i + 1..];
  }

  lemma JoinCons(head: string, rest: seq<string>)
    requires |rest| >= 1
    ensures Join([head] + rest) == head + [NL] + Join(rest)
  {
    assert ([head] + rest)[1..] == rest;
  }

  lemma {:induction false} JoinSplit(s: string)
    ensures Join(Split(s)) == s
    decreases |s|
  {
    var i := LineEnd(s);
    if i < |s| {
      AroundLineEnd(s);
      JoinSplit(s[i + 1..]);
      JoinCons(s[..i], Split(s[i + 1..]));
    }
  }

  /** A newline-free prefix followed by a newline becomes the first piece. */
  lemma SplitAfterLine(x: string, y: string)
    requires NL !in x
    ensures Split(x + [NL] + y) == [x] + Split(y)
  {
    var s := x + [NL] + y;
    LineEndNoNewline(x);
    assert s == x + ([NL] + y);
    LineEndAppend(x, [NL] + y);
    assert s[..|x|] == x && s[|x| + 1..] == y;
  }

  /** A newline-free string is a single piece. */
  lemma SplitNoNewline(x: string)
    requires NL !in x
    ensures Split(x) == [x]
  {
    LineEndNoNewline(x);
  }

  lemma {:induction false} SplitJoin(lines: seq<string>)
    requires |lines| >= 1
    requires forall i :: 0 <= i < |lines| ==> NL !in lines[i]
    ensures Split(Join(lines)) == lines
  {
    if |lines| == 1 {
      SplitNoNewline(lines[0]);
    } else {
      SplitJoin(lines[1..]);
      SplitAfterLine(lines[0], Join(lines[1..]));
    }
  }

  /**
   * Splitting `a + b` gives the complete lines of `a`, then the split of
   * `a`'s pending fragment followed by `b`.
   */
  lemma {:induction false} SplitConcat(a: string, b: string)
    ensures Split(a + b) == Complete(a) + Split(Pending(a) + b)
    decreases |a|
  {
    var i := LineEnd(a);
    if i < |a| {
      FirstLineOfAppend(a, b);
      FirstLine(a);
      SplitConcat(a[i + 1..], b);
      var head, done1, rest := a[..i], Complete(a[i + 1..]), Split(Pending(a[i + 1..]) + b);
      assert [head] + (done1 + rest) == ([head] + done1) + rest;
    } else {
      LineEndAppend(a, b);
      assert Complete(a) == [] && Pending(a) == a;
    }
  }

  /** A string with a newline: its first line, then the split of what follows that newline. */
  lemma FirstLine(s: string)
    requires LineEnd(s) < |s|
    ensures Complete(s) == [s[..LineEnd(s)]] + Complete(s[LineEnd(s) + 1..])
    ensures Pending(s) == Pending(s[LineEnd(s) + 1..])
  {
    var pieces := Split(s[LineEnd(s) + 1..]);
    assert Split(s) == [s[..LineEnd(s)]] + pieces;
  }

  /** Text appended after a string with a newline leaves its first line alone. */
  lemma FirstLineOfAppend(a: string, b: string)
    requires LineEnd(a) < |a|
    ensures Split(a + b) == [a[..LineEnd(a)]] + Split(a[LineEnd(a) + 1..] + b)
  {
    var i := LineEnd(a);
    LineEndAppend(a, b);
    SlicesOfAppend(a, b, i);
  }

  lemma SlicesOfAppend(a: string, b: string, i: nat)
    requires i < |a|
    ensures (a + b)[..i] == a[..i] && (a + b)[i + 1..] == a[i + 1..] + b
  {
  }

  /**
   * The per-chunk step of the client: the complete lines of `a + b` are those
   * of `a` followed by those of `a`'s pending fragment with `b` appended, and
   * the fragment left over is the same either way.
   */
  lemma SplitAppend(a: string, b: string)
    ensures Complete(a + b) == Complete(a) + Complete(Pending(a) + b)
    ensures Pending(a + b) == Pending(Pending(a) + b)
  {
    SplitConcat(a, b);
  }

  /**
   * The pending fragment is exactly the text after the last newline: a
   * newline-free suffix of `s`, preceded by a newline unless it is all of `s`.
   */
  lemma {:induction false} PendingIsTail(s: string)
    ensures |Pending(s)| <= |s| && Pending(s) == s[|s| - |Pending(s)|..]
    ensures NL !in Pending(s)
    ensures |Pending(s)| < |s| ==> s[|s| - |Pending(s)| - 1] == NL
    ensures |Pending(s)| == |s| <==> |Split(s)| == 1
    decreases |s|
  {
    var i := LineEnd(s);
    BeforeLineEnd(s);
    if i < |s| {
      var s1 := s[i + 1..];
      PendingIsTail(s1);
      var p := Pending(s1);
      assert Pending(s) == p;
      assert s1[|s1| - |p|..] == s[|s| - |p|..];
      if |p| < |s1| {
        assert s[|s| - |p| - 1] == s1[|s1| - |p| - 1];
      }
    } else {
      assert s[..i] == s;
    }
  }

  /** The pending fragment holds no newline. */
  lemma PendingLacksNewline(s: string)
    ensures NL !in Pending(s)
  {
    PendingIsTail(s);
  }

  /** The complete lines and the pending fragment, rejoined with newlines, are the whole text. */
  lemma FramingReconstructs(s: string)
    ensures Join(Complete(s) + [Pending(s)]) == s
  {
    var pieces := Split(s);
    assert Complete(s) + [Pending(s)] == pieces;
    JoinSplit(s);
  }

  /** A text that ends with a newline leaves nothing pending, so it splits independently of what follows. */
  lemma TerminatedPrefix(a: string, b: string)
    requires Pending(a) == ""
    ensures Complete(a + b) == Complete(a) + Complete(b)
    ensures Pending(a + b) == Pending(b)
  {
    SplitAppend(a, b);
    assert Pending(a) + b == b;
  }
}
