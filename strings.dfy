/**
 * String helpers shared by the browser client and the server: the
 * ECMAScript notion of white space (what `\s` and `String.prototype.trim`
 * remove), `trim` itself, `startsWith`, and the concatenation of a sequence
 * of strings.
 */
module Strings {

  /** ECMAScript WhiteSpace and LineTerminator code points: the class `\s` and the characters `trim` strips. */
  predicate IsSpace(c: char)
  {
    c == '\t' || c == '\n' || c == 11 as char || c == 12 as char || c == '\r' || c == ' '
    || c == 0xA0 as char || c == 0x1680 as char || (0x2000 as char <= c <= 0x200A as char)
    || c == 0x2028 as char || c == 0x2029 as char || c == 0x202F as char || c == 0x205F as char
    || c == 0x3000 as char || c == 0xFEFF as char
  }

  /** Every character of `s` is white space (true of the empty string). */
  predicate AllSpace(s: string)
  {
    forall i :: 0 <= i < |s| ==> IsSpace(s[i])
  }

  /** The index of the first character of `s` at or after `k` that is not white space, or `|s|`. */
  function SpaceEnd(s: string, k: nat): (i: nat)
    requires k <= |s|
    ensures k <= i <= |s|
    ensures forall j :: k <= j < i ==> IsSpace(s[j])
    ensures i < |s| ==> !IsSpace(s[i])
    decreases |s| - k
  {
    if k == |s| || !IsSpace(s[k]) then k else SpaceEnd(s, k + 1)
  }

  /** The index just after the last character of `s[..k]` that is not white space, or 0. */
  function SpaceStart(s: string, k: nat): (i: nat)
    requires k <= |s|
    ensures i <= k
    ensures forall j :: i <= j < k ==> IsSpace(s[j])
    ensures i > 0 ==> !IsSpace(s[i - 1])
  {
    if k == 0 || !IsSpace(s[k - 1]) then k else SpaceStart(s, k - 1)
  }

  /** Where `trim` cuts `s` at the front: the index of its first character that is not white space, or `|s|`. */
  function TrimFront(s: string): (a: nat)
    ensures a <= |s|
    ensures forall j :: 0 <= j < a ==> IsSpace(s[j])
    ensures a < |s| ==> !IsSpace(s[a])
  {
    SpaceEnd(s, 0)
  }

  /** Where `trim` cuts `s` at the back: just after its last character that is not white space. */
  function TrimBack(s: string): (b: nat)
    ensures TrimFront(s) <= b <= |s|
    ensures forall j :: b <= j < |s| ==> IsSpace(s[j])
    ensures b > TrimFront(s) ==> !IsSpace(s[b - 1])
    ensures b == TrimFront(s) ==> b == |s|
  {
    var a := TrimFront(s);
    if a == |s| then a else SpaceStart(s, |s|)
  }

  /**
   * `String.prototype.trim`: `s` without its leading and trailing white
   * space. The result is empty exactly when `s` is all white space.
   */
  function Trim(s: string): (r: string)
    ensures r == [] <==> AllSpace(s)
    ensures r == [] || (!IsSpace(r[0]) && !IsSpace(r[|r| - 1]))
  {
    s[TrimFront(s)..TrimBack(s)]
  }

  /** `s.startsWith(prefix)`. */
  predicate StartsWith(s: string, prefix: string)
  {
    |prefix| <= |s| && s[..|prefix|] == prefix
  }

  /** The strings of `parts` one after the other. */
  function Concat(parts: seq<string>): string
  {
    if parts == [] then "" else parts[0] + Concat(parts[1..])
  }

  lemma {:induction false} ConcatAppend(a: seq<string>, b: seq<string>)
    ensures Concat(a + b) == Concat(a) + Concat(b)
  {
    if a == [] {
      assert a + b == b;
    } else {
      assert (a + b)[1..] == a[1..] + b;
      ConcatAppend(a[1..], b);
    }
  }

  /** The concatenation of one more part of a sequence of parts. */
  lemma ConcatPrefix(parts: seq<string>, i: nat)
    requires i < |parts|
    ensures Concat(parts[..i + 1]) == Concat(parts[..i]) + parts[i]
  {
    ConcatAppend(parts[..i], [parts[i]]);
    assert parts[..i + 1] == parts[..i] + [parts[i]];
  }
}
