/**
 * The two JSON codecs the event stream passes through: Python's
 * `json.dumps` with its default settings on the server, and JavaScript's
 * `JSON.parse` in the browser, for the objects the stream carries, whose
 * member values are strings. `Parse` undoes `Dumps` (lemma `ParseDumps`).
 */
module Json {
  import opened Wrappers

  /** A member `"key": "value"` of an object. */
  datatype Member = Member(key: string, value: string)

  /** An object whose member values are strings, members in source order. */
  type Object = seq<Member>

  const BACKSPACE: char := 8 as char
  const FORM_FEED: char := 12 as char

  // ---------------------------------------------------------------------
  // Encoding: json.dumps(obj) with ensure_ascii=True and separators (', ', ': ')
  // ---------------------------------------------------------------------

  /** Every character is printable ASCII; in particular there is no line break. */
  predicate Printable(s: string)
  {
    forall i :: 0 <= i < |s| ==> ' ' <= s[i] <= '~'
  }

  lemma PrintableAppend(a: string, b: string)
    requires Printable(a) && Printable(b)
    ensures Printable(a + b)
  {
    assert forall i :: 0 <= i < |a + b| ==> (a + b)[i] == if i < |a| then a[i] else b[i - |a|];
  }

  lemma PrintableHasNoNewline(s: string)
    requires Printable(s)
    ensures '\n' !in s
  {
  }

  /** One lower-case hexadecimal digit. */
  function HexDigit(d: int): (c: char)
    requires 0 <= d < 16
    ensures '0' <= c <= '9' || 'a' <= c <= 'f'
  {
    if d < 10 then ('0' as int + d) as char else ('a' as int + (d - 10)) as char
  }

  /** Four lower-case hexadecimal digits of `n`, most significant first. */
  function Hex4(n: int): (r: string)
    requires 0 <= n < 0x1_0000
    ensures |r| == 4
  {
    var low3 := n % 0x1000;
    var low2 := low3 % 0x100;
    [HexDigit(n / 0x1000), HexDigit(low3 / 0x100), HexDigit(low2 / 0x10), HexDigit(low2 % 0x10)]
  }

  /** `\uXXXX` for the UTF-16 code unit `n`. */
  function UnitEscape(n: int): string
    requires 0 <= n < 0x1_0000
  {
    "\\u" + Hex4(n)
  }

  /**
   * How json.dumps writes one character inside a string literal: the quote,
   * the backslash and five control characters get a short escape, printable
   * ASCII stays, everything else becomes `\uXXXX` (two of them, a UTF-16
   * surrogate pair, above U+FFFF).
   */
  function EscapeChar(c: char): (r: string)
    ensures |r| >= 1 && r[0] != '"'
  {
    if c == '"' then "\\\""
    else if c == '\\' then "\\\\"
    else if c == '\n' then "\\n"
    else if c == '\r' then "\\r"
    else if c == '\t' then "\\t"
    else if c == BACKSPACE then "\\b"
    else if c == FORM_FEED then "\\f"
    else if ' ' <= c <= '~' then [c]
    else if c as int < 0x1_0000 then UnitEscape(c as int)
    else PairEscape(c)
  }

  /** The UTF-16 surrogate pair of a character above U+FFFF, as two `\\uXXXX` escapes. */
  function PairEscape(c: char): string
    requires c as int >= 0x1_0000
  {
    var n := c as int - 0x1_0000;
    UnitEscape(0xD800 + n / 0x400) + UnitEscape(0xDC00 + n % 0x400)
  }

  /** The body of a string literal for `s`. */
  function Escape(s: string): string
  {
    if s == [] then "" else EscapeChar(s[0]) + Escape(s[1..])
  }

  function Quote(s: string): string
  {
    "\"" + Escape(s) + "\""
  }

  function MemberText(m: Member): string
  {
    Quote(m.key) + ": " + Quote(m.value)
  }

  function MembersText(ms: seq<Member>): string
  {
    if ms == [] then ""
    else if |ms| == 1 then MemberText(ms[0])
    else MemberText(ms[0]) + ", " + MembersText(ms[1..])
  }

  /** `json.dumps(obj)`. */
  function Dumps(obj: Object): string
  {
    "{" + MembersText(obj) + "}"
  }

  // ---------------------------------------------------------------------
  // Decoding: JSON.parse(text), for an object whose member values are strings
  // ---------------------------------------------------------------------

  /** The white space JSON allows between tokens. */
  predicate IsJsonSpace(c: char)
  {
    c == ' ' || c == '\t' || c == '\n' || c == '\r'
  }

  function SkipSpace(s: string): (r: string)
    ensures |r| <= |s|
    ensures r == [] || !IsJsonSpace(r[0])
  {
    if s != [] && IsJsonSpace(s[0]) then SkipSpace(s[1..]) else s
  }

  function HexValue(c: char): (r: Option<int>)
    ensures r.Some? ==> 0 <= r.value < 16
  {
    if '0' <= c <= '9' then Some(c as int - '0' as int)
    else if 'a' <= c <= 'f' then Some(c as int - 'a' as int + 10)
    else if 'A' <= c <= 'F' then Some(c as int - 'A' as int + 10)
    else None
  }

  /** Four hexadecimal digits at the front of `s`: the code unit they spell and what follows. */
  function ParseHex4(s: string): (r: Option<(int, string)>)
    ensures r.Some? ==> 0 <= r.value.0 < 0x1_0000 && |r.value.1| == |s| - 4
  {
    if |s| < 4 then None
    else
      var a, b, c, d := HexValue(s[0]), HexValue(s[1]), HexValue(s[2]), HexValue(s[3]);
      if a.Some? && b.Some? && c.Some? && d.Some? then
        Some((a.value * 0x1000 + b.value * 0x100 + c.value * 0x10 + d.value, s[4..]))
      else None
  }

  /**
   * The character of a `\u` escape whose four digits begin `s`: a code unit
   * outside the surrogate range stands for itself, a high surrogate must be
   * followed by a `\u` escape of a low surrogate and the pair stands for one
   * character above U+FFFF.
   */
  function ParseUnitEscape(s: string): (r: Option<(char, string)>)
    ensures r.Some? ==> |r.value.1| < |s|
  {
    match ParseHex4(s)
    case None => None
    case Some((hi, t)) =>
      if 0xD800 <= hi < 0xDC00 then
        if |t| >= 2 && t[0] == '\\' && t[1] == 'u' then
          match ParseHex4(t[2..])
          case Some((lo, u)) =>
            if 0xDC00 <= lo < 0xE000 then Some(((0x1_0000 + (hi - 0xD800) * 0x400 + (lo - 0xDC00)) as char, u))
            else None
          case None => None
        else None
      else if 0xDC00 <= hi < 0xE000 then None
      else Some((hi as char, t))
  }

  /** The character an escape sequence stands for; `s` follows the backslash. */
  function ParseEscape(s: string): (r: Option<(char, string)>)
    ensures r.Some? ==> |r.value.1| < |s|
  {
    if s == [] then None
    else if s[0] == '"' then Some(('"', s[1..]))
    else if s[0] == '\\' then Some(('\\', s[1..]))
    else if s[0] == '/' then Some(('/', s[1..]))
    else if s[0] == 'b' then Some((BACKSPACE, s[1..]))
    else if s[0] == 'f' then Some((FORM_FEED, s[1..]))
    else if s[0] == 'n' then Some(('\n', s[1..]))
    else if s[0] == 'r' then Some(('\r', s[1..]))
    else if s[0] == 't' then Some(('\t', s[1..]))
    else if s[0] == 'u' then ParseUnitEscape(s[1..])
    else None
  }

  /** One character of a string literal (not its closing quote); a raw control character is an error. */
  function ParseChar(s: string): (r: Option<(char, string)>)
    requires s != [] && s[0] != '"'
    ensures r.Some? ==> |r.value.1| < |s|
  {
    if s[0] == '\\' then ParseEscape(s[1..])
    else if s[0] < ' ' then None
    else Some((s[0], s[1..]))
  }

  /** The rest of a string literal whose opening quote came just before `s`: its value and what follows the closing quote. */
  function ParseChars(s: string): (r: Option<(string, string)>)
    ensures r.Some? ==> |r.value.1| < |s|
    decreases |s|
  {
    if s == [] then None
    else if s[0] == '"' then Some(("", s[1..]))
    else
      match ParseChar(s)
      case None => None
      case Some((c, t)) =>
        match ParseChars(t)
        case None => None
        case Some((v, u)) => Some(([c] + v, u))
  }

  function ParseString(s: string): (r: Option<(string, string)>)
    ensures r.Some? ==> |r.value.1| < |s|
  {
    if s != [] && s[0] == '"' then ParseChars(s[1..]) else None
  }

  /** `"key" : "value"`, white space allowed around the colon. */
  function ParseMember(s: string): (r: Option<(Member, string)>)
    ensures r.Some? ==> |r.value.1| < |s|
  {
    match ParseString(s)
    case None => None
    case Some((k, t)) =>
      var u := SkipSpace(t);
      if u == [] || u[0] != ':' then None
      else
        match ParseString(SkipSpace(u[1..]))
        case None => None
        case Some((v, w)) => Some((Member(k, v), w))
  }

  /** Members separated by commas up to the closing brace, which is consumed. */
  function ParseMembers(s: string): (r: Option<(Object, string)>)
    ensures r.Some? ==> |r.value.1| < |s|
    decreases |s|
  {
    match ParseMember(s)
    case None => None
    case Some((m, t)) =>
      var u := SkipSpace(t);
      if u == [] then None
      else if u[0] == '}' then Some(([m], u[1..]))
      else if u[0] == ',' then
        match ParseMembers(SkipSpace(u[1..]))
        case None => None
        case Some((ms, w)) => Some(([m] + ms, w))
      else None
  }

  /** `JSON.parse(text)`; `None` where it would throw a SyntaxError. */
  function Parse(text: string): Option<Object>
  {
    var s := SkipSpace(text);
    if s == [] || s[0] != '{' then None
    else
      var t := SkipSpace(s[1..]);
      var body: Option<(Object, string)> := if t != [] && t[0] == '}' then Some(([], t[1..])) else ParseMembers(t);
      match body
      case None => None
      case Some((obj, rest)) => if SkipSpace(rest) == [] then Some(obj) else None
  }

  /** `obj[key]` after JSON.parse: the value of the last member with that key, as duplicates overwrite. */
  function Get(obj: Object, key: string): (r: Option<string>)
    ensures r.Some? <==> exists i :: 0 <= i < |obj| && obj[i].key == key
    ensures r.Some? ==>
      exists i :: 0 <= i < |obj| && obj[i] == Member(key, r.value) && (forall j :: i < j < |obj| ==> obj[j].key != key)
  {
    if obj == [] then None
    else if obj[|obj| - 1].key == key then Some(obj[|obj| - 1].value)
    else Get(obj[..|obj| - 1], key)
  }

  // ---------------------------------------------------------------------
  // Round trip
  // ---------------------------------------------------------------------

  lemma HexDigitValue(d: int)
    requires 0 <= d < 16
    ensures HexValue(HexDigit(d)) == Some(d)
  {
  }

  /** The four digits of `Hex4`, weighted by their places, add up to `n` again. */
  lemma HexPlaces(n: int)
    requires 0 <= n < 0x1_0000
    ensures var low3 := n % 0x1000; var low2 := low3 % 0x100;
      n / 0x1000 * 0x1000 + low3 / 0x100 * 0x100 + low2 / 0x10 * 0x10 + low2 % 0x10 == n
  {
    var low3 := n % 0x1000;
    var low2 := low3 % 0x100;
    assert n == n / 0x1000 * 0x1000 + low3;
    assert low3 == low3 / 0x100 * 0x100 + low2;
    assert low2 == low2 / 0x10 * 0x10 + low2 % 0x10;
  }

  lemma HexRoundTrip(n: int, t: string)
    requires 0 <= n < 0x1_0000
    ensures ParseHex4(Hex4(n) + t) == Some((n, t))
  {
    var low3 := n % 0x1000;
    var low2 := low3 % 0x100;
    var a, b, c, d := n / 0x1000, low3 / 0x100, low2 / 0x10, low2 % 0x10;
    var s := Hex4(n) + t;
    assert s[0] == HexDigit(a) && s[1] == HexDigit(b) && s[2] == HexDigit(c) && s[3] == HexDigit(d);
    assert s[4..] == t;
    HexDigitValue(a);
    HexDigitValue(b);
    HexDigitValue(c);
    HexDigitValue(d);
    HexPlaces(n);
  }

  /** A backslash and `u` lead into the four digits of a `\u` escape. */
  lemma ParseCharUnit(x: string)
    ensures ParseChar("\\u" + x) == ParseUnitEscape(x)
  {
    var s := "\\u" + x;
    assert s[0] == '\\' && s[1..] == "u" + x;
    assert s[1..][0] == 'u' && s[1..][1..] == x;
  }

  /** The parts of a `\uXXXX` escape followed by `t`. */
  lemma UnitEscapeParts(n: int, t: string)
    requires 0 <= n < 0x1_0000
    ensures |UnitEscape(n) + t| >= 2
    ensures (UnitEscape(n) + t)[0] == '\\' && (UnitEscape(n) + t)[1] == 'u'
    ensures (UnitEscape(n) + t)[2..] == Hex4(n) + t
    ensures UnitEscape(n) + t == "\\u" + (Hex4(n) + t)
  {
  }

  /** A character below U+10000 outside the short escapes reads back from its `\uXXXX`. */
  lemma UnitRoundTrip(c: char, t: string)
    requires c as int < 0x1_0000
    ensures ParseChar(UnitEscape(c as int) + t) == Some((c, t))
  {
    UnitEscapeParts(c as int, t);
    ParseCharUnit(Hex4(c as int) + t);
    HexRoundTrip(c as int, t);
  }

  /** The surrogate pair json.dumps writes for a character above U+FFFF recombines to it. */
  lemma SurrogatesRecombine(c: char)
    requires c as int >= 0x1_0000
    ensures var n := c as int - 0x1_0000;
      && 0xD800 <= 0xD800 + n / 0x400 < 0xDC00
      && 0xDC00 <= 0xDC00 + n % 0x400 < 0xE000
      && 0x1_0000 + (n / 0x400) * 0x400 + n % 0x400 == c as int
  {
  }

  /** A high surrogate's four digits, then a low surrogate as `\uXXXX`: the character they encode together. */
  lemma PairParse(hi: int, lo: int, t: string)
    requires 0xD800 <= hi < 0xDC00 && 0xDC00 <= lo < 0xE000
    ensures ParseUnitEscape(Hex4(hi) + (UnitEscape(lo) + t))
      == Some(((0x1_0000 + (hi - 0xD800) * 0x400 + (lo - 0xDC00)) as char, t))
  {
    var rest := UnitEscape(lo) + t;
    HexRoundTrip(hi, rest);
    UnitEscapeParts(lo, t);
    HexRoundTrip(lo, t);
  }

  lemma PairEscapeParts(c: char, t: string)
    requires c as int >= 0x1_0000
    ensures var n := c as int - 0x1_0000;
      PairEscape(c) + t == "\\u" + (Hex4(0xD800 + n / 0x400) + (UnitEscape(0xDC00 + n % 0x400) + t))
  {
    var n := c as int - 0x1_0000;
    var hi, lo := 0xD800 + n / 0x400, 0xDC00 + n % 0x400;
    Assoc(UnitEscape(hi), UnitEscape(lo), t);
    UnitEscapeParts(hi, UnitEscape(lo) + t);
  }

  /** A character above U+FFFF reads back from its surrogate pair. */
  lemma PairRoundTrip(c: char, t: string)
    requires c as int >= 0x1_0000
    ensures ParseChar(PairEscape(c) + t) == Some((c, t))
  {
    var n := c as int - 0x1_0000;
    var hi, lo := 0xD800 + n / 0x400, 0xDC00 + n % 0x400;
    var x := Hex4(hi) + (UnitEscape(lo) + t);
    PairEscapeParts(c, t);
    ParseCharUnit(x);
    SurrogatesRecombine(c);
    PairParse(hi, lo, t);
  }

  /** Each escaped character reads back as itself. */
  lemma EscapeCharRoundTrip(c: char, t: string)
    ensures ParseChar(EscapeChar(c) + t) == Some((c, t))
  {
    var e := EscapeChar(c);
    if c == '"' || c == '\\' || c == '\n' || c == '\r' || c == '\t' || c == BACKSPACE || c == FORM_FEED {
      assert (e + t)[1..] == [e[1]] + t;
      assert (e + t)[1..][1..] == t;
    } else if ' ' <= c <= '~' {
      assert (e + t)[1..] == t;
    } else if c as int < 0x1_0000 {
      UnitRoundTrip(c, t);
    } else {
      PairRoundTrip(c, t);
    }
  }

  lemma {:induction false} EscapeRoundTrip(s: string, t: string)
    ensures ParseChars(Escape(s) + "\"" + t) == Some((s, t))
  {
    if s == [] {
      assert Escape(s) + "\"" + t == "\"" + t;
    } else {
      var e := EscapeChar(s[0]);
      var rest := Escape(s[1..]) + "\"" + t;
      assert Escape(s) + "\"" + t == e + rest;
      EscapeCharRoundTrip(s[0], rest);
      EscapeRoundTrip(s[1..], t);
      assert [s[0]] + s[1..] == s;
    }
  }

  lemma QuoteRoundTrip(s: string, t: string)
    ensures ParseString(Quote(s) + t) == Some((s, t))
  {
    assert (Quote(s) + t)[1..] == Escape(s) + "\"" + t;
    EscapeRoundTrip(s, t);
  }

  /** A text that starts with a non-space character is left alone by `SkipSpace`; one space before it is skipped. */
  lemma SkipOneSpace(s: string)
    requires s != [] && !IsJsonSpace(s[0])
    ensures SkipSpace(s) == s
    ensures SkipSpace(" " + s) == s
  {
    assert (" " + s)[1..] == s;
  }

  lemma MemberRoundTrip(m: Member, t: string)
    ensures ParseMember(MemberText(m) + t) == Some((m, t))
  {
    var v := Quote(m.value) + t;
    var rest := ": " + v;
    assert MemberText(m) + t == Quote(m.key) + rest;
    QuoteRoundTrip(m.key, rest);
    SkipOneSpace(rest);
    assert rest[1..] == " " + v;
    SkipOneSpace(v);
    QuoteRoundTrip(m.value, t);
  }

  /** A member followed by the closing brace. */
  lemma LastMemberStep(s: string, m: Member, t: string)
    requires ParseMember(s) == Some((m, "}" + t))
    ensures ParseMembers(s) == Some(([m], t))
  {
    SkipOneSpace("}" + t);
    assert ("}" + t)[1..] == t;
  }

  /** A member followed by `, ` and further members. */
  lemma NextMemberStep(s: string, m: Member, x: string, ms: seq<Member>, t: string)
    requires x != [] && x[0] == '"'
    requires ParseMember(s) == Some((m, ", " + x))
    requires ParseMembers(x) == Some((ms, t))
    ensures ParseMembers(s) == Some(([m] + ms, t))
  {
    var u := ", " + x;
    SkipOneSpace(u);
    assert u[0] == ',' && u[1..] == " " + x;
    SkipOneSpace(x);
    assert SkipSpace(u[1..]) == x;
  }

  lemma {:induction false} MembersRoundTrip(ms: seq<Member>, t: string)
    requires ms != []
    ensures ParseMembers(MembersText(ms) + ("}" + t)) == Some((ms, t))
  {
    var close := "}" + t;
    if |ms| == 1 {
      MembersOne(ms);
      MemberRoundTrip(ms[0], close);
      LastMemberStep(MembersText(ms) + close, ms[0], t);
    } else {
      var x := MembersText(ms[1..]) + close;
      MembersUnfold(ms, close);
      MemberRoundTrip(ms[0], ", " + x);
      MembersStartWithQuote(ms[1..], close);
      MembersRoundTrip(ms[1..], t);
      NextMemberStep(MembersText(ms) + close, ms[0], x, ms[1..], t);
      ConsTail(ms);
    }
  }

  lemma MembersOne(ms: seq<Member>)
    requires |ms| == 1
    ensures MembersText(ms) == MemberText(ms[0]) && [ms[0]] == ms
  {
  }

  lemma ConsTail(ms: seq<Member>)
    requires ms != []
    ensures [ms[0]] + ms[1..] == ms
  {
  }

  lemma Assoc(a: string, b: string, c: string)
    ensures a + b + c == a + (b + c)
  {
  }

  lemma MembersUnfold(ms: seq<Member>, t: string)
    requires |ms| >= 2
    ensures MembersText(ms) + t == MemberText(ms[0]) + (", " + (MembersText(ms[1..]) + t))
  {
    MembersCons(ms);
    Assoc4(MemberText(ms[0]), ", ", MembersText(ms[1..]), t);
  }

  lemma MembersCons(ms: seq<Member>)
    requires |ms| >= 2
    ensures MembersText(ms) == MemberText(ms[0]) + ", " + MembersText(ms[1..])
  {
  }

  lemma Assoc4(a: string, b: string, c: string, d: string)
    ensures a + b + c + d == a + (b + (c + d))
  {
  }

  lemma MembersStartWithQuote(ms: seq<Member>, t: string)
    requires ms != []
    ensures (MembersText(ms) + t)[0] == '"'
  {
    assert MembersText(ms)[0] == MemberText(ms[0])[0] == '"';
  }

  /** JSON.parse reads back exactly the object json.dumps wrote. */
  lemma ParseDumps(obj: Object)
    ensures Parse(Dumps(obj)) == Some(obj)
  {
    var s := Dumps(obj);
    BracesParts(MembersText(obj));
    SkipOneSpace(s);
    if obj == [] {
      SkipOneSpace(s[1..]);
      assert s[1..][1..] == "";
    } else {
      MembersStartWithQuote(obj, "}" + "");
      SkipOneSpace(s[1..]);
      MembersRoundTrip(obj, "");
    }
  }

  lemma BracesParts(m: string)
    ensures ("{" + m + "}")[0] == '{'
    ensures ("{" + m + "}")[1..] == m + ("}" + "")
  {
  }

  lemma EscapeCharPrintable(c: char)
    ensures Printable(EscapeChar(c))
  {
  }

  lemma {:induction false} EscapePrintable(s: string)
    ensures Printable(Escape(s))
  {
    if s != [] {
      EscapePrintable(s[1..]);
      EscapeCharPrintable(s[0]);
      PrintableAppend(EscapeChar(s[0]), Escape(s[1..]));
    }
  }

  lemma MemberPrintable(m: Member)
    ensures Printable(MemberText(m))
  {
    EscapePrintable(m.key);
    EscapePrintable(m.value);
    PrintableAppend("\"", Escape(m.key));
    PrintableAppend("\"" + Escape(m.key), "\"");
    PrintableAppend("\"", Escape(m.value));
    PrintableAppend("\"" + Escape(m.value), "\"");
    PrintableAppend(Quote(m.key), ": ");
    PrintableAppend(Quote(m.key) + ": ", Quote(m.value));
  }

  lemma {:induction false} MembersPrintable(ms: seq<Member>)
    ensures Printable(MembersText(ms))
  {
    if ms != [] {
      MemberPrintable(ms[0]);
      if |ms| > 1 {
        MembersPrintable(ms[1..]);
        PrintableAppend(MemberText(ms[0]), ", ");
        PrintableAppend(MemberText(ms[0]) + ", ", MembersText(ms[1..]));
      }
    }
  }

  /** json.dumps writes printable ASCII only, so a frame built from it has no line break inside. */
  lemma DumpsIsPrintable(obj: Object)
    ensures Printable(Dumps(obj))
  {
    MembersPrintable(obj);
    PrintableAppend("{", MembersText(obj));
    PrintableAppend("{" + MembersText(obj), "}");
  }
}
