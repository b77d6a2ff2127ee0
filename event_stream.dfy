/**
 * What the browser client makes of the event stream, line by line: a
 * complete line that starts with `data: ` carries a JSON payload, the
 * payload `[DONE]` is skipped, and a payload that parses to an object with a
 * non-empty `text` member contributes that text to the suggestion panel.
 * Everything else contributes nothing and does not stop the stream.
 */
module EventStream {
  import opened Wrappers
  import opened Strings
  import Lines
  import Json

  /**
   * The JSON parser the client applies to each payload (`JSON.parse`):
   * `None` stands for a payload it throws on. It is a parameter here so that
   * the framing and the panel logic hold whatever the parser makes of a
   * payload; `Wire` instantiates it with `Json.Parse`.
   */
  type Parser = string -> Option<Json.Object>

  const DATA_PREFIX: string := "data: "
  const DONE: string := "[DONE]"
  const TEXT_KEY: string := "text"

  /** The payload of a `data: ` line. */
  function Payload(line: string): string
    requires StartsWith(line, DATA_PREFIX)
  {
    line[|DATA_PREFIX|..]
  }

  /** The text one complete line hands to the panel, if any. */
  function LineText(parse: Parser, line: string): (r: Option<string>)
    ensures !StartsWith(line, DATA_PREFIX) ==> r == None
    ensures StartsWith(line, DATA_PREFIX) && Payload(line) == DONE ==> r == None
    ensures StartsWith(line, DATA_PREFIX) && parse(Payload(line)).None? ==> r == None
    ensures r.Some? ==>
      && StartsWith(line, DATA_PREFIX)
      && parse(Payload(line)).Some?
      && Json.Get(parse(Payload(line)).value, TEXT_KEY) == r
      && r.value != ""
    ensures (&& StartsWith(line, DATA_PREFIX) && Payload(line) != DONE && parse(Payload(line)).Some?
             && Json.Get(parse(Payload(line)).value, TEXT_KEY).Some?
             && Json.Get(parse(Payload(line)).value, TEXT_KEY).value != "")
      ==> r == Json.Get(parse(Payload(line)).value, TEXT_KEY)
  {
    if !StartsWith(line, DATA_PREFIX) then None
    else
      var data := Payload(line);
      if data == DONE then None
      else
        match parse(data)
        case None => None
        case Some(parsed) =>
          match Json.Get(parsed, TEXT_KEY)
          case Some(t) => if t != "" then Some(t) else None
          case None => None
  }

  /** What one line's outcome adds to the panel's texts: its text, or nothing. */
  function Listed(t: Option<string>): seq<string>
  {
    if t.Some? then [t.value] else []
  }

  /** The texts the given complete lines hand to the panel, in order. */
  function Emissions(parse: Parser, lines: seq<string>): seq<string>
  {
    if lines == [] then [] else Listed(LineText(parse, lines[0])) + Emissions(parse, lines[1..])
  }

  /** The texts a whole received text hands to the panel: those of its complete lines only. */
  function Decode(parse: Parser, text: string): seq<string>
  {
    Emissions(parse, Lines.Complete(text))
  }

  lemma {:induction false} EmissionsAppend(parse: Parser, a: seq<string>, b: seq<string>)
    ensures Emissions(parse, a + b) == Emissions(parse, a) + Emissions(parse, b)
  {
    if a == [] {
      assert a + b == b;
    } else {
      assert (a + b)[1..] == a[1..] + b;
      EmissionsAppend(parse, a[1..], b);
    }
  }

  lemma EmissionsSnoc(parse: Parser, lines: seq<string>, line: string)
    ensures Emissions(parse, lines + [line]) == Emissions(parse, lines) + Listed(LineText(parse, line))
  {
    EmissionsAppend(parse, lines, [line]);
    assert Emissions(parse, [line]) == Listed(LineText(parse, line)) + Emissions(parse, []);
  }

  /** Every text handed on is non-empty, and no line hands on more than one. */
  lemma {:induction false} EmissionsFromLines(parse: Parser, lines: seq<string>)
    ensures forall i :: 0 <= i < |Emissions(parse, lines)| ==> Emissions(parse, lines)[i] != ""
    ensures |Emissions(parse, lines)| <= |lines|
  {
    if lines != [] {
      EmissionsFromLines(parse, lines[1..]);
    }
  }

  /**
   * A line that hands nothing on (no prefix, `[DONE]`, a payload that does not
   * parse, no or an empty `text`) vanishes without a trace: the lines after it
   * are processed exactly as if it were not there.
   */
  lemma SkippedLineVanishes(parse: Parser, before: seq<string>, line: string, after: seq<string>)
    requires LineText(parse, line).None?
    ensures Emissions(parse, before + [line] + after) == Emissions(parse, before) + Emissions(parse, after)
  {
    EmissionsAppend(parse, before + [line], after);
    EmissionsSnoc(parse, before, line);
    assert Emissions(parse, before) + Listed(LineText(parse, line)) == Emissions(parse, before);
  }

  /**
   * Receiving `more` after `text` hands on what `text` did, then whatever the
   * lines completed by `more` (with `text`'s pending fragment in front) hand on.
   */
  lemma DecodeAppend(parse: Parser, text: string, more: string)
    ensures Decode(parse, text + more) == Decode(parse, text) + Decode(parse, Lines.Pending(text) + more)
  {
    Lines.SplitAppend(text, more);
    EmissionsAppend(parse, Lines.Complete(text), Lines.Complete(Lines.Pending(text) + more));
  }

  /**
   * One step of the read loop: when `chunk` arrives after `received`, the
   * lines it hands on are all pieces but the last of the pending fragment
   * followed by `chunk`, and the last piece is the new pending fragment.
   */
  lemma ReadStep(parse: Parser, received: string, chunk: string)
    ensures var pieces := Lines.Split(Lines.Pending(received) + chunk);
      && Decode(parse, received + chunk) == Decode(parse, received) + Emissions(parse, pieces[..|pieces| - 1])
      && Lines.Pending(received + chunk) == pieces[|pieces| - 1]
  {
    DecodeAppend(parse, received, chunk);
    Lines.SplitAppend(received, chunk);
  }

  /**
   * A fragment without a newline hands nothing on, so the unterminated text
   * left when the stream ends is never shown.
   */
  lemma TrailingFragmentIgnored(parse: Parser, text: string, fragment: string)
    requires Lines.NL !in fragment
    ensures Decode(parse, text + fragment) == Decode(parse, text)
  {
    DecodeAppend(parse, text, fragment);
    Lines.PendingIsTail(text);
    var p := Lines.Pending(text);
    assert Lines.NL !in p + fragment by {
      assert forall i :: 0 <= i < |p + fragment| ==> (p + fragment)[i] == if i < |p| then p[i] else fragment[i - |p|];
    }
    Lines.SplitNoNewline(p + fragment);
  }
}
