/**
 * The browser controller's state that matters to the stream: the entries of
 * the suggestions container, the entry that streamed text is appended to
 * (`currentSuggestion`), and the read loop that frames the response body
 * into lines and hands each record's text to the panel.
 */
module Assistant {
  import opened Wrappers
  import opened Strings
  import Lines
  import Json
  import EventStream

  /** One entry of the suggestions panel; `text` is the textContent of its paragraph. */
  class Suggestion {
    var text: string

    constructor ()
      ensures text == ""
    {
      text := "";
    }
  }

  /** How a click on the generate button ends. */
  datatype Outcome =
    | EmptyEditor                                   // nothing to work on: an error is shown and nothing is requested
    | Finished(emitted: seq<string>, discarded: string)  // the texts appended, and the unterminated tail dropped at the end

  class WritingAssistant {
    /** The entries attached to the suggestions container, in order. */
    var container: seq<Suggestion>
    /** `currentSuggestion`: the entry streamed text goes to, once one exists. */
    var current: Suggestion?

    constructor ()
      ensures container == [] && current == null
    {
      container := [];
      current := null;
    }

    /** Appends a fresh, empty entry to the container and makes it the current one. */
    method CreateNewSuggestion()
      modifies this
      ensures fresh(current) && current.text == ""
      ensures container == old(container) + [current]
    {
      var entry := new Suggestion();
      container := container + [entry];
      current := entry;
    }

    /**
     * The first append creates exactly one entry and makes it current; every
     * later one extends that same entry, wherever it now is.
     */
    method AppendToSuggestions(t: string)
      modifies this, current
      ensures old(current) == null ==>
        fresh(current) && container == old(container) + [current] && current.text == t
      ensures old(current) != null ==>
        current == old(current) && container == old(container) && current.text == old(current.text) + t
    {
      if current == null {
        CreateNewSuggestion();
      }
      current.text := current.text + t;
    }

    /**
     * The panel shows `shown` appended after the state (`container0`,
     * `current0`, whose text was `text0`) it had before: nothing changes while
     * nothing was shown; then either a new entry holds all of it, or the
     * entry that was current has all of it appended.
     */
    ghost predicate Extends(container0: seq<Suggestion>, current0: Suggestion?, text0: string, shown: seq<string>)
      reads this, current
    {
      if shown == [] then
        container == container0 && current == current0 && (current0 != null ==> current.text == text0)
      else if current0 == null then
        current != null && container == container0 + [current] && current.text == Concat(shown)
      else
        current == current0 && container == container0 && current.text == text0 + Concat(shown)
    }

    /**
     * One complete line of the response: a `data: ` record other than
     * `[DONE]` whose payload parses and has a non-empty `text` has that text
     * appended to the panel; a payload that does not parse is only logged.
     * The ghost parameters name a state the panel extends by `shown`;
     * afterwards it extends that state by `shown` and this line's text.
     */
    method HandleLine(parse: EventStream.Parser, line: string,
                      ghost container0: seq<Suggestion>, ghost current0: Suggestion?, ghost text0: string,
                      ghost shown: seq<string>)
      returns (t: Option<string>)
      requires Extends(container0, current0, text0, shown)
      modifies this, current
      ensures t == EventStream.LineText(parse, line)
      ensures Extends(container0, current0, text0, shown + EventStream.Listed(t))
      ensures current == old(current) || fresh(current)
    {
      t := None;
      if StartsWith(line, EventStream.DATA_PREFIX) {
        var data := line[|EventStream.DATA_PREFIX|..];
        if data != EventStream.DONE {
          var parsed := parse(data);
          if parsed.Some? {
            var text := Json.Get(parsed.value, EventStream.TEXT_KEY);
            if text.Some? && text.value != "" {
              AppendToSuggestions(text.value);
              t := text;
              ConcatAppend(shown, [t.value]);
              assert Concat([t.value]) == t.value;
            }
          }
        }
      }
      if t.None? {
        assert shown + EventStream.Listed(t) == shown;
      }
    }

    /**
     * The `for (const line of lines)` loop over the complete lines of one
     * split. The ghost parameters name a state the panel extends by `shown`;
     * afterwards it extends that state by `shown` and then by the texts of
     * these lines.
     */
    method HandleLines(parse: EventStream.Parser, lines: seq<string>,
                       ghost container0: seq<Suggestion>, ghost current0: Suggestion?, ghost text0: string,
                       ghost shown: seq<string>)
      returns (emitted: seq<string>)
      requires Extends(container0, current0, text0, shown)
      modifies this, current
      ensures emitted == EventStream.Emissions(parse, lines)
      ensures Extends(container0, current0, text0, shown + emitted)
      ensures current == old(current) || fresh(current)
    {
      emitted := [];
      assert shown + emitted == shown;
      for j := 0 to |lines|
        invariant emitted == EventStream.Emissions(parse, lines[..j])
        invariant Extends(container0, current0, text0, shown + emitted)
        invariant current == old(current) || fresh(current)
      {
        var t := HandleLine(parse, lines[j], container0, current0, text0, shown + emitted);
        assert shown + emitted + EventStream.Listed(t) == shown + (emitted + EventStream.Listed(t));
        emitted := emitted + EventStream.Listed(t);
        assert lines[..j + 1] == lines[..j] + [lines[j]];
        EventStream.EmissionsSnoc(parse, lines[..j], lines[j]);
      }
      assert lines[..|lines|] == lines;
    }

    /**
     * One pass of the read loop: the chunk is appended to the buffer, the
     * buffer is split on newlines, the last piece is kept as the new buffer
     * and every other piece is handled as a complete line.
     */
    method ReceiveChunk(parse: EventStream.Parser, buffer: string, chunk: string,
                        ghost container0: seq<Suggestion>, ghost current0: Suggestion?, ghost text0: string,
                        ghost shown: seq<string>)
      returns (emitted: seq<string>, rest: string)
      requires Extends(container0, current0, text0, shown)
      modifies this, current
      ensures var pieces := Lines.Split(buffer + chunk);
        && emitted == EventStream.Emissions(parse, pieces[..|pieces| - 1])
        && rest == pieces[|pieces| - 1]
      ensures Extends(container0, current0, text0, shown + emitted)
      ensures current == old(current) || fresh(current)
    {
      var lines := Lines.Split(buffer + chunk);
      rest := lines[|lines| - 1];
      emitted := HandleLines(parse, lines[..|lines| - 1], container0, current0, text0, shown);
    }

    /**
     * The read loop: each chunk is appended to the buffer, the buffer is split
     * on newlines, the last piece is kept as the new buffer and every other
     * line is handled as a record. What it appends depends on the received
     * text only, not on where the chunks were cut; the returned buffer is the
     * text after the last newline, which is dropped when the stream is done.
     */
    method ReadStream(parse: EventStream.Parser, chunks: seq<string>) returns (emitted: seq<string>, buffer: string)
      modifies this, current
      ensures emitted == EventStream.Decode(parse, Concat(chunks))
      ensures buffer == Lines.Pending(Concat(chunks))
      ensures Lines.NL !in buffer
      ensures Extends(old(container), old(current), old(if current != null then current.text else ""), emitted)
      ensures current == old(current) || fresh(current)
    {
      ghost var container0, current0 := container, current;
      ghost var text0 := if current != null then current.text else "";
      emitted, buffer := [], "";
      ghost var received := "";
      for i := 0 to |chunks|
        invariant received == Concat(chunks[..i])
        invariant buffer == Lines.Pending(received)
        invariant emitted == EventStream.Decode(parse, received)
        invariant Extends(container0, current0, text0, emitted)
        invariant current == old(current) || fresh(current)
      {
        EventStream.ReadStep(parse, received, chunks[i]);
        var more;
        more, buffer := ReceiveChunk(parse, buffer, chunks[i], container0, current0, text0, emitted);
        emitted := emitted + more;
        ConcatPrefix(chunks, i);
        received := received + chunks[i];
      }
      assert chunks[..|chunks|] == chunks;
      Lines.PendingLacksNewline(Concat(chunks));
    }

    /**
     * The generate button, as written: an editor holding only white space
     * requests nothing; otherwise the container is emptied and the response
     * read. `currentSuggestion` keeps pointing at the entry of an earlier
     * request, which is no longer in the container, so the new text goes
     * there and the panel stays empty.
     */
    method GenerateSuggestions(parse: EventStream.Parser, editorText: string, chunks: seq<string>) returns (outcome: Outcome)
      modifies this, current
      ensures Trim(editorText) == "" ==>
        outcome == EmptyEditor
        && Extends(old(container), old(current), old(if current != null then current.text else ""), [])
      ensures Trim(editorText) != "" ==>
        outcome == Finished(EventStream.Decode(parse, Concat(chunks)), Lines.Pending(Concat(chunks)))
        && Extends([], old(current), old(if current != null then current.text else ""), outcome.emitted)
      ensures current == old(current) || fresh(current)
    {
      if Trim(editorText) == "" {
        return EmptyEditor;
      }
      container := [];
      var emitted, rest := ReadStream(parse, chunks);
      outcome := Finished(emitted, rest);
    }

    /**
     * The generate button with `currentSuggestion` cleared together with the
     * container: the panel then holds exactly one entry with all of this
     * request's text, or nothing when the response had none.
     */
    method GenerateSuggestionsCorrected(parse: EventStream.Parser, editorText: string, chunks: seq<string>) returns (outcome: Outcome)
      modifies this, current
      ensures Trim(editorText) == "" ==>
        outcome == EmptyEditor
        && Extends(old(container), old(current), old(if current != null then current.text else ""), [])
      ensures Trim(editorText) != "" ==>
        outcome == Finished(EventStream.Decode(parse, Concat(chunks)), Lines.Pending(Concat(chunks)))
        && (outcome.emitted == [] ==> container == [] && current == null)
        && (outcome.emitted != [] ==>
              fresh(current) && container == [current] && current.text == Concat(outcome.emitted))
    {
      if Trim(editorText) == "" {
        return EmptyEditor;
      }
      container := [];
      current := null;
      var emitted, rest := ReadStream(parse, chunks);
      outcome := Finished(emitted, rest);
    }
  }

  /**
   * Two clicks on the generate button, as written, each answered with a
   * stream that carries some text: after the second the container has no
   * entry, and both answers sit in the detached entry of the first.
   */
  method TwoRequestsAsWritten(parse: EventStream.Parser, editorText: string, chunks: seq<string>)
    returns (entries: nat, detached: string)
    requires Trim(editorText) != ""
    requires EventStream.Decode(parse, Concat(chunks)) != []
    ensures entries == 0
    ensures detached == Concat(EventStream.Decode(parse, Concat(chunks))) + Concat(EventStream.Decode(parse, Concat(chunks)))
  {
    var assistant := new WritingAssistant();
    var first := assistant.GenerateSuggestions(parse, editorText, chunks);
    var second := assistant.GenerateSuggestions(parse, editorText, chunks);
    entries := |assistant.container|;
    detached := assistant.current.text;
  }

  /** The same two clicks with the correction: one entry, holding the second answer only. */
  method TwoRequestsCorrected(parse: EventStream.Parser, editorText: string, chunks: seq<string>)
    returns (entries: nat, shown: string)
    requires Trim(editorText) != ""
    requires EventStream.Decode(parse, Concat(chunks)) != []
    ensures entries == 1
    ensures shown == Concat(EventStream.Decode(parse, Concat(chunks)))
  {
    var assistant := new WritingAssistant();
    var first := assistant.GenerateSuggestionsCorrected(parse, editorText, chunks);
    var second := assistant.GenerateSuggestionsCorrected(parse, editorText, chunks);
    entries := |assistant.container|;
    shown := assistant.container[0].text;
  }
}
