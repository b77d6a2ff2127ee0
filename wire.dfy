/**
 * The server's frames read by the browser's decoder: whatever chunks the
 * concatenated frames arrive in, the panel receives exactly the generated
 * texts, in order; blank separator lines and the error frame add nothing.
 */
module Wire {
  import opened Wrappers
  import opened Strings
  import Lines
  import Json
  import EventStream
  import Server

  /** What each frame on its own hands on, frame after frame. */
  function DecodeEach(frames: seq<string>): seq<string>
  {
    if frames == [] then [] else EventStream.Decode(Json.Parse, frames[0]) + DecodeEach(frames[1..])
  }

  lemma {:induction false} DecodeEachAppend(a: seq<string>, b: seq<string>)
    ensures DecodeEach(a + b) == DecodeEach(a) + DecodeEach(b)
  {
    if a == [] {
      assert a + b == b;
    } else {
      assert (a + b)[1..] == a[1..] + b;
      DecodeEachAppend(a[1..], b);
    }
  }

  /**
   * Frames that each end with a newline decode independently: the decoder
   * never carries anything across a frame boundary.
   */
  lemma {:induction false} DecodeTerminatedFrames(frames: seq<string>)
    requires forall i :: 0 <= i < |frames| ==> Lines.Pending(frames[i]) == ""
    ensures EventStream.Decode(Json.Parse, Concat(frames)) == DecodeEach(frames)
    ensures Lines.Pending(Concat(frames)) == ""
  {
    if frames != [] {
      DecodeTerminatedFrames(frames[1..]);
      Lines.TerminatedPrefix(frames[0], Concat(frames[1..]));
      EventStream.EmissionsAppend(Json.Parse, Lines.Complete(frames[0]), Lines.Complete(Concat(frames[1..])));
    }
  }

  /** A `data: <payload>` frame splits into the record line and a blank line, with nothing pending. */
  lemma FrameLines(payload: string)
    requires Lines.NL !in payload
    ensures Lines.Complete("data: " + payload + "\n" + "\n") == ["data: " + payload, ""]
    ensures Lines.Pending("data: " + payload + "\n" + "\n") == ""
  {
    var line := "data: " + payload;
    assert Lines.NL !in line by {
      assert forall i :: 0 <= i < |line| ==> line[i] == if i < 6 then "data: "[i] else payload[i - 6];
    }
    Lines.SplitAfterLine(line, "\n");
    Lines.SplitAfterLine("", "");
    assert "\n" == "" + [Lines.NL] + "";
    assert line + "\n" + "\n" == line + [Lines.NL] + "\n";
  }

  /** A text frame hands on exactly its content, when that content is non-empty. */
  lemma TextFrameDecodes(content: string)
    requires content != ""
    ensures EventStream.Decode(Json.Parse, Server.TextFrame(content)) == [content]
    ensures Lines.Pending(Server.TextFrame(content)) == ""
  {
    var payload := Json.Dumps([Json.Member("text", content)]);
    Server.TextFrameShape(content);
    FrameLines(payload);
    var line := "data: " + payload;
    assert StartsWith(line, EventStream.DATA_PREFIX) && EventStream.Payload(line) == payload;
    assert payload != EventStream.DONE by {
      assert payload[0] == '{';
    }
    assert Json.Get([Json.Member("text", content)], "text") == Some(content);
    assert EventStream.LineText(Json.Parse, line) == Some(content);
    assert EventStream.Emissions(Json.Parse, [""]) == [];
    assert EventStream.Emissions(Json.Parse, [line, ""]) == [content];
  }

  /** The error frame hands nothing on. */
  lemma ErrorFrameDecodes(message: string)
    ensures EventStream.Decode(Json.Parse, Server.ErrorFrame(message)) == []
    ensures Lines.Pending(Server.ErrorFrame(message)) == ""
  {
    var payload := Json.Dumps([Json.Member("error", message)]);
    Server.ErrorFrameShape(message);
    FrameLines(payload);
    var line := "data: " + payload;
    assert StartsWith(line, EventStream.DATA_PREFIX) && EventStream.Payload(line) == payload;
    assert payload != EventStream.DONE by {
      assert payload[0] == '{';
    }
    assert Json.Get([Json.Member("error", message)], "text") == None;
    assert EventStream.LineText(Json.Parse, line) == None;
    assert EventStream.Emissions(Json.Parse, [""]) == [];
    assert EventStream.Emissions(Json.Parse, [line, ""]) == [];
  }

  lemma {:induction false} DeltaFramesDecode(deltas: seq<Server.Delta>)
    ensures DecodeEach(Server.DeltaFrames(deltas)) == Server.Contents(deltas)
    ensures forall i :: 0 <= i < |Server.DeltaFrames(deltas)| ==> Lines.Pending(Server.DeltaFrames(deltas)[i]) == ""
  {
    if deltas != [] {
      DeltaFramesDecode(deltas[1..]);
      if Server.HasContent(deltas[0]) {
        var f := Server.TextFrame(deltas[0].content.value);
        TextFrameDecodes(deltas[0].content.value);
        assert Server.DeltaFrames(deltas) == [f] + Server.DeltaFrames(deltas[1..]);
      }
    }
  }

  /**
   * Encode, then decode: the concatenated output of `generate_stream`, read
   * by the browser's decoder, hands on exactly the non-empty delta contents
   * in order and leaves nothing pending, whether or not the stream ended
   * with an error frame.
   */
  lemma StreamRoundTrip(c: Server.Completion)
    ensures EventStream.Decode(Json.Parse, Concat(Server.GenerateStream(c))) == Server.Contents(c.deltas)
    ensures Lines.Pending(Concat(Server.GenerateStream(c))) == ""
  {
    var body := Server.DeltaFrames(c.deltas);
    var tail := if c.failure.Some? then [Server.ErrorFrame(c.failure.value)] else [];
    var frames := Server.GenerateStream(c);
    assert frames == body + tail;
    DeltaFramesDecode(c.deltas);
    if c.failure.Some? {
      ErrorFrameDecodes(c.failure.value);
      assert DecodeEach(tail) == [];
    }
    DecodeEachAppend(body, tail);
    assert forall i :: 0 <= i < |frames| ==> Lines.Pending(frames[i]) == "" by {
      forall i | 0 <= i < |frames|
        ensures Lines.Pending(frames[i]) == ""
      {
        if i >= |body| {
          ErrorFrameDecodes(c.failure.value);
        }
      }
    }
    DecodeTerminatedFrames(frames);
  }
}
