/**
 * The Flask side: the request checks and defaults of the `/api/generate`
 * handler, and the generator that turns a streamed chat completion into
 * `data: <json>` frames, each followed by a blank line.
 */
module Server {
  import opened Wrappers
  import Json

  // ---------------------------------------------------------------------
  // generate_stream
  // ---------------------------------------------------------------------

  /** One streamed completion chunk's `choices[0].delta`; `content` is absent or null as `None`. */
  datatype Delta = Delta(content: Option<string>)

  /**
   * What the completion service delivers: the deltas in order, then either
   * a normal end or the message of the exception that cut it short (raised
   * by the call itself, in which case there are no deltas, or while iterating).
   */
  datatype Completion = Completion(deltas: seq<Delta>, failure: Option<string>)

  /** `delta.get('content')` is truthy: present and non-empty. */
  predicate HasContent(d: Delta)
  {
    d.content.Some? && d.content.value != ""
  }

  /** The frame for one piece of generated text. */
  function TextFrame(content: string): string
  {
    "data: " + Json.Dumps([Json.Member("text", content)]) + "\n\n"
  }

  /** The frame the generator's exception handler yields. */
  function ErrorFrame(message: string): string
  {
    "data: " + Json.Dumps([Json.Member("error", message)]) + "\n\n"
  }

  /** The generated texts, in delta order, skipping deltas without content. */
  function Contents(deltas: seq<Delta>): (r: seq<string>)
    ensures |r| <= |deltas|
    ensures forall i :: 0 <= i < |r| ==> r[i] != ""
  {
    if deltas == [] then []
    else if HasContent(deltas[0]) then [deltas[0].content.value] + Contents(deltas[1..])
    else Contents(deltas[1..])
  }

  /** The frames the `for chunk in response` loop yields, one per delta with content. */
  function DeltaFrames(deltas: seq<Delta>): (frames: seq<string>)
    ensures |frames| == |Contents(deltas)|
    ensures forall i :: 0 <= i < |frames| ==> frames[i] == TextFrame(Contents(deltas)[i])
  {
    if deltas == [] then []
    else if HasContent(deltas[0]) then [TextFrame(deltas[0].content.value)] + DeltaFrames(deltas[1..])
    else DeltaFrames(deltas[1..])
  }

  /**
   * `generate_stream`: the frames of the deltas with content, in order, and
   * after an exception one last frame carrying only its message.
   */
  function GenerateStream(c: Completion): (frames: seq<string>)
    ensures |frames| == |Contents(c.deltas)| + (if c.failure.Some? then 1 else 0)
    ensures forall i :: 0 <= i < |Contents(c.deltas)| ==> frames[i] == TextFrame(Contents(c.deltas)[i])
    ensures c.failure.Some? ==> frames[|frames| - 1] == ErrorFrame(c.failure.value)
  {
    DeltaFrames(c.deltas) + (if c.failure.Some? then [ErrorFrame(c.failure.value)] else [])
  }

  /**
   * The loop's step: one more delta adds exactly one frame when it has
   * content, and none otherwise, after the frames of the deltas before it.
   */
  lemma {:induction false} DeltaFramesSnoc(deltas: seq<Delta>, d: Delta)
    ensures DeltaFrames(deltas + [d]) == DeltaFrames(deltas) + (if HasContent(d) then [TextFrame(d.content.value)] else [])
  {
    if deltas == [] {
      assert deltas + [d] == [d];
    } else {
      assert (deltas + [d])[1..] == deltas[1..] + [d];
      DeltaFramesSnoc(deltas[1..], d);
    }
  }

  /** The JSON object of a text frame is exactly `{"text": content}`, and the frame holds no line break before its end. */
  lemma TextFrameShape(content: string)
    ensures TextFrame(content) == "data: " + Json.Dumps([Json.Member("text", content)]) + "\n" + "\n"
    ensures Json.Parse(Json.Dumps([Json.Member("text", content)])) == Some([Json.Member("text", content)])
    ensures '\n' !in Json.Dumps([Json.Member("text", content)])
  {
    Json.ParseDumps([Json.Member("text", content)]);
    Json.DumpsIsPrintable([Json.Member("text", content)]);
    Json.PrintableHasNoNewline(Json.Dumps([Json.Member("text", content)]));
  }

  /** The JSON object of the error frame carries the `error` key and nothing else. */
  lemma ErrorFrameShape(message: string)
    ensures ErrorFrame(message) == "data: " + Json.Dumps([Json.Member("error", message)]) + "\n" + "\n"
    ensures Json.Parse(Json.Dumps([Json.Member("error", message)])) == Some([Json.Member("error", message)])
    ensures '\n' !in Json.Dumps([Json.Member("error", message)])
  {
    Json.ParseDumps([Json.Member("error", message)]);
    Json.DumpsIsPrintable([Json.Member("error", message)]);
    Json.PrintableHasNoNewline(Json.Dumps([Json.Member("error", message)]));
  }

  // ---------------------------------------------------------------------
  // generate_text
  // ---------------------------------------------------------------------

  const DEFAULT_MODEL: string := "gpt-3.5-turbo"
  const DEFAULT_MAX_TOKENS: int := 1000
  const DEFAULT_TEMPERATURE: real := 0.7
  const PROMPT_REQUIRED: string := "Prompt is required"

  /** The fields of the request's JSON object; a field that is absent is `None`. */
  datatype Request = Request(
    prompt: Option<string>,
    model: Option<string>,
    maxTokens: Option<int>,
    temperature: Option<real>,
    stream: Option<bool>)

  /** The arguments handed to the completion service. */
  datatype Params = Params(prompt: string, model: string, maxTokens: int, temperature: real)

  /** How the handler answers. */
  datatype Reply =
    | Rejected(status: nat, error: string)   // a JSON error object with a client-error status
    | Streamed(params: Params)               // a text/plain response whose body is generate_stream(params)
    | Completed(params: Params)              // a completion call is made; on success its stripped text is returned
    | Failed(status: nat)                    // an exception turned into a 500

  /**
   * `generate_text`, given the parsed request body (`None` when the body is
   * not a JSON object, where `data.get` raises).
   */
  function GenerateText(body: Option<Request>): (r: Reply)
    ensures body.None? ==> r == Failed(500)
    ensures body.Some? ==>
      (r.Rejected? <==> body.value.prompt.GetOr("") == "")
    ensures r.Rejected? ==> r == Rejected(400, PROMPT_REQUIRED)
    ensures body.Some? && body.value.prompt.GetOr("") != "" ==> r.Streamed? || r.Completed?
    ensures r.Streamed? || r.Completed? ==>
      && body.Some?
      && Some(r.params.prompt) == body.value.prompt
      && r.params.prompt != ""
      && r.params.model == body.value.model.GetOr(DEFAULT_MODEL)
      && r.params.maxTokens == body.value.maxTokens.GetOr(DEFAULT_MAX_TOKENS)
      && r.params.temperature == body.value.temperature.GetOr(DEFAULT_TEMPERATURE)
      && (r.Streamed? <==> body.value.stream.GetOr(false))
  {
    match body
    case None => Failed(500)
    case Some(data) =>
      var prompt := data.prompt.GetOr("");
      var model := data.model.GetOr(DEFAULT_MODEL);
      var maxTokens := data.maxTokens.GetOr(DEFAULT_MAX_TOKENS);
      var temperature := data.temperature.GetOr(DEFAULT_TEMPERATURE);
      var stream := data.stream.GetOr(false);
      if prompt == "" then Rejected(400, PROMPT_REQUIRED)
      else
        var params := Params(prompt, model, maxTokens, temperature);
        if stream then Streamed(params) else Completed(params)
  }
}
