# Creative writing assistant: the streamed-suggestion path, in Dafny

The application is a small writing assistant. A Flask server (`app.py`) forwards a prompt to a
chat-completion service and streams the generated text back. Each piece of text goes out as an
event-stream record: `data: {"text": ...}` followed by a blank line. The browser controller
(`static/js/app.js`, class `WritingAssistant`) reads the response body chunk by chunk. It keeps
the text after the last newline in a buffer and hands every complete `data:` record to the
suggestions panel. The panel appends the text to one entry (`currentSuggestion`), which the
first append creates. The same controller shows word and paragraph counts for the editor.

This project models that path and proves what it promises:

- `Strings`: ECMAScript white space, `trim`, `startsWith`, and string concatenation.
- `Lines`: `split('\n')` and the split of a text into complete lines plus the pending buffer
  (`lines.pop()`). Proved: split and join are inverses, splitting distributes over appending,
  and the buffer is exactly the newline-free tail of the text.
- `Json`: Python's `json.dumps` with its defaults (`ensure_ascii`, `", "` and `": "`
  separators, lower-case `\uXXXX` escapes, surrogate pairs beyond the Basic Multilingual
  Plane), and a `JSON.parse` for objects with string members. Proved: parsing a dumped object
  gives the object back, and dumped text is printable ASCII, so it holds no newline.
- `EventStream`: what the client makes of each complete line, and of a whole received text,
  with `JSON.parse` as a parameter.
- `Server`: `generate_stream` framing, and the checks and defaults of `generate_text`.
- `Wire`: the end-to-end property. Decoding the concatenated frames of `generate_stream` gives
  exactly the non-empty delta contents, in order. The blank separator lines and the error frame
  add nothing.
- `Assistant`: the controller's stateful part, as classes. It covers the read loop over
  chunks, the `for` loop over lines, `appendToSuggestions`/`createNewSuggestion`, and the
  generate button with its empty-editor guard.
- `Stats`: the word count (`trim().split(/\s+/).length`) and the paragraph count
  (`split(/\n\s*\n/).filter(p => p.trim()).length`), following ECMAScript's regular-expression
  split.

The read loop is proved against a specification function: whatever the chunk boundaries, what
it appends is `EventStream.Decode` of the concatenated chunks. Its buffer is what `Lines.Pending`
leaves of that text.

## Model

| member | source | states |
|---|---|---|
| Strings.Trim | static/js/app.js:53 | The trimmed text is empty exactly when the text is all white space; otherwise it starts and ends with a non-white-space character |
| Strings.TrimFront | static/js/app.js:53 | Everything before the front cut is white space, and the character at the cut is not |
| Strings.TrimBack | static/js/app.js:53 | Everything from the back cut on is white space, and the character before it is not |
| Strings.IsSpace | static/js/app.js:53 | The ECMAScript white-space and line-terminator characters, which `trim` strips and `\s` matches; a definition, used by `Strings.Trim`, `Stats.WordCountIsRuns` and `Stats.ParagraphCountZero` |
| Strings.StartsWith | static/js/app.js:94 | `line.startsWith(prefix)`: the prefix is exactly the first characters of the line; a definition, used by `EventStream.LineText` |
| Strings.ConcatPrefix | static/js/app.js:89 | Appending one more chunk extends the received text by exactly that chunk |
| Lines.Split | static/js/app.js:90 | `split('\n')` always yields at least one piece |
| Lines.SplitPiecesLackNewline | static/js/app.js:90 | No piece of a split contains a newline |
| Lines.JoinSplit | static/js/app.js:90 | Joining the pieces with newlines gives back the text |
| Lines.SplitJoin | static/js/app.js:90 | Splitting newline-free lines joined by newlines gives back those lines |
| Lines.SplitConcat | static/js/app.js:89-91 | Splitting `a + b` gives the complete lines of `a`, then the split of `a`'s pending fragment followed by `b` |
| Lines.SplitAppend | static/js/app.js:89-91 | Appending a chunk adds the complete lines of the old buffer plus the chunk, and the new buffer is the same whichever way it is computed |
| Lines.PendingIsTail | static/js/app.js:91 | The buffer is a newline-free suffix of the text, and a newline precedes it unless it is the whole text |
| Lines.PendingLacksNewline | static/js/app.js:91 | The buffer left after a split holds no newline |
| Lines.Complete | static/js/app.js:90-91 | The lines that `lines.pop()` leaves for the `for` loop: every piece of the split but the last; what they satisfy is in `Lines.SplitAppend` and `Lines.FramingReconstructs` |
| Lines.Pending | static/js/app.js:91 | The piece `lines.pop()` keeps as the new buffer; proved to be the newline-free tail of the text in `Lines.PendingIsTail` |
| Lines.FramingReconstructs | static/js/app.js:89-91 | The complete lines and the buffer, rejoined with newlines, are the whole received text: nothing is dropped or reordered |
| Lines.TerminatedPrefix | static/js/app.js:89-91 | After a text ending in a newline, later text is framed independently of it |
| Json.Dumps | app.py:63 | Python's `json.dumps` of a string-valued object with its default settings; what it satisfies is in `Json.ParseDumps` and `Json.DumpsIsPrintable` |
| Json.Parse | static/js/app.js:99 | `JSON.parse` of an object whose members are strings, `None` where it throws; it inverts `Json.Dumps` by `Json.ParseDumps` |
| Json.HexRoundTrip | app.py:63 | Parsing four hex digits written for a 16-bit value gives that value |
| Json.PairRoundTrip | app.py:63 | A character beyond U+FFFF, written as a surrogate-pair escape, parses back to that character |
| Json.EscapeRoundTrip | app.py:63 | Parsing an escaped string body up to its closing quote gives back the string and leaves the rest |
| Json.MembersRoundTrip | app.py:63 | Parsing written object members up to the closing brace gives back the members |
| Json.ParseDumps | app.py:63 | `JSON.parse(json.dumps(obj))` gives back `obj` |
| Json.DumpsIsPrintable | app.py:63 | `json.dumps` with `ensure_ascii` writes printable ASCII only |
| Json.PrintableHasNoNewline | app.py:63 | Printable ASCII holds no newline, so a dumped payload never breaks a frame's line |
| Json.Get | static/js/app.js:100 | `parsed.text` is defined exactly when some member has that key, and then its value is that of the LAST such member, since `JSON.parse` lets a repeated key overwrite the earlier ones |
| EventStream.LineText | static/js/app.js:94-105 | A line without the `data: ` prefix, the `[DONE]` record and an unparsable payload give nothing. A `data: ` record other than `[DONE]` whose payload parses with a non-empty `text` member hands on exactly that text, and any text handed on is of that kind |
| EventStream.Emissions | static/js/app.js:93-107 | The texts that the `for` loop over complete lines hands on, in order; the loop `Assistant.WritingAssistant.HandleLines` is proved to append exactly these |
| EventStream.Decode | static/js/app.js:85-107 | The texts that a whole received text hands on, from its complete lines only; the read loop `Assistant.WritingAssistant.ReadStream` is proved to append exactly these |
| EventStream.EmissionsFromLines | static/js/app.js:100-101 | Every text handed on is non-empty, and there is at most one per line |
| EventStream.SkippedLineVanishes | static/js/app.js:94-96 | A line that hands nothing on leaves no trace, and the lines after it are processed as if it were absent: `[DONE]` does not end the stream |
| EventStream.DecodeAppend | static/js/app.js:85-107 | What `text + more` hands on is what `text` does, then what `more` completes after `text`'s buffer |
| EventStream.ReadStep | static/js/app.js:89-91 | One chunk hands on the complete pieces of buffer plus chunk, and the last piece becomes the new buffer |
| EventStream.TrailingFragmentIgnored | static/js/app.js:86-91 | A trailing fragment without a newline is never handed on |
| Server.HasContent | app.py:62 | `delta.get('content')` is truthy: present and non-empty; a definition, used by `Server.Contents` and `Server.DeltaFrames` |
| Server.TextFrame | app.py:63 | The frame `data: ` + `json.dumps({'text': content})` + two newlines; its shape is proved in `Server.TextFrameShape` and its decoding in `Wire.TextFrameDecodes` |
| Server.ErrorFrame | app.py:66 | The frame `data: ` + `json.dumps({'error': message})` + two newlines; proved to hand nothing on in `Wire.ErrorFrameDecodes` |
| Server.Contents | app.py:61-62 | The generated texts are non-empty, with at most one per delta |
| Server.DeltaFrames | app.py:61-63 | There is one frame per delta with content, and the i-th frame is the text frame of the i-th content |
| Server.DeltaFramesSnoc | app.py:61-63 | One more delta adds exactly one text frame at the end when it has content, and none otherwise |
| Server.GenerateStream | app.py:51-66 | The text frames come in delta order; after an exception exactly one more frame follows, the error frame |
| Server.TextFrameShape | app.py:63 | A text frame is `data: ` plus a JSON object that parses to exactly `{"text": content}`, then two newlines, and its JSON holds no newline |
| Server.ErrorFrameShape | app.py:66 | The error frame's JSON parses to an object with the `error` key only, and it holds no newline |
| Server.GenerateText | app.py:22-49 | A body that is not an object gives 500. An empty or missing prompt gives 400 "Prompt is required". Any other request is answered with a completion, streamed or not: the model, max_tokens and temperature default to `gpt-3.5-turbo`, 1000 and 0.7, and the reply streams exactly when `stream` is true |
| Wire.FrameLines | app.py:63 | A frame with a newline-free payload frames as its `data:` line and one empty line, leaving nothing pending |
| Wire.TextFrameDecodes | app.py:63 | The client hands on exactly the content of a text frame |
| Wire.ErrorFrameDecodes | app.py:66 | The client hands on nothing for the error frame |
| Wire.DecodeTerminatedFrames | app.py:63 | Frames that end in a newline decode one after another, independently of how they are joined |
| Wire.DeltaFramesDecode | app.py:61-63 | The frames of the deltas decode to exactly the non-empty contents, in order |
| Wire.StreamRoundTrip | app.py:51-66 | Decoding the whole stream gives exactly the contents, in order, whether or not an error ended it, and leaves nothing in the buffer |
| Assistant.Suggestion.constructor | static/js/app.js:151-152 | A new entry's paragraph is empty |
| Assistant.WritingAssistant.constructor | static/js/app.js:2-14 | The controller starts with an empty panel and no current entry |
| Assistant.WritingAssistant.CreateNewSuggestion | static/js/app.js:140-160 | A fresh, empty entry is appended to the container and becomes current |
| Assistant.WritingAssistant.AppendToSuggestions | static/js/app.js:132-138 | The first append creates exactly one entry holding the text; later appends extend that same entry and leave the container alone |
| Assistant.WritingAssistant.HandleLine | static/js/app.js:94-106 | One line appends exactly `EventStream.LineText` to the panel |
| Assistant.WritingAssistant.HandleLines | static/js/app.js:93-107 | The inner loop appends exactly `EventStream.Emissions` of the lines, in order |
| Assistant.WritingAssistant.ReceiveChunk | static/js/app.js:89-107 | One chunk appends the texts of all pieces of buffer plus chunk but the last, which is returned as the new buffer |
| Assistant.WritingAssistant.ReadStream | static/js/app.js:83-108 | The read loop appends `EventStream.Decode` of the concatenated chunks, whatever the chunk boundaries, and ends with `Lines.Pending` of it, which holds no newline, in the buffer |
| Assistant.WritingAssistant.GenerateSuggestions | static/js/app.js:52-108 | A blank editor requests nothing and changes nothing; otherwise the container is emptied and the decoded texts go to the entry that `currentSuggestion` held before (as written) |
| Assistant.WritingAssistant.GenerateSuggestionsCorrected | static/js/app.js:52-108 | With `currentSuggestion` reset as well, the panel ends with no entry, or with exactly one entry holding all of this response's text |
| Assistant.TwoRequestsAsWritten | static/js/app.js:60 | Two generations, as written: the container ends empty, and both responses sit in the detached entry of the first |
| Assistant.TwoRequestsCorrected | static/js/app.js:60 | Two generations, corrected: the container holds one entry with the second response only |
| Stats.SplitWs | static/js/app.js:45 | `split(/\s+/)` always yields at least one piece |
| Stats.WordCount | static/js/app.js:45 | The word count is 0 exactly when the trimmed text is empty |
| Stats.WsPiecesCount | static/js/app.js:45 | On text ending in a non-white-space character, `split(/\s+/)` from the start of a run has one piece per run |
| Stats.TrimmedWords | static/js/app.js:45 | The word count of non-blank text is the number of runs between its trimmed ends |
| Stats.WordCountIsRuns | static/js/app.js:45 | The word count is the number of maximal runs of non-white-space characters, and it is 0 exactly when the text is empty or all white space |
| Stats.SplitParagraphs | static/js/app.js:46 | `split(/\n\s*\n/)` always yields at least one piece |
| Stats.NonBlank | static/js/app.js:46 | `filter(p => p.trim()).length`: the count of pieces whose `trim()` is non-empty; what it satisfies is in `Stats.NonBlankZero` and `Stats.WordPiecesCount` |
| Stats.NonBlankZero | static/js/app.js:46 | The filtered count is 0 exactly when every piece trims to the empty string |
| Stats.ParagraphCount | static/js/app.js:46 | The non-blank pieces of the paragraph split; what it satisfies is in `Stats.ParagraphCountZero` and `Stats.TwoParagraphs` |
| Stats.TwoParagraphs | static/js/app.js:46 | `"a\n\nb"` counts two paragraphs: the empty line separates them |
| Stats.ParaPieces | static/js/app.js:46 | `split(/\n\s*\n/)` always yields at least one piece |
| Stats.LastNewline | static/js/app.js:46 | The index found is a newline of the range, and no later index of the range holds one; `lo - 1` means there is none |
| Stats.BreaksAtMatches | static/js/app.js:46 | The separator matches at `q` exactly when `s[q]` is a newline and another newline lies in the white-space run after it |
| Stats.BreakEnd | static/js/app.js:46 | A separator that matches spans at least two characters and ends with a newline, and no newline of the white-space run lies after its end: greedy `\s*` backtracks only to the run's last newline |
| Stats.SeparatorIsSpace | static/js/app.js:46 | A matched separator consists of white space only |
| Stats.SliceBlank | static/js/app.js:46 | A piece survives `filter(p => p.trim())` exactly when it holds a non-white-space character |
| Stats.WordPiecesCount | static/js/app.js:46 | The paragraph count equals the number of pieces with a non-white-space character, counted on positions of the text |
| Stats.ParagraphCountZero | static/js/app.js:46 | The paragraph count is 0 exactly when the text is empty or all white space |

## Left out

- The DOM, events, the loading overlay, the error modal and notifications are not modelled. The suggestions container is a sequence of entries, and an entry is its paragraph text.
- The random type and title of a new entry (`getSuggestionType`, `getSuggestionTitle`) are left out: they use `Math.random`.
- `buildPrompt` and the request body the client sends are left out. They only build a string for the service.
- The network is left out. This covers `fetch`, `response.ok` and a transport failure: the catch at `app.js:110-115` just shows an error.
- The chat-completion service is not modelled. It is the `Server.Completion` input: its deltas, and an optional exception message.
- `TextDecoder` is left out: the model receives chunks already decoded to characters. A multi-byte character split across two network chunks is therefore not modelled.
- `console.error` logging is left out. An unparsable payload is modelled as contributing nothing, as the catch at `app.js:103-105` does.
- `JSON.parse`: the client model takes the parser as a parameter. The end-to-end lemmas use `Json.Parse`, which reads objects whose members are all strings. Any other JSON (numbers, nested values, `null`, lone surrogate escapes) counts as a parse failure. The server never sends such payloads.
- A non-string `text` member (for example a number, which JavaScript would append as its decimal form) is not modelled, for the same reason.
- `Server.GenerateText`: `None` and an absent field are the same, but in Python `data.get` returns an explicit `null` rather than the default. Truthiness of a non-string prompt is also not modelled.
- `Server.GenerateText`: `temperature` is a Dafny `real`, not a floating-point number.
- `Server.GenerateText`: `stream` is a boolean. Python tests it for truthiness (`app.py:33`), so a non-boolean value such as `1` or `"yes"` would also select streaming. That case is not modelled.
- The non-streaming reply's content (`response.choices[0].message.content.strip()`) is not modelled; it is reduced to the `Completed` case.
- `Server.GenerateText`: `Completed` says that a completion call is made, not that it succeeds. When `openai.ChatCompletion.create` raises, the handler answers 500 with `{'error': str(e)}` (`app.py:37-49`); the service is not modelled, so neither is that failure.
- Saving, loading and clearing through `localStorage` are not part of this model (`app.js:178-230`). The same goes for the `index` route and the app's start-up.
- `Assistant.WritingAssistant.ReadStream`: its ensures says the buffer is `Lines.Pending` of the received text and holds no newline. That it is a suffix of that text, right after its last newline, is proved about `Lines.Pending` in `Lines.PendingIsTail`, not restated in the method.
- Concurrency is not modelled: two generate requests whose asynchronous reads interleave on the same entry. Each request's read loop runs to its end before the next one starts.
- The spelling of the displayed counts (`${words} 字`) is not modelled: only the numbers are.

## Findings

| source | as written | input that shows it | evidently intended | confidence | as-written member | corrected member |
|---|---|---|---|---|---|---|
| static/js/app.js:60 | The generate button empties the suggestions container but leaves `currentSuggestion` pointing at the entry of the previous request (`app.js:133`, `159`). The new response is appended to that detached entry, and the panel stays empty | Two clicks on the generate button with a non-blank editor, each answered with a stream carrying a `data: {"text": "a"}` record. After the second the panel has no entry | Each generation starts a new entry: reset `currentSuggestion` together with the container, so the panel shows exactly this response's text | not executed | Assistant.TwoRequestsAsWritten | Assistant.TwoRequestsCorrected |
