# Ether chat protocol — a Dafny model

Ether is a Next.js chat front end for a Gemini model. This project models its
chat turn protocol:

- **The chat client** (`src/components/chat/chat-layout.tsx`), module
  `ChatLayout`. The component's state becomes the fields of the class
  `ChatSession`: the transcript, the input, the attached file, the loading
  flag and the abort controller. Its handlers are methods on that class:
  attach a file, submit, send, stop, and clear. Each transcript updater is a
  pure function that the methods apply in place. The stream reader's loops
  are `while`/`for` loops proved against a fold of decoded events over the
  transcript (`ApplyEvents`).
- **The chat endpoint** (`src/app/api/chat/route.ts`), module `ChatRoute`.
  It converts the history and the new parts, uploading every inline image.
  It then opens the model's streaming reply and relays it as `data: <json>`
  frames. Any failure before the stream opens becomes a 500 with a JSON
  error body.
- **The wire between them**, module `Protocol`. What the client makes of the
  frames the endpoint writes: the whole stream in one chunk, one frame per
  chunk, a frame cut in two, and whole exchanges end to end.
- **The JSON text of events**, module `Json`. This is what `JSON.stringify`
  writes and `JSON.parse` reads back, for the values the protocol uses. It
  includes the round trip `Decode(Encode(p)) == Some(p)` and the fact that an
  encoded event never contains a line break. The framing depends on both.
- **The citations panel** (`src/components/chat/citations.tsx`), module
  `Citations`: the copied text, the badges and the toggle label.
- **The password gate** (`src/app/api/verify-password/route.ts`), module
  `VerifyPassword`.
- Shared records (`src/lib/types.ts`) are in module `Types`. The JavaScript
  string operations the code relies on (`split`, `join`, `replace`,
  `indexOf`, `trim`, `String(n)`) are in module `Strings`, and `Option` and
  `Result` are in module `Wrappers`.

The model's parameters stand for what it cannot see:

- A send's network outcome is a `Reply`. A streamed body is the sequence of
  read outcomes, where each outcome is a chunk, the stop button or a read
  error.
- The file manager is an `Uploader`, a function from upload request to
  result.
- The model is a `Gateway`, a function from converted history and parts to a
  refusal or a streamed reply.
- Message ids, which are uuids in the source, are fresh naturals taken from a
  counter.

## Model

| member | source | states |
|---|---|---|
| ChatLayout.CheckFile | src/components/chat/chat-layout.tsx:35-53 | a file is accepted iff it is at most 8 MB and one of the four image types; it is too large iff it is over 8 MB (the size is checked first) |
| ChatLayout.FileAfterChange | src/components/chat/chat-layout.tsx:35-55 | clearing the file always takes effect; a picked file replaces the current one only when it passes both checks |
| ChatLayout.PayloadOfDataUrl | src/components/chat/chat-layout.tsx:93 | for `header,payload` with no other comma, the payload taken from the data URL is exactly the base64 part |
| ChatLayout.NewParts | src/components/chat/chat-layout.tsx:79-94 | no parts iff the input is all whitespace and no file is attached; otherwise the untrimmed input as a text part (unless blank), then the image part |
| ChatLayout.SetTextAt | src/components/chat/chat-layout.tsx:170-176 | the text updater changes exactly the messages with the model id, giving them a single text part; the others stay, and the length is kept |
| ChatLayout.SetCitationsAt | src/components/chat/chat-layout.tsx:179-185 | the citations updater sets the citations of exactly the messages with the model id; the others stay |
| ChatLayout.RemoveKeeps | src/components/chat/chat-layout.tsx:201 | the filter keeps a message iff it was there and its id is not the model id |
| ChatLayout.DataLinesKeep | src/components/chat/chat-layout.tsx:162 | a segment of the chunk is kept iff it starts with "data:" |
| ChatLayout.DataLinesAppend | src/components/chat/chat-layout.tsx:162 | the filter works segment by segment: the kept segments stay in order, and repeated segments are all kept |
| ChatLayout.DataLinesOne | src/components/chat/chat-layout.tsx:162 | one segment is kept, alone, iff it starts with "data:" |
| ChatLayout.DecodeLinesAppend | src/components/chat/chat-layout.tsx:164-193 | the events of two runs of lines are the events of each, in order |
| ChatLayout.ApplyEventAt | src/components/chat/chat-layout.tsx:168-189 | one frame: a non-empty text extends the accumulated text and becomes the model message's only part; citations overwrite its citations; no other message changes |
| ChatLayout.ApplyEventsSpec | src/components/chat/chat-layout.tsx:164-193 | after any frames, the model message holds the concatenation of every non-empty text and the citations of the last citations frame; other messages, the order and the length are untouched |
| ChatLayout.InertEvent | src/components/chat/chat-layout.tsx:187-192 | a frame with neither text nor citations, such as an error frame, changes nothing, since the error is thrown and caught inside the loop |
| ChatLayout.SendKeepsModelMessage | src/components/chat/chat-layout.tsx:111-212 | a send that completes or is aborted appends exactly the user message and the model message with all text read and the last citations; an abort keeps partial text |
| ChatLayout.SendFailureDropsModelMessage | src/components/chat/chat-layout.tsx:199-207 | a send that fails other than by an abort leaves the earlier messages plus the user message, and nothing of the model message |
| ChatLayout.SendOutcomeIds | src/components/chat/chat-layout.tsx:112-130 | a send keeps message ids distinct and only adds the two ids it reserved |
| ChatLayout.ChatSession.constructor | src/components/chat/chat-layout.tsx:17-22 | the component starts with no messages, empty input, no file, not loading and no controller |
| ChatLayout.ChatSession.SetInput | src/components/chat/chat-layout.tsx:18 | the input becomes the typed text |
| ChatLayout.ChatSession.HandleFileChange | src/components/chat/chat-layout.tsx:35-55 | reports the check's verdict; the file state becomes `FileAfterChange` of the old one |
| ChatLayout.ChatSession.Stop | src/components/chat/chat-layout.tsx:57-62 | with a live controller: aborts it and ends loading; without one: changes nothing |
| ChatLayout.ChatSession.ClearChat | src/components/chat/chat-layout.tsx:64-75 | empties the transcript, the file and the input, keeping ids valid |
| ChatLayout.ChatSession.ApplyFrame | src/components/chat/chat-layout.tsx:168-189 | the transcript and accumulated text after one frame are exactly `ApplyEvent` of the old ones |
| ChatLayout.ChatSession.ProcessLine | src/components/chat/chat-layout.tsx:165-192 | a data line that parses applies its frame; one that does not is skipped |
| ChatLayout.ChatSession.ProcessLines | src/components/chat/chat-layout.tsx:164-193 | the loop over a chunk's data lines leaves the fold of their decoded events, in order |
| ChatLayout.ChatSession.ProcessChunk | src/components/chat/chat-layout.tsx:161-193 | one chunk is split on blank lines, filtered to data lines, and folded in, on its own with no carry-over |
| ChatLayout.ChatSession.ProcessStream | src/components/chat/chat-layout.tsx:154-195 | reads until done, stop or error: the transcript is the fold of all chunks read; the ending says which; stop aborts the controller and ends loading |
| ChatLayout.ChatSession.SendMessage | src/components/chat/chat-layout.tsx:111-212 | posts the old transcript; the new transcript is `SendOutcome`; ids stay distinct; input and file are cleared; loading ends and the controller is released |
| ChatLayout.ChatSession.Submit | src/components/chat/chat-layout.tsx:77-109 | sends iff there is non-blank input or a file and the file can be read; a blank submit changes nothing; a read error only ends loading |
| ChatRoute.ExtensionSpec | src/app/api/chat/route.ts:14 | the upload's extension exists iff the MIME type has a slash, and it never contains a slash |
| ChatRoute.ExtensionOfType | src/app/api/chat/route.ts:14 | for `type/subtype` the extension is the subtype |
| ChatRoute.ConvertParts | src/app/api/chat/route.ts:37-49 | succeeds iff every part converts; then part i becomes result i; on failure the error is that of a part all of whose predecessors converted |
| ChatRoute.UploadsInOrder | src/app/api/chat/route.ts:37-49 | uploads are a prefix of the image parts in order; all of them on success; on failure the last upload made is the one that failed |
| ChatRoute.PrefixFailureStops | src/app/api/chat/route.ts:37-49 | once a prefix fails, the rest of the parts is neither converted nor uploaded |
| ChatRoute.ConvertToGoogleParts | src/app/api/chat/route.ts:37-49 | the loop returns `ConvertParts` and makes exactly the uploads `UploadCalls` lists |
| ChatRoute.ConvertHistory | src/app/api/chat/route.ts:56-59 | every message is converted keeping its role, in order; the history fails iff some message's parts fail, with that error |
| ChatRoute.HistoryPrefixFailure | src/app/api/chat/route.ts:56-59 | a failing prefix of the history decides the result |
| ChatRoute.FramesAppend | src/app/api/chat/route.ts:67-90 | the frames of two runs of events are the frames of each, in order |
| ChatRoute.EmittedShape | src/app/api/chat/route.ts:67-90 | the stream carries non-empty text frames, then one citations frame, last, exactly when the reply finished with citations; never an error frame |
| ChatRoute.StreamFrames | src/app/api/chat/route.ts:67-90 | the frames enqueued are those of `EmittedEvents`; the stream is closed iff the upstream finished |
| ChatRoute.ErrorBody | src/app/api/chat/route.ts:101 | the 500 body parses as an error event carrying the message, or "An error occurred." when it is empty |
| ChatRoute.Respond | src/app/api/chat/route.ts:51-106 | an event stream iff the body is readable, history and parts convert and the model streams; otherwise a 500 whose body's `error` is the message of the step that failed (unreadable body, history conversion, parts conversion or refused model call), or "An error occurred." when that message is empty |
| ChatRoute.Post | src/app/api/chat/route.ts:51-106 | the handler's response is `Respond` |
| Json.StringRoundTrip | src/app/api/chat/route.ts:73 | a string literal as written is read back as the same string, with what follows untouched |
| Json.NatRoundTrip | src/app/api/chat/route.ts:85 | a citation offset as written is read back as the same number |
| Json.ValueRoundTrip | src/app/api/chat/route.ts:73 | every value written is parsed back as itself, leaving what follows a value |
| Json.EventFieldsBack | src/components/chat/chat-layout.tsx:167 | the fields written for an event read back as that event |
| Json.DecodeEncode | src/components/chat/chat-layout.tsx:167 | parsing an encoded event gives the event back |
| Json.EncodeNoNewline | src/app/api/chat/route.ts:73 | an encoded event contains no line break, so it cannot contain the frame separator |
| Json.EncodeShape | src/app/api/chat/route.ts:73 | an encoded event is an object: an opening brace, then a key or the closing brace |
| Json.OpenBraceFails | src/components/chat/chat-layout.tsx:190-192 | an opening brace alone does not parse |
| Protocol.SplitFrames | src/components/chat/chat-layout.tsx:162 | the frames concatenated and split on blank lines give one line per event, then an empty tail |
| Protocol.DecodeWireLines | src/components/chat/chat-layout.tsx:164-167 | the lines of the frames decode to exactly the events |
| Protocol.WholeStreamRoundTrip | src/components/chat/chat-layout.tsx:161-167 | all frames arriving as one chunk decode to exactly the emitted events, in order |
| Protocol.FramePerChunkRoundTrip | src/components/chat/chat-layout.tsx:158-193 | one frame per chunk also decodes to exactly the emitted events |
| Protocol.SplitFrameIsLost | src/components/chat/chat-layout.tsx:158-193 | a frame cut after its opening brace yields no event, since no buffer is kept between chunks |
| Protocol.EmittedMeaning | src/app/api/chat/route.ts:67-90 | the client reads from the emitted events all upstream text and the citations of a finished reply |
| Protocol.ClientReplyOfStream | src/app/api/chat/route.ts:88 | the client reads every frame; the read ends normally iff the stream was closed |
| Protocol.StreamedExchange | src/app/api/chat/route.ts:67-90 | when each frame reaches the client as a chunk of its own and a stream that errors reaches it as a failed read (`ClientReply`): a finished reply leaves the user message and a model message with all upstream text and its citations; a broken one leaves only the user message |
| Protocol.RejectedExchange | src/app/api/chat/route.ts:99-105 | an error response leaves only the user message |
| Citations.BadgeNumbering | src/components/chat/citations.tsx:55 | badges start at 1 and go up by one per citation, in list order |
| Citations.CopyText | src/components/chat/citations.tsx:24 | the copied text is empty iff there are no citations |
| Citations.EntryIsParagraph | src/components/chat/citations.tsx:24 | an entry holds no blank line and does not end with a line break when title and uri are single-line |
| Citations.CopyTextSplits | src/components/chat/citations.tsx:24 | for a non-empty list whose titles and uris have no line break and whose uris are non-empty: the copied text splits on blank lines into exactly the entries, in order, entry i reading `[` + the badge of citation i + `] title`, a line break, then the uri, so the copied numbers agree with the badges |
| Citations.ToggleLabelSpec | src/components/chat/citations.tsx:41 | the label starts with Hide or Show by state, then the count in decimal, which reads back as the count, then " Sources" |
| VerifyPassword.IsPasswordProtected | src/app/api/verify-password/route.ts:25-28 | protected iff a non-empty password is configured |
| VerifyPassword.Verify | src/app/api/verify-password/route.ts:5-23 | success iff the body parses and the app is open or the password matches; 200 iff success, 401 for a wrong password, 500 iff the body does not parse, which is the only reply with an error |
| Strings.IndexOfFirst | src/components/chat/chat-layout.tsx:165 | the position found is the first occurrence, and none means no occurrence |
| Strings.SplitJoin | src/components/chat/chat-layout.tsx:162 | splitting loses nothing: joining the pieces with the separator gives the string back |
| Strings.SplitLeftmost | src/components/chat/chat-layout.tsx:162 | splitting cuts at the leftmost occurrence: one piece iff the separator does not occur; otherwise the first piece ends at the first occurrence and the rest is split the same way |
| Strings.SplitPiecesFree | src/components/chat/chat-layout.tsx:162 | no piece of a split contains the separator |
| Strings.ReplacePrefix | src/components/chat/chat-layout.tsx:165 | removing the first "data: " from `"data: " + body` gives `body` |
| Strings.TrimEmptyIffBlank | src/components/chat/chat-layout.tsx:79 | the trimmed input is empty iff every character is whitespace |
| Strings.NatToStringValue | src/components/chat/citations.tsx:24 | the decimal rendering of a number reads back as that number |

## Left out

- Side effects are not modelled: toasts, console logging, the clipboard write, `localStorage` and the session id, creation timestamps, response headers, and the temp file's name and its deletion.
- Only the values the protocol uses are modelled in JSON: strings, non-negative integers, arrays and objects, written without whitespace. The parser accepts that subset. Whitespace, `true`/`false`/`null`, negative or fractional numbers, and surrogate pairs in `\u` escapes are outside it.
- Json.AsEvent reads only objects whose keys are `text`, `citations` and `error`, with citation fields in the order the endpoint writes them. `JSON.parse` would also accept unknown keys and any order.
- Bytes and `TextDecoder` are not modelled: chunks are the already-decoded strings that `reader.read()` yields, so a multi-byte character split across chunks is not represented.
- The history conversion in `Promise.all` runs concurrently in the source. Here it runs message by message, so when uploads fail in several messages, the model reports the error of the first failing message and does not make the uploads of later messages.
- An empty `candidates` array makes the stream's `start` throw after the text frames. Like any broken upstream, it is modelled as `Broken`: the stream errors without being closed.
- An `undefined` extension, from a MIME type without a slash, is `None`. A data URL without a comma gives an empty payload.
- Protocol.ClientReply assumes each frame the endpoint enqueues reaches the client as a chunk of its own. It also assumes a stream that errors reaches the client as a failed read. A transport may merge frames or cut them: `WholeStreamRoundTrip` covers all frames in one chunk, and `SplitFrameIsLost` covers a frame cut in two.
- Overlapping sends, such as a second Enter while a reply is streaming, are not modelled: `Submit` runs one send to completion.
- ChatLayout.ChatSession.ClearChat: the new session id and the toast are not modelled.
- The rendering of the message list and of the citation cards, apart from the badge numbers and the copied text, is not modelled.
