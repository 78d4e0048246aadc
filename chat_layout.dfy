/**
 * The chat client's send/receive state machine
 * (src/components/chat/chat-layout.tsx).
 *
 * The React state hooks become the fields of `ChatSession`; each
 * `setMessages(prev => ...)` updater becomes a pure function on the
 * transcript that the methods apply in place. The byte stream is seen as
 * the sequence of already-decoded chunks that `reader.read()` delivers,
 * interleaved with the two other things that can end a read: the user
 * pressing stop, and a read that fails.
 */
module ChatLayout {
  import opened Wrappers
  import opened Strings
  import opened Types
  import Json

  // ---------------------------------------------------------------------
  // Attachments

  /** 8 MB. */
  const MaxFileSize: nat := 8 * 1024 * 1024
  const AllowedFileTypes: seq<string> := ["image/jpeg", "image/png", "image/webp", "image/gif"]

  /** A picked file: size in bytes, MIME type, and the data URL `readAsDataURL` yields for it. */
  datatype SelectedFile = SelectedFile(size: nat, mimeType: string, dataUrl: string)

  datatype FileVerdict = Accepted | TooLarge | UnsupportedType

  /** The two guards of `handleFileChange`, size first. */
  function CheckFile(f: SelectedFile): (v: FileVerdict)
    ensures v == Accepted <==> f.size <= MaxFileSize && f.mimeType in AllowedFileTypes
    ensures v == TooLarge <==> f.size > MaxFileSize
  {
    if f.size > MaxFileSize then TooLarge
    else if f.mimeType !in AllowedFileTypes then UnsupportedType
    else Accepted
  }

  /** What `handleFileChange` leaves in the `file` state: no file is always taken, a file only when it passes. */
  function FileAfterChange(current: Option<SelectedFile>, selected: Option<SelectedFile>): (r: Option<SelectedFile>)
    ensures selected.None? ==> r.None?
    ensures selected.Some? ==>
      r == (if selected.value.size <= MaxFileSize && selected.value.mimeType in AllowedFileTypes
            then selected else current)
  {
    match selected
    case None => None
    case Some(f) => if CheckFile(f) == Accepted then selected else current
  }

  // ---------------------------------------------------------------------
  // Building the parts of a new user message

  /**
   * The second piece of a data URL cut at its commas: the base64 payload. A
   * URL without a comma (never produced by `readAsDataURL`) gives "".
   */
  function DataUrlPayload(dataUrl: string): string {
    var pieces := Split(dataUrl, ",");
    if |pieces| > 1 then pieces[1] else ""
  }

  /** For `data:<type>;base64,<payload>` the payload is what follows the comma. */
  lemma PayloadOfDataUrl(header: string, payload: string)
    requires ',' !in header && ',' !in payload
    ensures DataUrlPayload(header + "," + payload) == payload
  {
    SplitHead(header, ",", payload);
    SplitWhole(payload, ",");
  }

  /**
   * The parts `handleSubmit` collects: the untrimmed input as a text part
   * unless it is all whitespace, then the image part when a file is attached.
   */
  function NewParts(input: string, file: Option<SelectedFile>): (parts: seq<MessagePart>)
    ensures parts == [] <==> Blank(input) && file.None?
    ensures |parts| == (if Blank(input) then 0 else 1) + (if file.Some? then 1 else 0)
    ensures !Blank(input) ==> parts[0] == TextPart(input)
    ensures file.Some? ==>
      parts[|parts| - 1] == ImagePart(file.value.mimeType, DataUrlPayload(file.value.dataUrl))
  {
    TrimEmptyIffBlank(input);
    (if Trim(input) != "" then [TextPart(input)] else []) +
    (match file
     case Some(f) => [ImagePart(f.mimeType, DataUrlPayload(f.dataUrl))]
     case None => [])
  }

  // ---------------------------------------------------------------------
  // Transcript updaters

  function UserMessage(id: nat, parts: seq<MessagePart>): ChatMessage {
    ChatMessage(id, User, parts, None)
  }

  /** The model message a send starts from: one empty text part. */
  function Placeholder(id: nat): ChatMessage {
    ChatMessage(id, Model, [TextPart("")], None)
  }

  /** The updater that gives the messages with id `id` a single text part holding `text`. */
  function SetText(ms: seq<ChatMessage>, id: nat, text: string): (r: seq<ChatMessage>)
    ensures |r| == |ms|
  {
    if ms == [] then []
    else [if ms[0].id == id then ms[0].(parts := [TextPart(text)]) else ms[0]] + SetText(ms[1..], id, text)
  }

  /** Exactly the messages with id `id` get the new text; the others are kept as they were. */
  lemma {:induction false} SetTextAt(ms: seq<ChatMessage>, id: nat, text: string)
    ensures forall i :: 0 <= i < |ms| ==>
      SetText(ms, id, text)[i] == if ms[i].id == id then ms[i].(parts := [TextPart(text)]) else ms[i]
  {
    if ms != [] {
      SetTextAt(ms[1..], id, text);
    }
  }

  /** The updater that sets the citations of the messages with id `id`. */
  function SetCitations(ms: seq<ChatMessage>, id: nat, cs: seq<Citation>): (r: seq<ChatMessage>)
    ensures |r| == |ms|
  {
    if ms == [] then []
    else [if ms[0].id == id then ms[0].(citations := Some(cs)) else ms[0]] + SetCitations(ms[1..], id, cs)
  }

  /** Exactly the messages with id `id` get the new citations; the others are kept as they were. */
  lemma {:induction false} SetCitationsAt(ms: seq<ChatMessage>, id: nat, cs: seq<Citation>)
    ensures forall i :: 0 <= i < |ms| ==>
      SetCitations(ms, id, cs)[i] == if ms[i].id == id then ms[i].(citations := Some(cs)) else ms[i]
  {
    if ms != [] {
      SetCitationsAt(ms[1..], id, cs);
    }
  }

  /** The updater that filters out the messages with id `id`. */
  function RemoveMessage(ms: seq<ChatMessage>, id: nat): seq<ChatMessage>
  {
    if ms == [] then []
    else (if ms[0].id == id then [] else [ms[0]]) + RemoveMessage(ms[1..], id)
  }

  /** Exactly the messages with another id are kept. */
  lemma {:induction false} RemoveKeeps(ms: seq<ChatMessage>, id: nat)
    ensures forall m :: m in RemoveMessage(ms, id) <==> m in ms && m.id != id
  {
    if ms != [] {
      RemoveKeeps(ms[1..], id);
      assert ms == [ms[0]] + ms[1..];
    }
  }

  lemma {:induction false} RemoveAppend(a: seq<ChatMessage>, b: seq<ChatMessage>, id: nat)
    ensures RemoveMessage(a + b, id) == RemoveMessage(a, id) + RemoveMessage(b, id)
  {
    if a == [] {
      assert a + b == b;
    } else {
      assert (a + b)[1..] == a[1..] + b;
      RemoveAppend(a[1..], b, id);
    }
  }

  lemma {:induction false} RemoveAbsent(ms: seq<ChatMessage>, id: nat)
    requires forall i :: 0 <= i < |ms| ==> ms[i].id != id
    ensures RemoveMessage(ms, id) == ms
  {
    if ms != [] {
      RemoveAbsent(ms[1..], id);
    }
  }

  // ---------------------------------------------------------------------
  // Decoding one chunk

  /** The segments `chunk.split('\n\n')` keeps: those that start with "data:". */
  function DataLines(segments: seq<string>): (lines: seq<string>)
  {
    if segments == [] then []
    else (if StartsWith(segments[0], "data:") then [segments[0]] else []) + DataLines(segments[1..])
  }

  /** A segment is kept exactly when it starts with "data:"; nothing else is added. */
  lemma {:induction false} DataLinesKeep(segments: seq<string>)
    ensures forall line :: line in DataLines(segments) <==> line in segments && StartsWith(line, "data:")
  {
    if segments != [] {
      DataLinesKeep(segments[1..]);
      assert segments == [segments[0]] + segments[1..];
    }
  }

  /** The filter keeps the order and the repetitions of the segments: it works segment by segment. */
  lemma {:induction false} DataLinesAppend(a: seq<string>, b: seq<string>)
    ensures DataLines(a + b) == DataLines(a) + DataLines(b)
    decreases |a|
  {
    if a == [] {
      assert a + b == b;
    } else {
      var keep := if StartsWith(a[0], "data:") then [a[0]] else [];
      assert (a + b)[1..] == a[1..] + b;
      assert (a + b)[0] == a[0];
      DataLinesAppend(a[1..], b);
      assert DataLines(a + b) == keep + DataLines(a[1..] + b);
      assert DataLines(a) == keep + DataLines(a[1..]);
    }
  }

  /** One segment is kept exactly when it starts with "data:". */
  lemma DataLinesOne(segment: string)
    ensures DataLines([segment]) == if StartsWith(segment, "data:") then [segment] else []
  {
    assert [segment][1..] == [];
  }

  function EventLines(chunk: string): seq<string> {
    DataLines(Split(chunk, "\n\n"))
  }

  /** A data line read as an event: the first "data: " removed, the rest parsed as JSON; `None` where parsing throws. */
  function DecodeLine(line: string): Option<StreamPart> {
    Json.Decode(ReplaceFirst(line, "data: ", ""))
  }

  /**
   * The event one line yields: its payload if it parses, and otherwise
   * none, as when `JSON.parse` throws. `DecodeLines([])` is `[]`; naming it
   * puts the two functions in one recursion so that proofs about many lines
   * do not unfold the JSON parser for each.
   */
  function LineEvents(line: string): (r: seq<StreamPart>)
    ensures |r| <= 1
    decreases 1, 0
  {
    match DecodeLine(line)
    case Some(p) => [p]
    case None => DecodeLines([])
  }

  /** The events of the lines that decode, in order; the others are skipped. */
  function DecodeLines(lines: seq<string>): seq<StreamPart>
    decreases |lines|, 1
  {
    if lines == [] then []
    else DecodeLines(lines[..|lines| - 1]) + LineEvents(lines[|lines| - 1])
  }

  lemma DecodeLinesSnoc(lines: seq<string>, line: string)
    ensures DecodeLines(lines + [line]) == DecodeLines(lines) + LineEvents(line)
  {
    assert (lines + [line])[..|lines|] == lines;
  }

  lemma {:induction false} DecodeLinesAppend(a: seq<string>, b: seq<string>)
    ensures DecodeLines(a + b) == DecodeLines(a) + DecodeLines(b)
    decreases |b|
  {
    if b == [] {
      assert a + b == a;
    } else {
      var init := b[..|b| - 1];
      var last := b[|b| - 1];
      assert b == init + [last];
      assert a + b == (a + init) + [last];
      DecodeLinesAppend(a, init);
      DecodeLinesSnoc(a + init, last);
      DecodeLinesSnoc(init, last);
    }
  }

  /** A line that decodes to one event adds exactly that event. */
  lemma DecodeLinesSnocOne(lines: seq<string>, line: string, p: StreamPart)
    requires LineEvents(line) == [p]
    ensures DecodeLines(lines + [line]) == DecodeLines(lines) + [p]
  {
    DecodeLinesSnoc(lines, line);
  }

  /** The events one chunk yields, judged on that chunk alone: nothing is carried over to the next. */
  function ChunkEvents(chunk: string): seq<StreamPart> {
    DecodeLines(EventLines(chunk))
  }

  /** The events of a sequence of chunks: each chunk decoded on its own, in order. */
  function StreamEvents(chunks: seq<string>): seq<StreamPart>
    decreases |chunks|
  {
    if chunks == [] then []
    else StreamEvents(chunks[..|chunks| - 1]) + ChunkEvents(chunks[|chunks| - 1])
  }

  lemma StreamEventsSnoc(chunks: seq<string>, c: string)
    ensures StreamEvents(chunks + [c]) == StreamEvents(chunks) + ChunkEvents(c)
  {
    assert (chunks + [c])[..|chunks|] == chunks;
  }

  // ---------------------------------------------------------------------
  // Folding events into the transcript

  /** The transcript together with the `fullText` accumulator of `processStream`. */
  datatype Progress = Progress(messages: seq<ChatMessage>, fullText: string)

  /**
   * One decoded frame, applied as the source does: a non-empty `text`
   * extends the accumulator and replaces the model message's parts, then a
   * `citations` field overwrites its citations. An `error` field is thrown
   * and caught by the `catch` right around it, so it changes nothing.
   */
  function ApplyEvent(pr: Progress, id: nat, p: StreamPart): Progress {
    var afterText :=
      if CarriesText(p) then
        var t := pr.fullText + p.text.value;
        Progress(SetText(pr.messages, id, t), t)
      else pr;
    if CarriesCitations(p) then afterText.(messages := SetCitations(afterText.messages, id, p.citations.value))
    else afterText
  }

  function ApplyEvents(pr: Progress, id: nat, ps: seq<StreamPart>): Progress
    decreases |ps|
  {
    if ps == [] then pr else ApplyEvent(ApplyEvents(pr, id, ps[..|ps| - 1]), id, ps[|ps| - 1])
  }

  lemma ApplyEventsSnoc(pr: Progress, id: nat, ps: seq<StreamPart>, p: StreamPart)
    ensures ApplyEvents(pr, id, ps + [p]) == ApplyEvent(ApplyEvents(pr, id, ps), id, p)
  {
    assert (ps + [p])[..|ps|] == ps;
  }

  lemma ApplyEventsOne(pr: Progress, id: nat, p: StreamPart)
    ensures ApplyEvents(pr, id, [p]) == ApplyEvent(pr, id, p)
  {
    assert [p][..0] == [];
  }

  lemma {:induction false} ApplyEventsAppend(pr: Progress, id: nat, a: seq<StreamPart>, b: seq<StreamPart>)
    ensures ApplyEvents(pr, id, a + b) == ApplyEvents(ApplyEvents(pr, id, a), id, b)
    decreases |b|
  {
    if b == [] {
      assert a + b == a;
    } else {
      var init := b[..|b| - 1];
      var p := b[|b| - 1];
      assert a + b == (a + init) + [p];
      ApplyEventsAppend(pr, id, a, init);
      ApplyEventsSnoc(pr, id, a + init, p);
      assert init + [p] == b;
      ApplyEventsSnoc(ApplyEvents(pr, id, a), id, init, p);
    }
  }

  /** Reference meaning of the text: every non-empty `text` field, concatenated in arrival order. */
  function TextOf(ps: seq<StreamPart>): string
    decreases |ps|
  {
    if ps == [] then ""
    else
      var last := ps[|ps| - 1];
      TextOf(ps[..|ps| - 1]) + (if CarriesText(last) then last.text.value else "")
  }

  /** Reference meaning of the citations: the last `citations` field seen, or `initial` if none. */
  function LastCitations(initial: Option<seq<Citation>>, ps: seq<StreamPart>): Option<seq<Citation>>
    decreases |ps|
  {
    if ps == [] then initial
    else if CarriesCitations(ps[|ps| - 1]) then ps[|ps| - 1].citations
    else LastCitations(initial, ps[..|ps| - 1])
  }

  /** Every message with id `id` shows exactly the accumulated text. */
  ghost predicate ShowsAccumulated(pr: Progress, id: nat) {
    forall i :: 0 <= i < |pr.messages| && pr.messages[i].id == id ==> pr.messages[i].parts == [TextPart(pr.fullText)]
  }

  /**
   * Folding frames into the transcript: the model message ends with exactly
   * one text part holding the concatenation of all non-empty texts, its
   * citations are those of the last citations frame, and every other
   * message, the order and the length are untouched.
   */
  lemma {:induction false} ApplyEventsSpec(pr: Progress, id: nat, ps: seq<StreamPart>)
    requires ShowsAccumulated(pr, id)
    ensures ApplyEvents(pr, id, ps).fullText == pr.fullText + TextOf(ps)
    ensures |ApplyEvents(pr, id, ps).messages| == |pr.messages|
    ensures forall i :: 0 <= i < |pr.messages| ==>
      ApplyEvents(pr, id, ps).messages[i] ==
        if pr.messages[i].id == id
        then pr.messages[i].(parts := [TextPart(pr.fullText + TextOf(ps))],
                             citations := LastCitations(pr.messages[i].citations, ps))
        else pr.messages[i]
    decreases |ps|
  {
    if ps != [] {
      var init := ps[..|ps| - 1];
      ApplyEventsSpec(pr, id, init);
      ApplyEventAt(ApplyEvents(pr, id, init), id, ps[|ps| - 1]);
    }
  }

  /** One event: the text accumulates, and only messages with id `id` change. */
  lemma ApplyEventAt(pr: Progress, id: nat, p: StreamPart)
    ensures ApplyEvent(pr, id, p).fullText == pr.fullText + (if CarriesText(p) then p.text.value else "")
    ensures |ApplyEvent(pr, id, p).messages| == |pr.messages|
    ensures forall i :: 0 <= i < |pr.messages| ==>
      ApplyEvent(pr, id, p).messages[i] ==
        if pr.messages[i].id != id then pr.messages[i]
        else pr.messages[i].(
          parts := if CarriesText(p) then [TextPart(pr.fullText + p.text.value)] else pr.messages[i].parts,
          citations := if CarriesCitations(p) then p.citations else pr.messages[i].citations)
  {
    var t := pr.fullText + (if CarriesText(p) then p.text.value else "");
    var ms := if CarriesText(p) then SetText(pr.messages, id, t) else pr.messages;
    SetTextAt(pr.messages, id, t);
    if CarriesCitations(p) {
      SetCitationsAt(ms, id, p.citations.value);
    }
  }

  /** A frame with neither a non-empty text nor citations (an error frame, say) changes nothing. */
  lemma InertEvent(pr: Progress, id: nat, p: StreamPart)
    requires !CarriesText(p) && !CarriesCitations(p)
    ensures ApplyEvent(pr, id, p) == pr
  {
  }

  // ---------------------------------------------------------------------
  // What a send sees, and what it leaves behind

  /** What ends a pending read other than data: the stop button (an `AbortError`), or a failure. */
  datatype ReadEvent = Chunk(text: string) | StopPressed | ReadError(message: string)

  /** How the `fetch` of a send turns out. */
  datatype Reply =
    | StoppedBeforeResponse       // stop pressed while `fetch` was pending: it rejects with `AbortError`
    | FetchError(message: string) // `fetch` rejected for another reason
    | ErrorStatus                 // `!res.ok || !res.body`: the error body is read and thrown
    | Body(outcomes: seq<ReadEvent>) // the successive outcomes of `reader.read()`; the sequence ending means `done`

  datatype Ending = Completed | Aborted | Failed

  /** The chunks read before the first read that did not deliver data. */
  function ReadChunks(outcomes: seq<ReadEvent>): seq<string>
    decreases |outcomes|
  {
    if outcomes == [] || !outcomes[0].Chunk? then [] else [outcomes[0].text] + ReadChunks(outcomes[1..])
  }

  function ReadEnding(outcomes: seq<ReadEvent>): Ending
    decreases |outcomes|
  {
    if outcomes == [] then Completed
    else match outcomes[0]
      case Chunk(_) => ReadEnding(outcomes[1..])
      case StopPressed => Aborted
      case ReadError(_) => Failed
  }

  /** One more chunk read: it joins the chunks seen, and the ending is still to come. */
  lemma ReadStep(outcomes: seq<ReadEvent>, i: nat, seen: seq<string>)
    requires i < |outcomes| && outcomes[i].Chunk?
    ensures seen + ReadChunks(outcomes[i..]) == (seen + [outcomes[i].text]) + ReadChunks(outcomes[i + 1..])
    ensures ReadEnding(outcomes[i..]) == ReadEnding(outcomes[i + 1..])
  {
    assert outcomes[i..][1..] == outcomes[i + 1..];
  }

  /** Folding one more chunk folds its events onto what the earlier chunks left. */
  lemma FoldChunk(pr: Progress, id: nat, seen: seq<string>, chunk: string)
    ensures ApplyEvents(pr, id, StreamEvents(seen + [chunk])) ==
      ApplyEvents(ApplyEvents(pr, id, StreamEvents(seen)), id, ChunkEvents(chunk))
  {
    StreamEventsSnoc(seen, chunk);
    ApplyEventsAppend(pr, id, StreamEvents(seen), ChunkEvents(chunk));
  }

  function ChunksOf(reply: Reply): seq<string> {
    if reply.Body? then ReadChunks(reply.outcomes) else []
  }

  function EndingOf(reply: Reply): Ending {
    match reply
    case StoppedBeforeResponse => Aborted
    case FetchError(_) => Failed
    case ErrorStatus => Failed
    case Body(outcomes) => ReadEnding(outcomes)
  }

  /**
   * The transcript a send leaves: the user message and the placeholder are
   * appended, the frames read are folded into the placeholder, and on a
   * failure other than an abort the placeholder (only) is filtered out.
   */
  function SendOutcome(prior: seq<ChatMessage>, userId: nat, parts: seq<MessagePart>, reply: Reply): seq<ChatMessage> {
    var modelId := userId + 1;
    var started := prior + [UserMessage(userId, parts), Placeholder(modelId)];
    var folded := ApplyEvents(Progress(started, ""), modelId, StreamEvents(ChunksOf(reply))).messages;
    if EndingOf(reply) == Failed then RemoveMessage(folded, modelId) else folded
  }

  /** All ids are below `bound`. */
  ghost predicate IdsBelow(ms: seq<ChatMessage>, bound: nat) {
    forall i :: 0 <= i < |ms| ==> ms[i].id < bound
  }

  ghost predicate IdsDistinct(ms: seq<ChatMessage>) {
    forall i, j :: 0 <= i < j < |ms| ==> ms[i].id != ms[j].id
  }

  /** The model message after a send that was not a failure: all text read, last citations. */
  function FinalModelMessage(modelId: nat, events: seq<StreamPart>): ChatMessage {
    ChatMessage(modelId, Model, [TextPart(TextOf(events))], LastCitations(None, events))
  }

  lemma FoldOpened(prior: seq<ChatMessage>, userId: nat, parts: seq<MessagePart>, events: seq<StreamPart>)
    requires IdsBelow(prior, userId)
    ensures ApplyEvents(Progress(prior + [UserMessage(userId, parts), Placeholder(userId + 1)], ""), userId + 1, events).messages
      == prior + [UserMessage(userId, parts), FinalModelMessage(userId + 1, events)]
  {
    var started := prior + [UserMessage(userId, parts), Placeholder(userId + 1)];
    var want := prior + [UserMessage(userId, parts), FinalModelMessage(userId + 1, events)];
    var pr := Progress(started, "");
    assert ShowsAccumulated(pr, userId + 1) by {
      assert forall i :: 0 <= i < |prior| ==> started[i] == prior[i];
    }
    ApplyEventsSpec(pr, userId + 1, events);
    var r := ApplyEvents(pr, userId + 1, events).messages;
    assert "" + TextOf(events) == TextOf(events);
    forall i | 0 <= i < |started|
      ensures r[i] == want[i]
    {
      if i < |prior| {
        assert started[i] == prior[i] && want[i] == prior[i];
      } else if i == |prior| {
        assert started[i] == UserMessage(userId, parts) == want[i];
      } else {
        assert started[i] == Placeholder(userId + 1);
      }
    }
  }

  /**
   * A send that completes or is aborted appends exactly the user message and
   * the model message, which holds all text read so far and the last
   * citations; the earlier messages are untouched. An abort keeps the partial
   * text.
   */
  lemma {:induction false} SendKeepsModelMessage(prior: seq<ChatMessage>, userId: nat, parts: seq<MessagePart>, reply: Reply)
    requires IdsBelow(prior, userId)
    requires EndingOf(reply) != Failed
    ensures SendOutcome(prior, userId, parts, reply) ==
      prior + [UserMessage(userId, parts), FinalModelMessage(userId + 1, StreamEvents(ChunksOf(reply)))]
  {
    FoldOpened(prior, userId, parts, StreamEvents(ChunksOf(reply)));
  }

  /**
   * A send that fails (other than by an abort) removes exactly the model
   * placeholder, whatever was read into it: the user message stays.
   */
  lemma {:induction false} SendFailureDropsModelMessage(prior: seq<ChatMessage>, userId: nat, parts: seq<MessagePart>, reply: Reply)
    requires IdsBelow(prior, userId)
    requires EndingOf(reply) == Failed
    ensures SendOutcome(prior, userId, parts, reply) == prior + [UserMessage(userId, parts)]
  {
    var events := StreamEvents(ChunksOf(reply));
    var modelId := userId + 1;
    var kept := prior + [UserMessage(userId, parts)];
    var model := FinalModelMessage(modelId, events);
    assert prior + [UserMessage(userId, parts), model] == kept + [model];
    FoldOpened(prior, userId, parts, events);
    assert forall i :: 0 <= i < |kept| ==> kept[i].id != modelId;
    RemoveAbsent(kept, modelId);
    RemoveAppend(kept, [model], modelId);
    assert RemoveMessage([model], modelId) == [];
    var started := prior + [UserMessage(userId, parts), Placeholder(modelId)];
    assert SendOutcome(prior, userId, parts, reply) ==
      RemoveMessage(ApplyEvents(Progress(started, ""), modelId, events).messages, modelId);
  }

  /** A send keeps the ids distinct and hands out only the two ids it reserved. */
  lemma SendOutcomeIds(prior: seq<ChatMessage>, userId: nat, parts: seq<MessagePart>, reply: Reply)
    requires IdsBelow(prior, userId) && IdsDistinct(prior)
    ensures IdsBelow(SendOutcome(prior, userId, parts, reply), userId + 2)
    ensures IdsDistinct(SendOutcome(prior, userId, parts, reply))
  {
    if EndingOf(reply) == Failed {
      SendFailureDropsModelMessage(prior, userId, parts, reply);
    } else {
      SendKeepsModelMessage(prior, userId, parts, reply);
    }
  }

  // ---------------------------------------------------------------------
  // The component's state

  datatype Controller = NoController | Live(aborted: bool)

  class ChatSession {
    var messages: seq<ChatMessage>
    var input: string
    var isLoading: bool
    var file: Option<SelectedFile>
    /** `abortControllerRef.current`. */
    var controller: Controller
    /** Source of fresh message ids (uuids in the source). */
    var nextId: nat

    ghost predicate Valid()
      reads this
    {
      IdsBelow(messages, nextId) && IdsDistinct(messages)
    }

    constructor ()
      ensures Valid()
      ensures messages == [] && input == "" && !isLoading && file.None? && controller == NoController
    {
      messages, input, isLoading, file, controller, nextId := [], "", false, None, NoController, 0;
    }

    /** `setInput`, wired to the text area. */
    method SetInput(text: string)
      modifies this`input
      ensures input == text
    {
      input := text;
    }

    /** `handleFileChange`: a rejected file leaves the current one in place. */
    method HandleFileChange(selected: Option<SelectedFile>) returns (verdict: FileVerdict)
      modifies this`file
      ensures selected.Some? ==> verdict == CheckFile(selected.value)
      ensures selected.None? ==> verdict == Accepted
      ensures file == FileAfterChange(old(file), selected)
    {
      verdict := Accepted;
      if selected.Some? {
        verdict := CheckFile(selected.value);
        if verdict != Accepted {
          return;
        }
      }
      file := selected;
    }

    /** `stop`: only an existing controller is aborted, and only then does loading end. */
    method Stop()
      modifies this`controller, this`isLoading
      ensures old(controller).Live? ==> controller == Live(true) && !isLoading
      ensures old(controller).NoController? ==> controller == NoController && isLoading == old(isLoading)
    {
      if controller.Live? {
        controller := Live(true);
        isLoading := false;
      }
    }

    /** `handleClearChat`: the session id and the toast are not modelled. */
    method ClearChat()
      requires Valid()
      modifies this`messages, this`file, this`input
      ensures Valid()
      ensures messages == [] && file.None? && input == ""
    {
      messages := [];
      file := None;
      input := "";
    }

    /** The body of the inner `for` for one decoded frame. */
    method ApplyFrame(modelId: nat, p: StreamPart, fullText: string) returns (text: string)
      modifies this`messages
      ensures Progress(messages, text) == ApplyEvent(Progress(old(messages), fullText), modelId, p)
    {
      text := fullText;
      if CarriesText(p) {
        text := text + p.text.value;
        messages := SetText(messages, modelId, text);
      }
      if CarriesCitations(p) {
        messages := SetCitations(messages, modelId, p.citations.value);
      }
      // An `error` field is thrown here and caught by the enclosing `catch`.
    }

    /** The inner `for` of `processStream`: every data line of one chunk, in order. */
    method ProcessChunk(modelId: nat, chunk: string, fullText: string) returns (text: string)
      modifies this`messages
      ensures Progress(messages, text) == ApplyEvents(Progress(old(messages), fullText), modelId, ChunkEvents(chunk))
    {
      text := ProcessLines(modelId, EventLines(chunk), fullText);
    }

    /** The loop itself, over the data lines already split out of the chunk. */
    method ProcessLines(modelId: nat, lines: seq<string>, fullText: string) returns (text: string)
      modifies this`messages
      ensures Progress(messages, text) == ApplyEvents(Progress(old(messages), fullText), modelId, DecodeLines(lines))
    {
      text := fullText;
      ghost var start := Progress(messages, fullText);
      for j := 0 to |lines|
        invariant Progress(messages, text) == ApplyEvents(start, modelId, DecodeLines(lines[..j]))
      {
        ghost var before := DecodeLines(lines[..j]);
        text := ProcessLine(modelId, lines[j], text);
        DecodeLinesSnoc(lines[..j], lines[j]);
        ApplyEventsAppend(start, modelId, before, LineEvents(lines[j]));
        assert lines[..j + 1] == lines[..j] + [lines[j]];
      }
      assert lines[..|lines|] == lines;
    }

    /** One pass of the loop: parse the line and apply the frame; a line that does not parse is skipped. */
    method ProcessLine(modelId: nat, line: string, fullText: string) returns (text: string)
      modifies this`messages
      ensures Progress(messages, text) == ApplyEvents(Progress(old(messages), fullText), modelId, LineEvents(line))
    {
      text := fullText;
      var parsed := DecodeLine(line);
      if parsed.Some? {
        text := ApplyFrame(modelId, parsed.value, text);
        ApplyEventsOne(Progress(old(messages), fullText), modelId, parsed.value);
      }
    }

    /**
     * The read loop of `processStream`: read until `done`, folding each chunk
     * into the model message. Stop pressed while a read is pending aborts the
     * controller, and that read then rejects with `AbortError`.
     */
    method ProcessStream(modelId: nat, outcomes: seq<ReadEvent>) returns (ending: Ending)
      modifies this`messages, this`controller, this`isLoading
      ensures ending == ReadEnding(outcomes)
      ensures messages == ApplyEvents(Progress(old(messages), ""), modelId, StreamEvents(ReadChunks(outcomes))).messages
      ensures ending == Aborted && old(controller).Live? ==> controller == Live(true) && !isLoading
      ensures !(ending == Aborted && old(controller).Live?) ==> controller == old(controller) && isLoading == old(isLoading)
    {
      ghost var start := Progress(messages, "");
      var fullText := "";
      ghost var seen: seq<string> := [];
      var i := 0;
      while i < |outcomes| && outcomes[i].Chunk?
        invariant 0 <= i <= |outcomes|
        invariant ReadChunks(outcomes) == seen + ReadChunks(outcomes[i..])
        invariant ReadEnding(outcomes) == ReadEnding(outcomes[i..])
        invariant Progress(messages, fullText) == ApplyEvents(start, modelId, StreamEvents(seen))
        invariant controller == old(controller) && isLoading == old(isLoading)
      {
        var chunk := outcomes[i].text;
        ReadStep(outcomes, i, seen);
        fullText := ProcessChunk(modelId, chunk, fullText);
        FoldChunk(start, modelId, seen, chunk);
        seen := seen + [chunk];
        i := i + 1;
      }
      assert ReadChunks(outcomes) == seen by {
        assert ReadChunks(outcomes[i..]) == [];
        assert seen + [] == seen;
      }
      if i == |outcomes| {
        ending := Completed;
      } else if outcomes[i].StopPressed? {
        Stop();
        ending := Aborted;
      } else {
        ending := Failed;
      }
    }

    /**
     * `sendMessage`: append the user message and the placeholder, post the
     * transcript as it was before, fold every chunk read into the
     * placeholder, drop the placeholder on a failure that is not an abort,
     * and always end loading and release the controller.
     */
    method SendMessage(parts: seq<MessagePart>, reply: Reply) returns (history: seq<ChatMessage>)
      requires Valid()
      modifies this
      ensures Valid()
      ensures history == old(messages)
      ensures messages == SendOutcome(old(messages), old(nextId), parts, reply)
      ensures nextId == old(nextId) + 2
      ensures input == "" && file.None? && !isLoading && controller == NoController
    {
      var userId := nextId;
      var modelId := nextId + 1;
      history := messages;
      messages := messages + [UserMessage(userId, parts)];
      input := "";
      file := None;
      messages := messages + [Placeholder(modelId)];
      nextId := nextId + 2;
      controller := Live(false);
      ghost var started := messages;
      assert started == history + [UserMessage(userId, parts), Placeholder(modelId)];

      var ending: Ending;
      match reply {
        case StoppedBeforeResponse =>
          Stop();
          ending := Aborted;
        case FetchError(_) =>
          ending := Failed;
        case ErrorStatus =>
          ending := Failed;
        case Body(outcomes) =>
          ending := ProcessStream(modelId, outcomes);
      }
      assert ending == EndingOf(reply);
      assert messages == ApplyEvents(Progress(started, ""), modelId, StreamEvents(ChunksOf(reply))).messages;
      if ending == Failed {
        messages := RemoveMessage(messages, modelId);
      }
      isLoading := false;
      controller := NoController;
      assert messages == SendOutcome(history, userId, parts, reply);
      SendOutcomeIds(history, userId, parts, reply);
    }

    /**
     * `handleSubmit`: nothing happens for whitespace-only input without a
     * file; otherwise loading starts, the parts are collected and sent, unless
     * reading the attached file fails, which only ends loading again.
     */
    method Submit(readFails: bool, reply: Reply) returns (sent: bool, history: seq<ChatMessage>)
      requires Valid()
      modifies this
      ensures Valid()
      ensures sent <==> !(Blank(old(input)) && old(file).None?) && !(old(file).Some? && readFails)
      ensures !sent ==> messages == old(messages) && input == old(input) && file == old(file) && nextId == old(nextId)
      ensures !sent ==> controller == old(controller)
      ensures !sent && Blank(old(input)) && old(file).None? ==> isLoading == old(isLoading)
      ensures !sent && old(file).Some? ==> !isLoading
      ensures sent ==> history == old(messages) && nextId == old(nextId) + 2
      ensures sent ==> messages == SendOutcome(old(messages), old(nextId), NewParts(old(input), old(file)), reply)
      ensures sent ==> input == "" && file.None? && !isLoading && controller == NoController
    {
      TrimEmptyIffBlank(input);
      history := [];
      if Trim(input) == "" && file.None? {
        return false, history;
      }
      isLoading := true;
      var parts: seq<MessagePart> := [];
      if Trim(input) != "" {
        parts := parts + [TextPart(input)];
      }
      if file.Some? {
        if readFails {
          isLoading := false;
          return false, history;
        }
        parts := parts + [ImagePart(file.value.mimeType, DataUrlPayload(file.value.dataUrl))];
      }
      assert parts == NewParts(input, file);
      history := SendMessage(parts, reply);
      sent := true;
    }
  }
}
