/**
 * The chat endpoint (src/app/api/chat/route.ts): convert the transcript and
 * the new parts to the model's part format, uploading every inline image
 * first, open a streaming reply, and relay it as `data: <json>` frames.
 *
 * The file manager and the model are outside this model: each upload is
 * answered by an `Uploader`, and the model's streamed reply by a `Gateway`.
 */
module ChatRoute {
  import opened Wrappers
  import opened Strings
  import opened Types
  import Json

  /** A part in the model's format: text, or a reference to an uploaded file. */
  datatype GooglePart = TextData(text: string) | FileData(mimeType: string, fileUri: string)

  datatype Content = Content(role: Role, parts: seq<GooglePart>)

  /** One call of `saveFile`: the base64 data and the declared MIME type. */
  datatype UploadRequest = UploadRequest(data: string, mimeType: string)

  /** What saving and uploading one image ends in; `message` is "" when the error has none. */
  datatype Upload = Uploaded(mimeType: string, fileUri: string) | UploadFailed(message: string)

  type Uploader = UploadRequest -> Upload

  /** How the model's stream ends: with the final response (and its citations, if any), or broken. */
  datatype UpstreamEnd = Finished(citations: Option<seq<Citation>>) | Broken

  /** `sendMessageStream`: refused outright, or the text of each streamed chunk and how the stream ended. */
  datatype Upstream = Refused(message: string) | Streaming(chunks: seq<string>, end: UpstreamEnd)

  type Gateway = (seq<Content>, seq<GooglePart>) -> Upstream

  /** The request body: not valid JSON (or not the expected shape), or the transcript and the new parts. */
  datatype Request = Unreadable(message: string) | ChatRequest(history: seq<ChatMessage>, newParts: seq<MessagePart>)

  /**
   * A 500 with a JSON body, or an event stream: the frames enqueued, and
   * whether the stream was closed (`false`: it errored after those frames).
   */
  datatype Response = ErrorResponse(status: nat, body: string) | EventStream(frames: seq<string>, closed: bool)

  const DefaultError := "An error occurred."

  // ---------------------------------------------------------------------
  // saveFile

  /** The temp file's extension: the second piece of the MIME type cut at its slashes; `None` where the source gets `undefined`. */
  function Extension(mimeType: string): Option<string> {
    var pieces := Split(mimeType, "/");
    if |pieces| > 1 then Some(pieces[1]) else None
  }

  /** There is an extension exactly when the type has a slash, and it never contains one. */
  lemma ExtensionSpec(mimeType: string)
    ensures Extension(mimeType).None? <==> '/' !in mimeType
    ensures Extension(mimeType).Some? ==> '/' !in Extension(mimeType).value
  {
    var pieces := Split(mimeType, "/");
    SplitPiecesFree(mimeType, "/");
    if '/' in mimeType {
      var j :| 0 <= j < |mimeType| && mimeType[j] == '/';
      assert mimeType[j..j + 1] == "/";
      assert OccursAt(mimeType, "/", j);
      IndexOfFirst(mimeType, "/");
      assert |pieces| > 1;
      var e := pieces[1];
      if '/' in e {
        var k :| 0 <= k < |e| && e[k] == '/';
        assert e[k..k + 1] == "/";
        assert OccursAt(e, "/", k);
      }
    } else {
      SplitWhole(mimeType, "/");
    }
  }

  /** For a `type/subtype` MIME type the extension is the subtype. */
  lemma ExtensionOfType(kind: string, subtype: string)
    requires '/' !in kind && '/' !in subtype
    ensures Extension(kind + "/" + subtype) == Some(subtype)
  {
    SplitHead(kind, "/", subtype);
    SplitWhole(subtype, "/");
  }

  // ---------------------------------------------------------------------
  // convertToGoogleParts

  function ConvertPart(p: MessagePart, upload: Uploader): Result<GooglePart, string> {
    match p
    case TextPart(t) => Success(TextData(t))
    case ImagePart(m, d) =>
      match upload(UploadRequest(d, m))
      case Uploaded(um, uri) => Success(FileData(um, uri))
      case UploadFailed(e) => Failure(e)
  }

  /**
   * The parts converted one by one, in order; the first image whose upload
   * fails makes the whole conversion fail with that error.
   */
  function ConvertParts(parts: seq<MessagePart>, upload: Uploader): (r: Result<seq<GooglePart>, string>)
    ensures r.Success? <==> forall i :: 0 <= i < |parts| ==> ConvertPart(parts[i], upload).Success?
    ensures r.Success? ==> |r.value| == |parts|
    ensures r.Success? ==> forall i :: 0 <= i < |parts| ==> ConvertPart(parts[i], upload) == Success(r.value[i])
    ensures r.Failure? ==> exists i :: (0 <= i < |parts| && ConvertPart(parts[i], upload) == Failure(r.error) &&
      forall j :: 0 <= j < i ==> ConvertPart(parts[j], upload).Success?)
    decreases |parts|
  {
    if parts == [] then Success([])
    else
      var init := parts[..|parts| - 1];
      assert forall i :: 0 <= i < |init| ==> init[i] == parts[i];
      match ConvertParts(init, upload)
      case Failure(e) => Failure(e)
      case Success(done) =>
        match ConvertPart(parts[|parts| - 1], upload)
        case Failure(e) => Failure(e)
        case Success(g) => Success(done + [g])
  }

  /** The uploads the conversion performs: one per image part, up to and including the first that fails. */
  function UploadCalls(parts: seq<MessagePart>, upload: Uploader): seq<UploadRequest>
    decreases |parts|
  {
    if parts == [] then []
    else
      var init := parts[..|parts| - 1];
      var last := parts[|parts| - 1];
      if ConvertParts(init, upload).Failure? then UploadCalls(init, upload)
      else UploadCalls(init, upload) + (if last.ImagePart? then [UploadRequest(last.data, last.mimeType)] else [])
  }

  /** Every image part's upload request, in part order. */
  function ImageRequests(parts: seq<MessagePart>): seq<UploadRequest>
    decreases |parts|
  {
    if parts == [] then []
    else
      var last := parts[|parts| - 1];
      ImageRequests(parts[..|parts| - 1]) + (if last.ImagePart? then [UploadRequest(last.data, last.mimeType)] else [])
  }

  /**
   * Uploads happen one at a time in part order: a successful conversion
   * uploads every image exactly once, and a failed one stops right after the
   * failing upload, having made a prefix of those requests.
   */
  lemma {:induction false} UploadsInOrder(parts: seq<MessagePart>, upload: Uploader)
    ensures UploadCalls(parts, upload) <= ImageRequests(parts)
    ensures ConvertParts(parts, upload).Success? ==> UploadCalls(parts, upload) == ImageRequests(parts)
    ensures ConvertParts(parts, upload).Failure? ==>
      UploadCalls(parts, upload) != [] && upload(UploadCalls(parts, upload)[|UploadCalls(parts, upload)| - 1]).UploadFailed?
    decreases |parts|
  {
    if parts != [] {
      var init := parts[..|parts| - 1];
      var last := parts[|parts| - 1];
      UploadsInOrder(init, upload);
      var extra := if last.ImagePart? then [UploadRequest(last.data, last.mimeType)] else [];
      assert ImageRequests(parts) == ImageRequests(init) + extra;
      ConvertStep(parts, upload);
      if ConvertParts(init, upload).Failure? {
        assert UploadCalls(parts, upload) == UploadCalls(init, upload);
      } else {
        assert UploadCalls(parts, upload) == ImageRequests(parts);
        if ConvertPart(last, upload).Failure? {
          assert UploadCalls(parts, upload)[|UploadCalls(parts, upload)| - 1] == UploadRequest(last.data, last.mimeType);
        }
      }
    }
  }

  /** One more part: a conversion that already failed stays failed, otherwise the new part decides. */
  lemma ConvertStep(parts: seq<MessagePart>, upload: Uploader)
    requires parts != []
    ensures ConvertParts(parts[..|parts| - 1], upload).Failure? ==>
      ConvertParts(parts, upload) == ConvertParts(parts[..|parts| - 1], upload)
    ensures ConvertParts(parts[..|parts| - 1], upload).Success? ==>
      (ConvertParts(parts, upload).Failure? <==> ConvertPart(parts[|parts| - 1], upload).Failure?)
  {
  }

  /** Once a prefix of the parts fails to convert, the rest is neither converted nor uploaded. */
  lemma {:induction false} PrefixFailureStops(parts: seq<MessagePart>, k: nat, upload: Uploader)
    requires k <= |parts|
    requires ConvertParts(parts[..k], upload).Failure?
    ensures ConvertParts(parts, upload) == ConvertParts(parts[..k], upload)
    ensures UploadCalls(parts, upload) == UploadCalls(parts[..k], upload)
    decreases |parts| - k
  {
    if k == |parts| {
      assert parts[..k] == parts;
    } else {
      var init := parts[..|parts| - 1];
      assert init[..k] == parts[..k];
      PrefixFailureStops(init, k, upload);
    }
  }

  /** `convertToGoogleParts`, also returning the uploads it made. */
  method ConvertToGoogleParts(parts: seq<MessagePart>, upload: Uploader)
    returns (r: Result<seq<GooglePart>, string>, calls: seq<UploadRequest>)
    ensures r == ConvertParts(parts, upload)
    ensures calls == UploadCalls(parts, upload)
  {
    var resultParts: seq<GooglePart> := [];
    calls := [];
    for i := 0 to |parts|
      invariant ConvertParts(parts[..i], upload) == Success(resultParts)
      invariant calls == UploadCalls(parts[..i], upload)
    {
      assert parts[..i + 1][..i] == parts[..i];
      match parts[i] {
        case TextPart(t) =>
          resultParts := resultParts + [TextData(t)];
        case ImagePart(m, d) =>
          var request := UploadRequest(d, m);
          calls := calls + [request];
          match upload(request) {
            case UploadFailed(e) =>
              PrefixFailureStops(parts, i + 1, upload);
              return Failure(e), calls;
            case Uploaded(um, uri) =>
              resultParts := resultParts + [FileData(um, uri)];
          }
      }
    }
    assert parts[..|parts|] == parts;
    r := Success(resultParts);
  }

  /** The history, message by message, each keeping its role; the first message that fails to convert decides the error. */
  function ConvertHistory(history: seq<ChatMessage>, upload: Uploader): (r: Result<seq<Content>, string>)
    ensures r.Success? <==> forall i :: 0 <= i < |history| ==> ConvertParts(history[i].parts, upload).Success?
    ensures r.Success? ==> |r.value| == |history|
    ensures r.Success? ==> forall i :: 0 <= i < |history| ==>
      r.value[i] == Content(history[i].role, ConvertParts(history[i].parts, upload).value)
    ensures r.Failure? ==> exists i :: 0 <= i < |history| && ConvertParts(history[i].parts, upload) == Failure(r.error)
    decreases |history|
  {
    if history == [] then Success([])
    else
      var init := history[..|history| - 1];
      var last := history[|history| - 1];
      assert forall i :: 0 <= i < |init| ==> init[i] == history[i];
      match ConvertHistory(init, upload)
      case Failure(e) => Failure(e)
      case Success(done) =>
        match ConvertParts(last.parts, upload)
        case Failure(e) => Failure(e)
        case Success(ps) => Success(done + [Content(last.role, ps)])
  }

  lemma {:induction false} HistoryPrefixFailure(history: seq<ChatMessage>, k: nat, upload: Uploader)
    requires k <= |history|
    requires ConvertHistory(history[..k], upload).Failure?
    ensures ConvertHistory(history, upload) == ConvertHistory(history[..k], upload)
    decreases |history| - k
  {
    if k == |history| {
      assert history[..k] == history;
    } else {
      var init := history[..|history| - 1];
      assert init[..k] == history[..k];
      HistoryPrefixFailure(init, k, upload);
    }
  }

  // ---------------------------------------------------------------------
  // The event stream

  /** One frame on the wire: `data: <json>` and a blank line. */
  function Frame(p: StreamPart): string {
    "data: " + Json.Encode(p) + "\n\n"
  }

  function Frames(events: seq<StreamPart>): (r: seq<string>)
    ensures |r| == |events|
    decreases |events|
  {
    if events == [] then [] else Frames(events[..|events| - 1]) + [Frame(events[|events| - 1])]
  }

  lemma FramesSnoc(events: seq<StreamPart>, e: StreamPart)
    ensures Frames(events + [e]) == Frames(events) + [Frame(e)]
  {
    assert (events + [e])[..|events|] == events;
  }

  lemma {:induction false} FramesAppend(a: seq<StreamPart>, b: seq<StreamPart>)
    ensures Frames(a + b) == Frames(a) + Frames(b)
    decreases |b|
  {
    if b == [] {
      assert a + b == a;
    } else {
      var init := b[..|b| - 1];
      var last := b[|b| - 1];
      assert b == init + [last];
      assert a + b == (a + init) + [last];
      FramesAppend(a, init);
      FramesSnoc(a + init, last);
      FramesSnoc(init, last);
    }
  }

  /** A text event for every chunk whose text is non-empty, in order. */
  function TextEvents(chunks: seq<string>): seq<StreamPart>
    decreases |chunks|
  {
    if chunks == [] then []
    else
      var last := chunks[|chunks| - 1];
      TextEvents(chunks[..|chunks| - 1]) + (if last != "" then [TextEvent(last)] else [])
  }

  lemma TextEventsSnoc(chunks: seq<string>, c: string)
    ensures TextEvents(chunks + [c]) == TextEvents(chunks) + (if c != "" then [TextEvent(c)] else [])
  {
    assert (chunks + [c])[..|chunks|] == chunks;
  }

  /** The events `start` enqueues: the texts, then the citations once the stream has finished with some. */
  function EmittedEvents(chunks: seq<string>, end: UpstreamEnd): seq<StreamPart> {
    TextEvents(chunks) +
    (if end.Finished? && end.citations.Some? then [CitationsEvent(end.citations.value)] else [])
  }

  lemma {:induction false} TextEventsShape(chunks: seq<string>)
    ensures forall i :: 0 <= i < |TextEvents(chunks)| ==>
      TextEvents(chunks)[i].text.Some? && TextEvents(chunks)[i].text.value != "" &&
      TextEvents(chunks)[i].citations.None? && TextEvents(chunks)[i].error.None?
    decreases |chunks|
  {
    if chunks != [] {
      TextEventsShape(chunks[..|chunks| - 1]);
    }
  }

  /**
   * What the stream carries: only non-empty text frames, then at most one
   * citations frame, last, exactly when the model finished with citations;
   * never an error frame.
   */
  lemma EmittedShape(chunks: seq<string>, end: UpstreamEnd)
    ensures forall e :: e in EmittedEvents(chunks, end) ==> e.error.None?
    ensures forall i :: 0 <= i < |TextEvents(chunks)| ==> CarriesText(EmittedEvents(chunks, end)[i])
    ensures |EmittedEvents(chunks, end)| == |TextEvents(chunks)| + (if end.Finished? && end.citations.Some? then 1 else 0)
    ensures end.Finished? && end.citations.Some? ==>
      EmittedEvents(chunks, end)[|EmittedEvents(chunks, end)| - 1] == CitationsEvent(end.citations.value)
    ensures forall i :: 0 <= i < |EmittedEvents(chunks, end)| && CarriesCitations(EmittedEvents(chunks, end)[i]) ==>
      end.Finished? && end.citations.Some? && i == |EmittedEvents(chunks, end)| - 1
  {
    TextEventsShape(chunks);
  }

  /** The `start` callback of the response stream. */
  method StreamFrames(chunks: seq<string>, end: UpstreamEnd) returns (frames: seq<string>, closed: bool)
    ensures frames == Frames(EmittedEvents(chunks, end))
    ensures closed <==> end.Finished?
  {
    frames := [];
    for i := 0 to |chunks|
      invariant frames == Frames(TextEvents(chunks[..i]))
    {
      var text := chunks[i];
      assert chunks[..i + 1] == chunks[..i] + [text];
      TextEventsSnoc(chunks[..i], text);
      if text != "" {
        FramesSnoc(TextEvents(chunks[..i]), TextEvent(text));
        frames := frames + [Frame(TextEvent(text))];
      } else {
        assert TextEvents(chunks[..i]) + [] == TextEvents(chunks[..i]);
      }
    }
    assert chunks[..|chunks|] == chunks;
    ghost var texts := TextEvents(chunks);
    match end {
      case Broken =>
        // The `for await` throws: the stream errors without being closed.
        assert texts + [] == texts;
        closed := false;
      case Finished(citations) =>
        if citations.Some? {
          FramesSnoc(texts, CitationsEvent(citations.value));
          frames := frames + [Frame(CitationsEvent(citations.value))];
        } else {
          assert texts + [] == texts;
        }
        closed := true;
    }
  }

  // ---------------------------------------------------------------------
  // POST

  /** The error text reported for a failure: its message, or the default when the message is empty. */
  function Reported(message: string): (r: string)
    ensures r != ""
    ensures message != "" ==> r == message
    ensures message == "" ==> r == DefaultError
  {
    if message == "" then DefaultError else message
  }

  /** The body of the 500 reply: an object whose `error` is the reported text. */
  function ErrorBody(message: string): (body: string)
    ensures Json.Decode(body) == Some(ErrorEvent(Reported(message)))
  {
    var e := ErrorEvent(Reported(message));
    Json.DecodeEncode(e);
    Json.Encode(e)
  }

  /**
   * The response to one request: every failure before the stream opens (an
   * unreadable body, a failed upload, a refused model call) is a 500 whose
   * body carries a non-empty error; otherwise the relayed stream.
   */
  function Respond(req: Request, upload: Uploader, gateway: Gateway): (r: Response)
    ensures r.ErrorResponse? ==> r.status == 500 && Json.Decode(r.body).Some? && CarriesError(Json.Decode(r.body).value)
    ensures req.Unreadable? ==>
      r.ErrorResponse? && Json.Decode(r.body) == Some(ErrorEvent(Reported(req.message)))
    ensures req.ChatRequest? && ConvertHistory(req.history, upload).Failure? ==>
      r.ErrorResponse? && Json.Decode(r.body) == Some(ErrorEvent(Reported(ConvertHistory(req.history, upload).error)))
    ensures req.ChatRequest? && ConvertHistory(req.history, upload).Success? && ConvertParts(req.newParts, upload).Failure? ==>
      r.ErrorResponse? && Json.Decode(r.body) == Some(ErrorEvent(Reported(ConvertParts(req.newParts, upload).error)))
    ensures req.ChatRequest? && ConvertHistory(req.history, upload).Success? && ConvertParts(req.newParts, upload).Success? &&
            gateway(ConvertHistory(req.history, upload).value, ConvertParts(req.newParts, upload).value).Refused? ==>
      r.ErrorResponse? && Json.Decode(r.body) ==
        Some(ErrorEvent(Reported(gateway(ConvertHistory(req.history, upload).value, ConvertParts(req.newParts, upload).value).message)))
    ensures r.EventStream? <==>
      req.ChatRequest? &&
      ConvertHistory(req.history, upload).Success? &&
      ConvertParts(req.newParts, upload).Success? &&
      gateway(ConvertHistory(req.history, upload).value, ConvertParts(req.newParts, upload).value).Streaming?
    ensures r.EventStream? ==>
      var up := gateway(ConvertHistory(req.history, upload).value, ConvertParts(req.newParts, upload).value);
      r.frames == Frames(EmittedEvents(up.chunks, up.end)) && (r.closed <==> up.end.Finished?)
  {
    match req
    case Unreadable(msg) => ErrorResponse(500, ErrorBody(msg))
    case ChatRequest(history, newParts) =>
      match ConvertHistory(history, upload)
      case Failure(e) => ErrorResponse(500, ErrorBody(e))
      case Success(contents) =>
        match ConvertParts(newParts, upload)
        case Failure(e) => ErrorResponse(500, ErrorBody(e))
        case Success(googleParts) =>
          match gateway(contents, googleParts)
          case Refused(e) => ErrorResponse(500, ErrorBody(e))
          case Streaming(chunks, end) => EventStream(Frames(EmittedEvents(chunks, end)), end.Finished?)
  }

  /** `POST`: the history is converted (sequentially here), then the new parts, then the model is called. */
  method Post(req: Request, upload: Uploader, gateway: Gateway) returns (resp: Response)
    ensures resp == Respond(req, upload, gateway)
  {
    match req {
      case Unreadable(msg) =>
        return ErrorResponse(500, ErrorBody(msg));
      case ChatRequest(history, newParts) =>
        var contents: seq<Content> := [];
        for i := 0 to |history|
          invariant ConvertHistory(history[..i], upload) == Success(contents)
        {
          assert history[..i + 1][..i] == history[..i];
          var converted, _ := ConvertToGoogleParts(history[i].parts, upload);
          if converted.Failure? {
            HistoryPrefixFailure(history, i + 1, upload);
            return ErrorResponse(500, ErrorBody(converted.error));
          }
          contents := contents + [Content(history[i].role, converted.value)];
        }
        assert history[..|history|] == history;
        var googleParts, _ := ConvertToGoogleParts(newParts, upload);
        if googleParts.Failure? {
          return ErrorResponse(500, ErrorBody(googleParts.error));
        }
        match gateway(contents, googleParts.value) {
          case Refused(e) =>
            return ErrorResponse(500, ErrorBody(e));
          case Streaming(chunks, end) =>
            var frames, closed := StreamFrames(chunks, end);
            return EventStream(frames, closed);
        }
    }
  }
}
