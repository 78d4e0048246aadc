/**
 * The wire between the chat endpoint and the chat client: what the client
 * (src/components/chat/chat-layout.tsx) makes of the frames the endpoint
 * (src/app/api/chat/route.ts) emits.
 */
module Protocol {
  import opened Wrappers
  import opened Strings
  import opened Types
  import Json
  import ChatRoute
  import ChatLayout

  /** The part of a frame before its blank line: `data: <json>`. */
  function WireLine(p: StreamPart): string {
    "data: " + Json.Encode(p)
  }

  function WireLines(es: seq<StreamPart>): (r: seq<string>)
    ensures |r| == |es|
    decreases |es|
  {
    if es == [] then [] else WireLines(es[..|es| - 1]) + [WireLine(es[|es| - 1])]
  }

  lemma {:induction false} WireLinesAt(es: seq<StreamPart>)
    ensures forall i :: 0 <= i < |es| ==> WireLines(es)[i] == WireLine(es[i])
    decreases |es|
  {
    if es != [] {
      WireLinesAt(es[..|es| - 1]);
    }
  }

  lemma WireLineDecodes(p: StreamPart)
    ensures ChatLayout.LineEvents(WireLine(p)) == [p]
  {
    ReplacePrefix("data: ", Json.Encode(p));
    Json.DecodeEncode(p);
  }

  lemma WireLineHasNoNewline(p: StreamPart)
    ensures '\n' !in WireLine(p)
  {
    Json.EncodeNoNewline(p);
  }

  /** Each frame is its wire line followed by the blank line. */
  lemma {:induction false} FramesAt(es: seq<StreamPart>)
    ensures forall i :: 0 <= i < |es| ==> ChatRoute.Frames(es)[i] == WireLine(es[i]) + "\n\n"
    decreases |es|
  {
    if es != [] {
      FramesAt(es[..|es| - 1]);
    }
  }

  /** Lines without a line break, each terminated by a blank line, split back into those lines and an empty tail. */
  lemma {:induction false} SplitTerminated(fs: seq<string>, ls: seq<string>)
    requires |fs| == |ls|
    requires forall i :: 0 <= i < |ls| ==> fs[i] == ls[i] + "\n\n" && '\n' !in ls[i]
    ensures Split(Concat(fs), "\n\n") == ls + [""]
    decreases |fs|
  {
    if fs == [] {
      assert Concat(fs) == "";
      SplitWhole("", "\n\n");
    } else {
      var rest := Concat(fs[1..]);
      SplitTerminated(fs[1..], ls[1..]);
      assert Concat(fs) == ls[0] + "\n\n" + rest;
      SplitHead(ls[0], "\n\n", rest);
      assert ls + [""] == [ls[0]] + (ls[1..] + [""]);
      assert Split(Concat(fs), "\n\n") == [ls[0]] + Split(rest, "\n\n");
    }
  }

  /** Splitting the concatenated frames on "\n\n" gives one line per event, then the empty tail. */
  lemma SplitFrames(es: seq<StreamPart>)
    ensures Split(Concat(ChatRoute.Frames(es)), "\n\n") == WireLines(es) + [""]
  {
    var ls := WireLines(es);
    WireLinesAt(es);
    FramesAt(es);
    forall i | 0 <= i < |ls| ensures '\n' !in ls[i] {
      WireLineHasNoNewline(es[i]);
    }
    SplitTerminated(ChatRoute.Frames(es), ls);
  }

  lemma {:induction false} KeepWireLines(ls: seq<string>)
    requires forall i :: 0 <= i < |ls| ==> StartsWith(ls[i], "data:")
    ensures ChatLayout.DataLines(ls + [""]) == ls
  {
    if ls == [] {
      assert ls + [""] == [""];
    } else {
      assert (ls + [""])[1..] == ls[1..] + [""];
      KeepWireLines(ls[1..]);
      assert ls == [ls[0]] + ls[1..];
    }
  }

  lemma {:induction false} DecodeWireLines(es: seq<StreamPart>)
    ensures ChatLayout.DecodeLines(WireLines(es)) == es
    decreases |es|
  {
    if es != [] {
      var n := |es| - 1;
      DecodeWireLines(es[..n]);
      WireLineDecodes(es[n]);
      ChatLayout.DecodeLinesSnocOne(WireLines(es[..n]), WireLine(es[n]), es[n]);
      assert es == es[..n] + [es[n]];
    }
  }

  /**
   * Everything the endpoint sends, delivered to the client as one chunk,
   * decodes to exactly the emitted events in emission order. It rests on
   * encoded events never containing a line break.
   */
  lemma WholeStreamRoundTrip(es: seq<StreamPart>)
    ensures ChatLayout.ChunkEvents(Concat(ChatRoute.Frames(es))) == es
  {
    SplitFrames(es);
    var ls := WireLines(es);
    WireLinesAt(es);
    forall i | 0 <= i < |ls| ensures StartsWith(ls[i], "data:") {
      assert ls[i][..5] == "data:";
    }
    KeepWireLines(ls);
    DecodeWireLines(es);
  }

  lemma FramesOfOne(e: StreamPart)
    ensures Concat(ChatRoute.Frames([e])) == ChatRoute.Frame(e)
  {
    assert [e][..0] == [];
    assert ChatRoute.Frames([e]) == [ChatRoute.Frame(e)];
    assert Concat([ChatRoute.Frame(e)]) == ChatRoute.Frame(e) + "";
  }

  lemma SingleFrame(e: StreamPart)
    ensures ChatLayout.ChunkEvents(ChatRoute.Frame(e)) == [e]
  {
    WholeStreamRoundTrip([e]);
    FramesOfOne(e);
  }

  /** The same holds when every frame arrives as a chunk of its own. */
  lemma {:induction false} FramePerChunkRoundTrip(es: seq<StreamPart>)
    ensures ChatLayout.StreamEvents(ChatRoute.Frames(es)) == es
    decreases |es|
  {
    if es != [] {
      var init := es[..|es| - 1];
      var last := es[|es| - 1];
      assert es == init + [last];
      var fs := ChatRoute.Frames(init);
      assert ChatRoute.Frames(es) == fs + [ChatRoute.Frame(last)];
      FramePerChunkRoundTrip(init);
      ChatLayout.StreamEventsSnoc(fs, ChatRoute.Frame(last));
      SingleFrame(last);
    }
  }

  /**
   * The client keeps no buffer between chunks: a frame cut after its opening
   * brace yields nothing at all, since neither half decodes on its own.
   */
  lemma SplitFrameIsLost(e: StreamPart)
    ensures ChatLayout.StreamEvents([ChatRoute.Frame(e)[..7], ChatRoute.Frame(e)[7..]]) == []
  {
    FrameCut(e);
    EncodedBodyShape(e);
    OpeningIsLost();
    RestIsLost(EncodedBody(e));
    TwoChunks(ChatRoute.Frame(e)[..7], ChatRoute.Frame(e)[7..]);
  }

  lemma FrameCut(e: StreamPart)
    ensures ChatRoute.Frame(e)[..7] == "data: {"
    ensures ChatRoute.Frame(e)[7..] == EncodedBody(e) + "\n\n"
  {
    EncodedBodyShape(e);
    assert ChatRoute.Frame(e) == "data: {" + (EncodedBody(e) + "\n\n");
  }

  lemma TwoChunks(a: string, b: string)
    ensures ChatLayout.StreamEvents([a, b]) == ChatLayout.ChunkEvents(a) + ChatLayout.ChunkEvents(b)
  {
    SecondChunk(a, b);
    FirstChunk(a);
  }

  lemma SecondChunk(a: string, b: string)
    ensures ChatLayout.StreamEvents([a, b]) == ChatLayout.StreamEvents([a]) + ChatLayout.ChunkEvents(b)
  {
    assert [a, b][..1] == [a];
  }

  lemma FirstChunk(a: string)
    ensures ChatLayout.StreamEvents([a]) == ChatLayout.ChunkEvents(a)
  {
    assert [a][..0] == [];
  }

  /** What follows the opening brace of an encoded event: a member or the closing brace, on one line. */
  lemma EncodedBodyShape(e: StreamPart)
    ensures Json.Encode(e) == "{" + EncodedBody(e)
    ensures EncodedBody(e) != "" && (EncodedBody(e)[0] == '}' || EncodedBody(e)[0] == '"')
    ensures '\n' !in EncodedBody(e)
  {
    Json.EncodeNoNewline(e);
    Json.EncodeShape(e);
    var enc := Json.Encode(e);
    assert enc == [enc[0]] + enc[1..];
  }

  function EncodedBody(e: StreamPart): string {
    var enc := Json.Encode(e);
    if enc == "" then "" else enc[1..]
  }

  /** "data: {" alone is a data line that does not parse. */
  lemma OpeningIsLost()
    ensures ChatLayout.ChunkEvents("data: {") == []
  {
    var first := "data: {";
    SplitWhole(first, "\n\n");
    assert ChatLayout.DataLines([first]) == [first];
    assert first == "data: " + "{";
    ReplacePrefix("data: ", "{");
    Json.OpenBraceFails();
    assert ChatLayout.LineEvents(first) == [];
    assert [first][..0] == [];
    assert ChatLayout.EventLines(first) == [first];
    assert ChatLayout.DecodeLines([first]) == ChatLayout.DecodeLines([]) + ChatLayout.LineEvents(first);
  }

  /** The rest of a cut frame starts with neither "data:" nor a line the client keeps. */
  lemma RestIsLost(body: string)
    requires body != "" && body[0] != 'd' && '\n' !in body
    ensures ChatLayout.ChunkEvents(body + "\n\n") == []
  {
    assert body + "\n\n" == body + "\n\n" + "";
    SplitHead(body, "\n\n", "");
    assert Split("", "\n\n") == [""];
    assert !StartsWith(body, "data:");
    assert !StartsWith("", "data:");
    assert [body, ""][1..] == [""];
    assert [""][1..] == [];
    assert ChatLayout.DataLines([""]) == [];
    assert ChatLayout.DataLines([body, ""]) == [];
    assert ChatLayout.EventLines(body + "\n\n") == [];
  }

  // ---------------------------------------------------------------------
  // A whole exchange

  /** How the client's `fetch` sees an endpoint response: one chunk per frame, and a read error if the stream broke. */
  function ClientReply(resp: ChatRoute.Response): ChatLayout.Reply {
    match resp
    case ErrorResponse(_, _) => ChatLayout.ErrorStatus
    case EventStream(frames, closed) =>
      ChatLayout.Body(seq(|frames|, i requires 0 <= i < |frames| => ChatLayout.Chunk(frames[i])) +
                      (if closed then [] else [ChatLayout.ReadError("")]))
  }

  lemma {:induction false} ChunkReads(frames: seq<string>, tail: seq<ChatLayout.ReadEvent>)
    requires tail == [] || !tail[0].Chunk?
    ensures var outcomes := seq(|frames|, i requires 0 <= i < |frames| => ChatLayout.Chunk(frames[i])) + tail;
      ChatLayout.ReadChunks(outcomes) == frames && ChatLayout.ReadEnding(outcomes) == ChatLayout.ReadEnding(tail)
    decreases |frames|
  {
    var outcomes := seq(|frames|, i requires 0 <= i < |frames| => ChatLayout.Chunk(frames[i])) + tail;
    if frames != [] {
      ChunkReads(frames[1..], tail);
      assert outcomes[1..] == seq(|frames| - 1, i requires 0 <= i < |frames| - 1 => ChatLayout.Chunk(frames[1..][i])) + tail;
      assert frames == [frames[0]] + frames[1..];
    } else {
      assert outcomes == tail;
    }
  }

  lemma {:induction false} TextOfTextEvents(chunks: seq<string>)
    ensures ChatLayout.TextOf(ChatRoute.TextEvents(chunks)) == Concat(chunks)
    ensures ChatLayout.LastCitations(None, ChatRoute.TextEvents(chunks)) == None
    decreases |chunks|
  {
    if chunks != [] {
      var init := chunks[..|chunks| - 1];
      var last := chunks[|chunks| - 1];
      TextOfTextEvents(init);
      assert chunks == init + [last];
      ConcatAppend(init, [last]);
      assert Concat([last]) == last;
      var prev := ChatRoute.TextEvents(init);
      if last != "" {
        assert (prev + [TextEvent(last)])[..|prev|] == prev;
      } else {
        assert prev + [] == prev;
      }
    }
  }

  /** The client's reading of the emitted events: all upstream text, and the citations of a finished reply. */
  lemma EmittedMeaning(chunks: seq<string>, end: ChatRoute.UpstreamEnd)
    ensures ChatLayout.TextOf(ChatRoute.EmittedEvents(chunks, end)) == Concat(chunks)
    ensures ChatLayout.LastCitations(None, ChatRoute.EmittedEvents(chunks, end)) ==
      (if end.Finished? then end.citations else None)
  {
    TextOfTextEvents(chunks);
    var texts := ChatRoute.TextEvents(chunks);
    if end.Finished? && end.citations.Some? {
      var es := texts + [CitationsEvent(end.citations.value)];
      assert es[..|texts|] == texts;
      assert Concat(chunks) + "" == Concat(chunks);
    } else {
      assert texts + [] == texts;
    }
  }

  /**
   * A streamed exchange end to end: when the model's reply finishes, the
   * client's transcript gains the user message and a model message holding
   * every chunk of the model's text and the reply's citations; when the
   * stream breaks, only the user message remains.
   */
  lemma StreamedExchange(prior: seq<ChatMessage>, userId: nat, parts: seq<MessagePart>,
                         chunks: seq<string>, end: ChatRoute.UpstreamEnd)
    requires ChatLayout.IdsBelow(prior, userId)
    ensures var resp := ChatRoute.EventStream(ChatRoute.Frames(ChatRoute.EmittedEvents(chunks, end)), end.Finished?);
      ChatLayout.SendOutcome(prior, userId, parts, ClientReply(resp)) ==
        if end.Finished?
        then prior + [ChatLayout.UserMessage(userId, parts),
                      ChatMessage(userId + 1, Model, [TextPart(Concat(chunks))], end.citations)]
        else prior + [ChatLayout.UserMessage(userId, parts)]
  {
    var events := ChatRoute.EmittedEvents(chunks, end);
    var frames := ChatRoute.Frames(events);
    var reply := ClientReply(ChatRoute.EventStream(frames, end.Finished?));
    ClientReplyOfStream(frames, end.Finished?);
    if end.Finished? {
      FramePerChunkRoundTrip(events);
      EmittedMeaning(chunks, end);
      ChatLayout.SendKeepsModelMessage(prior, userId, parts, reply);
    } else {
      ChatLayout.SendFailureDropsModelMessage(prior, userId, parts, reply);
    }
  }

  lemma ClientReplyOfStream(frames: seq<string>, closed: bool)
    ensures ChatLayout.ChunksOf(ClientReply(ChatRoute.EventStream(frames, closed))) == frames
    ensures ChatLayout.EndingOf(ClientReply(ChatRoute.EventStream(frames, closed))) ==
      if closed then ChatLayout.Completed else ChatLayout.Failed
  {
    var tail: seq<ChatLayout.ReadEvent> := if closed then [] else [ChatLayout.ReadError("")];
    ChunkReads(frames, tail);
    if !closed {
      assert tail[1..] == [];
    }
  }

  /** An error response (any failure before streaming) leaves only the user message. */
  lemma RejectedExchange(prior: seq<ChatMessage>, userId: nat, parts: seq<MessagePart>, status: nat, body: string)
    requires ChatLayout.IdsBelow(prior, userId)
    ensures ChatLayout.SendOutcome(prior, userId, parts, ClientReply(ChatRoute.ErrorResponse(status, body))) ==
      prior + [ChatLayout.UserMessage(userId, parts)]
  {
    ChatLayout.SendFailureDropsModelMessage(prior, userId, parts, ChatLayout.ErrorStatus);
  }
}
