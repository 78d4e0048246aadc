/** The records shared by the chat client and the chat endpoint (src/lib/types.ts). */
module Types {
  import opened Wrappers

  /** One piece of a message: text, or an inline image given as base64 data. */
  datatype MessagePart =
    | TextPart(text: string)
    | ImagePart(mimeType: string, data: string)

  datatype Role = User | Model

  /** Attribution metadata from the model; passed through, never interpreted. */
  datatype Citation = Citation(startIndex: nat, endIndex: nat, uri: string, title: string, license: string)

  /**
   * One turn of the transcript. The source's ids are uuids; here they are
   * naturals handed out fresh. The creation timestamp is not modelled.
   */
  datatype ChatMessage = ChatMessage(id: nat, role: Role, parts: seq<MessagePart>, citations: Option<seq<Citation>>)

  /**
   * The payload of one event frame. The three fields are independent: one
   * frame may carry several of them.
   */
  datatype StreamPart = StreamPart(text: Option<string>, citations: Option<seq<Citation>>, error: Option<string>)

  const NoFields := StreamPart(None, None, None)

  function TextEvent(t: string): StreamPart {
    StreamPart(Some(t), None, None)
  }

  function CitationsEvent(cs: seq<Citation>): StreamPart {
    StreamPart(None, Some(cs), None)
  }

  function ErrorEvent(e: string): StreamPart {
    StreamPart(None, None, Some(e))
  }

  /** The client's truthiness test on `text`: the field is present and is not the empty string. */
  predicate CarriesText(p: StreamPart) {
    p.text.Some? && p.text.value != ""
  }

  /** The client's truthiness test on `citations`: any array is truthy, the empty one included. */
  predicate CarriesCitations(p: StreamPart) {
    p.citations.Some?
  }

  /** The client's truthiness test on `error`: the field is present and is not the empty string. */
  predicate CarriesError(p: StreamPart) {
    p.error.Some? && p.error.value != ""
  }
}
