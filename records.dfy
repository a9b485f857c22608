/**
 * The records that flow between the pipeline's stages: chunk metadata (a
 * string-keyed dictionary in the program), chat turns and the shapes of the
 * upload and chat responses.
 */
module Records {
  import opened PyStr

  /** A metadata value: the program stores integers (page, chunk) and strings (session id). */
  datatype MetaValue = MInt(i: int) | MStr(s: string)

  /** A chunk's metadata dictionary. */
  type Metadata = map<string, MetaValue>

  /** `f"{v}"` of a metadata value. */
  function Format(v: MetaValue): string {
    match v
    case MInt(i) => IntToString(i)
    case MStr(s) => s
  }

  /** `d.get(key, default)`. */
  function Get(d: Metadata, key: string, default: MetaValue): MetaValue {
    if key in d then d[key] else default
  }

  /** The speaker of one message sent to the generation provider. */
  datatype Role = System | User | Assistant

  datatype Message = Message(role: Role, content: string)

  /** A prior turn supplied by the caller: only `user` and `assistant` are accepted. */
  type HistoryTurn = m: Message | m.role != System witness Message(User, "")

  datatype ChatRequest = ChatRequest(
    sessionId: string,
    userMessage: string := "",
    history: seq<HistoryTurn> := [],
    lead: bool := false)

  /** One UI-facing source preview: `{"page": page, "excerpt": preview}`. */
  datatype SourcePreview = SourcePreview(page: MetaValue, excerpt: string)

  datatype ChatResponse = ChatResponse(aiMessage: string, sources: seq<SourcePreview>)

  datatype UploadResponse = UploadResponse(
    sessionId: string,
    summary: string,
    pageCount: nat,
    chunkCount: nat)

  /** An HTTP error response: status code and detail text. */
  datatype HttpError = HttpError(status: int, detail: string)
}
