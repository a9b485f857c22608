/**
 * The `chat` handler of backend/main.py: retrieve up to four chunks of the
 * session's paper for the user's message, turn them into page-tagged
 * context blocks and short previews, and ask the chat provider for the
 * mentor's next turn given the persona, the context, the prior turns and
 * the new user turn.
 */
module Chat {
  import opened Util
  import opened PyStr
  import opened Records
  import opened VectorIndex

  /** How many chunks a chat turn retrieves. */
  const RetrievalK: nat := 4

  /** What is retrieved for when the user sent nothing. */
  const OverviewQuery: string := "paper overview"

  /** How many characters of a chunk a source preview shows. */
  const PreviewLength: nat := 220
  const Ellipsis: string := "\U{2026}"

  const BlockSeparator: string := "\n\n---\n\n"
  const NoContext: string := "(no context retrieved)"

  /** The final user turn when the mentor is to open the discussion. */
  const LeadInstruction: string :=
    "Begin the Socratic discussion based on the context. "
    + "First, ask one focused, open-ended question that helps identify the paper's central question or motivation."

  /**
   * The prompt texts of backend/prompts.py, taken as given: the persona, and
   * the context template cut at its `{context}` slot.
   */
  datatype Prompts = Prompts(persona: string, contextBefore: string, contextAfter: string)

  /** The query sent to retrieval: the raw message, or the overview query when it is empty. */
  function RetrievalQuery(userMessage: string): (query: string)
    ensures query != ""
    ensures query == userMessage || query == OverviewQuery
    ensures userMessage != "" ==> query == userMessage
  {
    if userMessage != "" then userMessage else OverviewQuery
  }

  /** `md.get("page", "?")`. */
  function PageOf(r: QueryResult): MetaValue {
    Get(r.metadata, "page", MStr("?"))
  }

  /** `f"[p.{page}] {text}"`. */
  function ContextBlock(r: QueryResult): (block: string)
    ensures |block| >= 4 + |r.text|
    ensures block[..3] == "[p."
    ensures block[|block| - |r.text|..] == r.text
  {
    "[p." + Format(PageOf(r)) + "] " + r.text
  }

  /** A chunk whose metadata gives page `p` is tagged with `p` in decimal, in its block and in its preview. */
  lemma PageTag(r: QueryResult, p: int)
    requires "page" in r.metadata && r.metadata["page"] == MInt(p)
    ensures ContextBlock(r) == "[p." + IntToString(p) + "] " + r.text
    ensures Sources([r]) == [SourcePreview(MInt(p), Preview(r.text))]
  {
  }

  /** A chunk whose metadata has no page is tagged `?`, in its block and in its preview. */
  lemma MissingPageTag(r: QueryResult)
    requires "page" !in r.metadata
    ensures ContextBlock(r) == "[p.?] " + r.text
    ensures Sources([r]) == [SourcePreview(MStr("?"), Preview(r.text))]
  {
  }

  function Blocks(results: seq<QueryResult>): seq<string> {
    seq(|results|, i requires 0 <= i < |results| => ContextBlock(results[i]))
  }

  /** `context_str`: the blocks joined by the separator, or the placeholder. */
  function ContextString(results: seq<QueryResult>): string {
    if |results| == 0 then NoContext else JoinWith(BlockSeparator, Blocks(results))
  }

  /** The UI preview of a chunk: the text itself, or its first 220 characters and an ellipsis. */
  function Preview(text: string): (excerpt: string)
    ensures Min(|text|, PreviewLength) <= |excerpt| <= PreviewLength + 1
    ensures excerpt[..Min(|text|, PreviewLength)] == text[..Min(|text|, PreviewLength)]
    ensures |text| <= PreviewLength ==> excerpt == text
    ensures |text| > PreviewLength ==> |excerpt| == PreviewLength + 1 && excerpt[PreviewLength..] == Ellipsis
  {
    if |text| > PreviewLength then text[..PreviewLength] + Ellipsis else text
  }

  function Sources(results: seq<QueryResult>): seq<SourcePreview> {
    seq(|results|, i requires 0 <= i < |results| => SourcePreview(PageOf(results[i]), Preview(results[i].text)))
  }

  /** The text of the final user turn. */
  function FinalTurn(userMessage: string, lead: bool): (turn: string)
    ensures turn != ""
    ensures lead || Strip(userMessage) == "" ==> turn == LeadInstruction
    ensures !lead && Strip(userMessage) != "" ==> turn == Strip(userMessage) && IsStripped(turn)
  {
    StripSpec(userMessage);
    if lead || Strip(userMessage) == "" then LeadInstruction else Strip(userMessage)
  }

  /** The system message that carries the retrieved context. */
  function ContextMessage(prompts: Prompts, results: seq<QueryResult>): Message {
    Message(System, prompts.contextBefore + ContextString(results) + prompts.contextAfter)
  }

  /** The messages sent to the chat provider. */
  function ChatMessages(prompts: Prompts, results: seq<QueryResult>, req: ChatRequest): seq<Message> {
    [Message(System, prompts.persona), ContextMessage(prompts, results)]
      + req.history
      + [Message(User, FinalTurn(req.userMessage, req.lead))]
  }

  /** One chat turn once the session's collection exists. */
  function ChatReply(
    collection: seq<AddCall>, req: ChatRequest, prompts: Prompts,
    embed: seq<string> -> Result<seq<Vector>, string>,
    search: (seq<AddCall>, Vector, nat) -> RawQuery,
    complete: seq<Message> -> Result<string, string>): Result<ChatResponse, string>
  {
    match Query(collection, RetrievalQuery(req.userMessage), RetrievalK, embed, search)
    case Failure(e) => Failure(e)
    case Success(results) =>
      match complete(ChatMessages(prompts, results, req))
      case Failure(e) => Failure(e)
      case Success(ai) => Success(ChatResponse(ai, Sources(results)))
  }

  /** `chat`. */
  method HandleChat(
    store: VectorStore, req: ChatRequest, prompts: Prompts,
    embed: seq<string> -> Result<seq<Vector>, string>,
    search: (seq<AddCall>, Vector, nat) -> RawQuery,
    complete: seq<Message> -> Result<string, string>)
    returns (r: Result<ChatResponse, string>)
    modifies store
    ensures store.collections == WithCollection(old(store.collections), CollectionName(req.sessionId))
    ensures r == ChatReply(Existing(old(store.collections), CollectionName(req.sessionId)),
                           req, prompts, embed, search, complete)
  {
    var query := if req.userMessage != "" then req.userMessage else OverviewQuery;
    var retrieved := QueryChunks(store, req.sessionId, query, RetrievalK, embed, search);
    if retrieved.Failure? {
      return Failure(retrieved.error);
    }
    var results := retrieved.value;
    var blocks, previews := CollectBlocks(results);
    var contextStr := if |blocks| > 0 then JoinWith(BlockSeparator, blocks) else NoContext;
    assert contextStr == ContextString(results);
    var messages := CollectMessages(prompts, contextStr, req.history);
    var userMessage := Strip(req.userMessage);
    if req.lead || userMessage == "" {
      userMessage := LeadInstruction;
    }
    messages := messages + [Message(User, userMessage)];
    assert messages == ChatMessages(prompts, results, req);
    var reply := complete(messages);
    if reply.Failure? {
      return Failure(reply.error);
    }
    return Success(ChatResponse(reply.value, previews));
  }

  /** The loop of `chat` over the retrieved chunks. */
  method CollectBlocks(results: seq<QueryResult>) returns (blocks: seq<string>, previews: seq<SourcePreview>)
    ensures blocks == Blocks(results)
    ensures previews == Sources(results)
  {
    blocks, previews := [], [];
    for i := 0 to |results|
      invariant blocks == Blocks(results)[..i]
      invariant previews == Sources(results)[..i]
    {
      var page := Get(results[i].metadata, "page", MStr("?"));
      var text := results[i].text;
      blocks := blocks + ["[p." + Format(page) + "] " + text];
      var preview := if |text| > PreviewLength then text[..PreviewLength] + Ellipsis else text;
      previews := previews + [SourcePreview(page, preview)];
    }
  }

  /** The persona and context messages of `chat`, then the prior turns. */
  method CollectMessages(prompts: Prompts, contextStr: string, history: seq<HistoryTurn>)
    returns (messages: seq<Message>)
    ensures messages == [Message(System, prompts.persona),
                         Message(System, prompts.contextBefore + contextStr + prompts.contextAfter)] + history
  {
    messages := [Message(System, prompts.persona)];
    messages := messages + [Message(System, prompts.contextBefore + contextStr + prompts.contextAfter)];
    for i := 0 to |history|
      invariant messages == [Message(System, prompts.persona),
                             Message(System, prompts.contextBefore + contextStr + prompts.contextAfter)] + history[..i]
    {
      messages := messages + [history[i]];
    }
    assert history[..|history|] == history;
  }

  /**
   * The provider sees the persona, then the context, then every prior turn
   * unchanged and in order, then one user turn; only the first two are
   * system messages, and the context message holds the context string
   * between the two halves of the template.
   */
  lemma ChatMessagesShape(prompts: Prompts, results: seq<QueryResult>, req: ChatRequest)
    ensures var msgs := ChatMessages(prompts, results, req);
      var body := msgs[1].content;
      && |msgs| == |req.history| + 3
      && msgs[0] == Message(System, prompts.persona)
      && msgs[1].role == System
      && |body| == |prompts.contextBefore| + |ContextString(results)| + |prompts.contextAfter|
      && body[|prompts.contextBefore|..|body| - |prompts.contextAfter|] == ContextString(results)
      && msgs[2..|msgs| - 1] == req.history
      && msgs[|msgs| - 1] == Message(User, FinalTurn(req.userMessage, req.lead))
      && (forall i :: 2 <= i < |msgs| ==> msgs[i].role != System)
  {
    var msgs := ChatMessages(prompts, results, req);
    var body := msgs[1].content;
    assert body[|prompts.contextBefore|..|body| - |prompts.contextAfter|] == ContextString(results);
    assert msgs[2..|msgs| - 1] == req.history;
    forall i | 2 <= i < |msgs| ensures msgs[i].role != System {
      if i < |msgs| - 1 {
        assert msgs[i] == req.history[i - 2];
      }
    }
  }

  /** The placeholder is used exactly when nothing was retrieved. */
  lemma ContextPlaceholder(results: seq<QueryResult>)
    ensures ContextString(results) == NoContext <==> results == []
  {
    if |results| > 0 {
      var blocks := Blocks(results);
      JoinWithStartsWithFirst(BlockSeparator, blocks);
      var joined := JoinWith(BlockSeparator, blocks);
      assert joined[0] == blocks[0][0] == '[';
      assert NoContext[0] == '(';
    }
  }

  /** Every retrieved chunk's block, page tag and text, appears in the context string. */
  lemma ContextHasEveryBlock(results: seq<QueryResult>, i: nat)
    requires i < |results|
    ensures exists o: nat :: OccursAt(ContextString(results), ContextBlock(results[i]), o)
  {
    JoinWithContains(BlockSeparator, Blocks(results), i);
    assert Blocks(results)[i] == ContextBlock(results[i]);
    assert ContextString(results) == JoinWith(BlockSeparator, Blocks(results));
  }

  /**
   * A chat turn fails exactly when retrieval or the provider fails; when it
   * succeeds, the reply is the provider's text and there is one preview
   * per retrieved chunk, in retrieval order, each at most 221 characters.
   */
  lemma ChatOutcome(
    collection: seq<AddCall>, req: ChatRequest, prompts: Prompts,
    embed: seq<string> -> Result<seq<Vector>, string>,
    search: (seq<AddCall>, Vector, nat) -> RawQuery,
    complete: seq<Message> -> Result<string, string>)
    ensures var q := Query(collection, RetrievalQuery(req.userMessage), RetrievalK, embed, search);
      var r := ChatReply(collection, req, prompts, embed, search, complete);
      && (r.Success? <==> q.Success? && complete(ChatMessages(prompts, q.value, req)).Success?)
      && (r.Success? ==>
            && r.value.aiMessage == complete(ChatMessages(prompts, q.value, req)).value
            && |r.value.sources| == |q.value|
            && forall i :: 0 <= i < |q.value| ==>
                 && r.value.sources[i].page == PageOf(q.value[i])
                 && |r.value.sources[i].excerpt| <= PreviewLength + 1
                 && Preview(q.value[i].text) == r.value.sources[i].excerpt)
  {
  }
}
