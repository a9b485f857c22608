/**
 * `generate_accessible_summary` (backend/rag.py): the paper's text is cut to
 * its first 30000 characters and sent, after a fixed mentor instruction, as
 * a two-message conversation to the chat provider, whose answer is the
 * summary. The provider is the `complete` parameter.
 */
module Summary {
  import opened Util
  import opened PyStr
  import opened Records

  /** `max_context_chars`. */
  const MaxContextChars: nat := 30000

  /** The system instruction of the summary request. */
  const SummaryInstruction: string :=
    "You are an expert mentor. Summarize the paper for a junior researcher in plain language. "
    + "Focus on: problem, motivation, method (high-level), key findings, novelty, and limitations. "
    + "Avoid copying the abstract. Use 5\U{2013}10 concise bullet points, then a one-sentence TL;DR."

  /** The text around the excerpt in the user message. */
  const ExcerptIntro: string := "Here is text extracted from the paper (may be partial):\n\n"
  const ExcerptOutro: string := "\n\nPlease produce the accessible summary."

  /** `full_text[:max_context_chars]`: the part of the paper the provider is shown. */
  function SummaryContext(fullText: string): (context: string)
    ensures |context| == Min(|fullText|, MaxContextChars) <= MaxContextChars
    ensures context == fullText[..|context|]
    ensures |fullText| <= MaxContextChars ==> context == fullText
  {
    Take(fullText, MaxContextChars)
  }

  /** The user message that carries the excerpt. */
  function ExcerptMessage(context: string): string {
    ExcerptIntro + context + ExcerptOutro
  }

  /** The `messages` list of the summary request. */
  function SummaryMessages(fullText: string): seq<Message> {
    [Message(System, SummaryInstruction), Message(User, ExcerptMessage(SummaryContext(fullText)))]
  }

  /** The summary, or the message of the provider's error. */
  function GenerateSummary(fullText: string, complete: seq<Message> -> Result<string, string>): Result<string, string> {
    complete(SummaryMessages(fullText))
  }

  /**
   * The request is one system message with the fixed instruction and one
   * user message in which the excerpt, between a fixed introduction and a
   * fixed closing line, is exactly the paper's first 30000 characters.
   */
  lemma SummaryRequestShape(fullText: string)
    ensures var msgs := SummaryMessages(fullText);
      var body := msgs[1].content;
      && |msgs| == 2
      && msgs[0] == Message(System, SummaryInstruction)
      && msgs[1].role == User
      && |ExcerptIntro| + |ExcerptOutro| <= |body| <= |ExcerptIntro| + MaxContextChars + |ExcerptOutro|
      && body[..|ExcerptIntro|] == ExcerptIntro
      && body[|body| - |ExcerptOutro|..] == ExcerptOutro
      && body[|ExcerptIntro|..|body| - |ExcerptOutro|] == fullText[..Min(|fullText|, MaxContextChars)]
  {
    var context := SummaryContext(fullText);
    var body := ExcerptMessage(context);
    assert body == ExcerptIntro + context + ExcerptOutro;
    assert body[..|ExcerptIntro|] == ExcerptIntro;
    assert body[|body| - |ExcerptOutro|..] == ExcerptOutro;
    assert body[|ExcerptIntro|..|body| - |ExcerptOutro|] == context;
  }

  /**
   * Text past the first 30000 characters never reaches the provider: two
   * papers that agree on their first 30000 characters get the same request.
   */
  lemma SummaryIgnoresTail(a: string, b: string)
    requires |a| >= MaxContextChars && |b| >= MaxContextChars
    requires a[..MaxContextChars] == b[..MaxContextChars]
    ensures SummaryMessages(a) == SummaryMessages(b)
  {
    assert SummaryContext(a) == SummaryContext(b);
  }
}
