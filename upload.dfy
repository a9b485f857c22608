/**
 * The `upload_pdf` handler of backend/main.py with `persist_pdf` of
 * backend/rag.py: check the file name, store the file under a fresh id,
 * extract and chunk its pages, index the chunks under the session id read
 * back from the stored file's name, and summarise the paper. Each failure
 * before the summary ends the request with its own status; a failing
 * summary only replaces the summary text.
 */
module Upload {
  import opened Util
  import opened PyStr
  import opened Records
  import opened Extraction
  import opened Segmenter
  import opened VectorIndex
  import opened Summary

  const PdfSuffix: string := ".pdf"

  const NotPdfDetail: string := "Please upload a PDF file."
  const ReadFailurePrefix: string := "Failed to read PDF: "
  const NoTextDetail: string := "No extractable text found in PDF."
  const IndexFailurePrefix: string := "Embedding/DB failure: "
  const SummaryFailurePrefix: string := "Summary unavailable due to an error: "

  /** `filename.lower().endswith(".pdf")`. */
  predicate IsPdfName(filename: string) {
    EndsWith(Lower(filename), PdfSuffix)
  }

  /** The suffix check ignores the case of ASCII letters and nothing else. */
  lemma PdfNameSpec(filename: string)
    ensures IsPdfName(filename) <==>
      && |filename| >= 4
      && filename[|filename| - 4] == '.'
      && AsciiLower(filename[|filename| - 3]) == 'p'
      && AsciiLower(filename[|filename| - 2]) == 'd'
      && AsciiLower(filename[|filename| - 1]) == 'f'
  {
    var low := Lower(filename);
    var n := |filename|;
    if n >= 4 {
      var tail := low[n - 4..];
      assert tail == [low[n - 4], low[n - 3], low[n - 2], low[n - 1]];
      assert PdfSuffix == ['.', 'p', 'd', 'f'];
      assert AsciiLower(filename[n - 4]) == '.' <==> filename[n - 4] == '.';
    }
  }

  /** `uuid.uuid4().hex`: 32 lower-case hexadecimal digits. */
  predicate IsUuidHex(s: string) {
    |s| == 32 && forall k :: 0 <= k < |s| ==> ('0' <= s[k] <= '9' || 'a' <= s[k] <= 'f')
  }

  /** `os.path.join(directory, name)` on POSIX. */
  function JoinPath(directory: string, name: string): string {
    if |name| > 0 && name[0] == '/' then name
    else if directory == "" || directory[|directory| - 1] == '/' then directory + name
    else directory + "/" + name
  }

  /** Where `persist_pdf` writes the upload: `<upload_dir>/<id>.pdf`. */
  function PersistPath(uploadDir: string, fileId: string): string {
    JoinPath(uploadDir, fileId + PdfSuffix)
  }

  /** `os.path.basename(path)`. */
  function Basename(path: string): string {
    path[RFind(path, '/') + 1..]
  }

  /** Some character of `path[from..to]` is not a dot. */
  predicate HasNonDot(path: string, from: nat, to: nat)
    requires from <= to <= |path|
  {
    exists k :: from <= k < to && path[k] != '.'
  }

  /**
   * `os.path.splitext(path)[0]`: the path without its extension, where the
   * extension starts at the last dot of the last component, unless that
   * component is only dots up to there (then there is no extension).
   */
  function Stem(path: string): string {
    var sep := RFind(path, '/');
    var dot := RFind(path, '.');
    if dot > sep && HasNonDot(path, sep + 1, dot) then path[..dot] else path
  }

  /** The session id `upload_pdf` reads back from the stored file's path. */
  function SessionIdOf(uploadDir: string, fileId: string): string {
    Stem(Basename(PersistPath(uploadDir, fileId)))
  }

  /** A non-empty name with neither a slash nor a dot in it. */
  predicate IsPlainName(s: string) {
    s != "" && forall k :: 0 <= k < |s| ==> s[k] != '/' && s[k] != '.'
  }

  /** Joining a slash-free name onto a directory and taking the basename gives the name back. */
  lemma BasenameOfJoin(directory: string, name: string)
    requires name != "" && forall k :: 0 <= k < |name| ==> name[k] != '/'
    ensures Basename(JoinPath(directory, name)) == name
  {
    if directory == "" || directory[|directory| - 1] == '/' {
      BasenameAfterSlash(directory, name);
    } else {
      var pre := directory + "/";
      assert JoinPath(directory, name) == pre + name;
      BasenameAfterSlash(pre, name);
    }
  }

  /** The basename of a slash-free name after a prefix ending in a slash (or empty) is the name. */
  lemma BasenameAfterSlash(pre: string, name: string)
    requires pre == "" || pre[|pre| - 1] == '/'
    requires forall k :: 0 <= k < |name| ==> name[k] != '/'
    ensures Basename(pre + name) == name
  {
    var full := pre + name;
    assert |pre| > 0 ==> full[|pre| - 1] == '/';
    assert forall k :: |pre| <= k < |full| ==> full[k] != '/' by {
      forall k | |pre| <= k < |full| ensures full[k] != '/' {
        assert full[k] == name[k - |pre|];
      }
    }
    RFindUnique(full, '/', |pre| - 1);
    assert full[|pre|..] == name;
  }

  /** The stem of `<id>.pdf` is the id, for a plain id. */
  lemma StemOfPdfName(fileId: string)
    requires IsPlainName(fileId)
    ensures Stem(fileId + PdfSuffix) == fileId
  {
    var name := fileId + PdfSuffix;
    var n := |fileId|;
    assert forall k :: 0 <= k < |name| ==> name[k] != '/' && (k != n ==> name[k] != '.') by {
      forall k | 0 <= k < |name| ensures name[k] != '/' && (k != n ==> name[k] != '.') {
        if k < n {
          assert name[k] == fileId[k];
        } else {
          assert name[k] == PdfSuffix[k - n];
        }
      }
    }
    assert name[n] == '.';
    RFindUnique(name, '/', -1);
    RFindUnique(name, '.', n);
    assert name[0] != '.';
    assert HasNonDot(name, 0, n);
    assert name[..n] == fileId;
  }

  /**
   * Reading the session id back from the stored path gives the id the file
   * was stored under, whatever the upload directory, for any id that is
   * non-empty and holds neither a slash nor a dot.
   */
  lemma SessionIdRoundTrip(uploadDir: string, fileId: string)
    requires IsPlainName(fileId)
    ensures SessionIdOf(uploadDir, fileId) == fileId
  {
    var name := fileId + PdfSuffix;
    assert forall k :: 0 <= k < |name| ==> name[k] != '/' by {
      forall k | 0 <= k < |name| ensures name[k] != '/' {
        if k < |fileId| {
          assert name[k] == fileId[k];
        } else {
          assert name[k] == PdfSuffix[k - |fileId|];
        }
      }
    }
    BasenameOfJoin(uploadDir, name);
    StemOfPdfName(fileId);
  }

  /** A fresh `uuid4().hex` always comes back as the session id. */
  lemma SessionIdOfUuid(uploadDir: string, fileId: string)
    requires IsUuidHex(fileId)
    ensures SessionIdOf(uploadDir, fileId) == fileId
  {
    SessionIdRoundTrip(uploadDir, fileId);
  }

  /** The normalised text of every page the PDF library yields. */
  function PagesOf(rawPages: seq<Option<string>>): seq<string> {
    seq(|rawPages|, i requires 0 <= i < |rawPages| => PageText(rawPages[i]))
  }

  /** The summary text: the provider's answer, or a note carrying its error. */
  function SummaryText(result: Result<string, string>): string {
    match result
    case Success(s) => s
    case Failure(e) => SummaryFailurePrefix + e
  }

  /** What an upload request leaves behind: its answer and the collections afterwards. */
  datatype Outcome = Outcome(response: Result<UploadResponse, HttpError>, collections: map<string, seq<AddCall>>)

  /**
   * Everything `upload_pdf` does. `rawPages` is what the PDF library yields
   * for the stored file: each page's extracted text, or the message of the
   * error it raised.
   */
  function UploadOutcome(
    c: map<string, seq<AddCall>>, filename: string, uploadDir: string, fileId: string,
    rawPages: Result<seq<Option<string>>, string>, maxChunks: Option<int>,
    embed: seq<string> -> Result<seq<Vector>, string>,
    complete: seq<Message> -> Result<string, string>): Outcome
  {
    if !IsPdfName(filename) then Outcome(Failure(HttpError(400, NotPdfDetail)), c)
    else match rawPages
      case Failure(e) => Outcome(Failure(HttpError(400, ReadFailurePrefix + e)), c)
      case Success(raw) => Ingest(c, PagesOf(raw), SessionIdOf(uploadDir, fileId), maxChunks, embed, complete)
  }

  /** `upload_pdf` from the extracted pages on: chunk, index, summarise. */
  function Ingest(
    c: map<string, seq<AddCall>>, pages: seq<string>, sessionId: string, maxChunks: Option<int>,
    embed: seq<string> -> Result<seq<Vector>, string>,
    complete: seq<Message> -> Result<string, string>): Outcome
  {
    var texts := ChunkTexts(pages, ChunkSize, ChunkOverlap);
    if texts == [] then Outcome(Failure(HttpError(400, NoTextDetail)), c)
    else
      var name := CollectionName(sessionId);
      var up := Upsert(sessionId, texts, ChunkMetas(pages, ChunkSize, ChunkOverlap), maxChunks, embed);
      var after := c[name := Existing(c, name) + up.0];
      if up.1.Some? then Outcome(Failure(HttpError(500, IndexFailurePrefix + up.1.value)), after)
      else
        var summary := SummaryText(GenerateSummary(JoinWith("\n\n", pages), complete));
        Outcome(Success(UploadResponse(sessionId, summary, |pages|, |texts|)), after)
  }

  /** `upload_pdf`. */
  method UploadPdf(
    store: VectorStore, filename: string, uploadDir: string, fileId: string,
    rawPages: Result<seq<Option<string>>, string>, maxChunks: Option<int>,
    embed: seq<string> -> Result<seq<Vector>, string>,
    complete: seq<Message> -> Result<string, string>)
    returns (r: Result<UploadResponse, HttpError>)
    modifies store
    ensures Outcome(r, store.collections)
         == UploadOutcome(old(store.collections), filename, uploadDir, fileId, rawPages, maxChunks, embed, complete)
  {
    if !EndsWith(Lower(filename), PdfSuffix) {
      return Failure(HttpError(400, NotPdfDetail));
    }
    var pdfPath := PersistPath(uploadDir, fileId);
    if rawPages.Failure? {
      return Failure(HttpError(400, ReadFailurePrefix + rawPages.error));
    }
    var pages := ExtractPages(rawPages.value);
    assert pages == PagesOf(rawPages.value);
    var chunkTexts, metadatas := ChunkPages(pages, ChunkSize, ChunkOverlap);
    if |chunkTexts| == 0 {
      return Failure(HttpError(400, NoTextDetail));
    }
    var sessionId := Stem(Basename(pdfPath));
    var err := UpsertChunks(store, sessionId, chunkTexts, metadatas, maxChunks, embed);
    if err.Some? {
      return Failure(HttpError(500, IndexFailurePrefix + err.value));
    }
    var fullText := JoinWith("\n\n", pages);
    var summary: string;
    var generated := GenerateSummary(fullText, complete);
    if generated.Success? {
      summary := generated.value;
    } else {
      summary := SummaryFailurePrefix + generated.error;
    }
    return Success(UploadResponse(sessionId, summary, |pages|, |chunkTexts|));
  }

  /** No chunk comes out of a PDF exactly when every page's text is missing or whitespace only. */
  lemma NoTextIffBlankPages(raw: seq<Option<string>>)
    ensures ChunkTexts(PagesOf(raw), ChunkSize, ChunkOverlap) == []
        <==> forall i :: 0 <= i < |raw| ==> AllSpace(raw[i].GetOr(""))
  {
    var pages := PagesOf(raw);
    NoChunksIffEmptyPages(pages, ChunkSize, ChunkOverlap);
    forall i | 0 <= i < |raw| ensures pages[i] == "" <==> AllSpace(raw[i].GetOr("")) {
      NormaliseEmpty(raw[i].GetOr(""));
    }
  }

  /**
   * The request is refused with 400 exactly when the name lacks the `.pdf`
   * suffix, the PDF cannot be read, or no page has any text; nothing is
   * indexed then. Every other failure is a 500.
   */
  lemma UploadRejections(
    c: map<string, seq<AddCall>>, filename: string, uploadDir: string, fileId: string,
    rawPages: Result<seq<Option<string>>, string>, maxChunks: Option<int>,
    embed: seq<string> -> Result<seq<Vector>, string>,
    complete: seq<Message> -> Result<string, string>)
    ensures var o := UploadOutcome(c, filename, uploadDir, fileId, rawPages, maxChunks, embed, complete);
      var blank := rawPages.Success? && forall i :: 0 <= i < |rawPages.value| ==> AllSpace(rawPages.value[i].GetOr(""));
      && (o.response.Failure? && o.response.error.status == 400 <==> !IsPdfName(filename) || rawPages.Failure? || blank)
      && (o.response.Failure? && o.response.error.status == 400 ==> o.collections == c)
      && (!IsPdfName(filename) ==> o.response == Failure(HttpError(400, NotPdfDetail)))
      && (IsPdfName(filename) && rawPages.Failure? ==> o.response == Failure(HttpError(400, ReadFailurePrefix + rawPages.error)))
      && (IsPdfName(filename) && blank ==> o.response == Failure(HttpError(400, NoTextDetail)))
      && (o.response.Failure? && o.response.error.status != 400 ==> o.response.error.status == 500)
  {
    if IsPdfName(filename) && rawPages.Success? {
      var pages := PagesOf(rawPages.value);
      var sessionId := SessionIdOf(uploadDir, fileId);
      assert UploadOutcome(c, filename, uploadDir, fileId, rawPages, maxChunks, embed, complete)
          == Ingest(c, pages, sessionId, maxChunks, embed, complete);
      NoTextIffBlankPages(rawPages.value);
      IngestStatus(c, pages, sessionId, maxChunks, embed, complete);
    }
  }

  /**
   * An ingest answers 400 exactly when there is no chunk, and then changes
   * nothing. Otherwise a failed upsert answers 500 with the upsert's error
   * after the fixed prefix, and a successful one makes the request succeed.
   */
  lemma IngestStatus(
    c: map<string, seq<AddCall>>, pages: seq<string>, sessionId: string, maxChunks: Option<int>,
    embed: seq<string> -> Result<seq<Vector>, string>,
    complete: seq<Message> -> Result<string, string>)
    ensures var o := Ingest(c, pages, sessionId, maxChunks, embed, complete);
      && (o.response.Failure? && o.response.error.status == 400 <==> ChunkTexts(pages, ChunkSize, ChunkOverlap) == [])
      && (ChunkTexts(pages, ChunkSize, ChunkOverlap) == [] ==> o == Outcome(Failure(HttpError(400, NoTextDetail)), c))
      && (o.response.Failure? && o.response.error.status != 400 ==> o.response.error.status == 500)
    ensures var o := Ingest(c, pages, sessionId, maxChunks, embed, complete);
      var texts := ChunkTexts(pages, ChunkSize, ChunkOverlap);
      var up := Upsert(sessionId, texts, ChunkMetas(pages, ChunkSize, ChunkOverlap), maxChunks, embed);
      && (texts != [] && up.1.Some? ==> o.response == Failure(HttpError(500, IndexFailurePrefix + up.1.value)))
      && (texts != [] && up.1.None? ==> o.response.Success?)
  {
  }

  /**
   * When indexing fails, the batches before the failing one stay stored in
   * the session's collection: a strict prefix of the kept chunks, 64 per
   * add call. No other collection changes.
   */
  lemma IngestIndexFailure(
    c: map<string, seq<AddCall>>, pages: seq<string>, sessionId: string, maxChunks: Option<int>,
    embed: seq<string> -> Result<seq<Vector>, string>,
    complete: seq<Message> -> Result<string, string>)
    requires Ingest(c, pages, sessionId, maxChunks, embed, complete).response.Failure?
    requires Ingest(c, pages, sessionId, maxChunks, embed, complete).response.error.status == 500
    ensures var after := Ingest(c, pages, sessionId, maxChunks, embed, complete).collections;
      var kept := Cap(ChunkTexts(pages, ChunkSize, ChunkOverlap), maxChunks);
      var name := CollectionName(sessionId);
      var added := after[name][|Existing(c, name)|..];
      && name in after && after[name][..|Existing(c, name)|] == Existing(c, name)
      && BatchSize * |added| < |kept|
      && Flatten(Documents(added)) == kept[..BatchSize * |added|]
      && (forall n :: n != name ==> (n in after <==> n in c) && (n in c ==> after[n] == c[n]))
  {
    var texts := ChunkTexts(pages, ChunkSize, ChunkOverlap);
    var metas := ChunkMetas(pages, ChunkSize, ChunkOverlap);
    var name := CollectionName(sessionId);
    var calls := Upsert(sessionId, texts, metas, maxChunks, embed).0;
    assert Ingest(c, pages, sessionId, maxChunks, embed, complete).collections
        == c[name := Existing(c, name) + calls];
    assert (Existing(c, name) + calls)[|Existing(c, name)|..] == calls;
    UpsertStopsAtFailure(sessionId, texts, metas, maxChunks, embed);
  }

  /**
   * A successful ingest answers with the session id, the number of pages
   * and the number of chunks before the cap. The summary is the provider's
   * answer, or the note about its error.
   */
  lemma IngestSuccessAnswer(
    c: map<string, seq<AddCall>>, pages: seq<string>, sessionId: string, maxChunks: Option<int>,
    embed: seq<string> -> Result<seq<Vector>, string>,
    complete: seq<Message> -> Result<string, string>)
    requires Ingest(c, pages, sessionId, maxChunks, embed, complete).response.Success?
    ensures var r := Ingest(c, pages, sessionId, maxChunks, embed, complete).response.value;
      && r.sessionId == sessionId
      && r.pageCount == |pages|
      && r.chunkCount == |ChunkTexts(pages, ChunkSize, ChunkOverlap)| > 0
      && r.summary == SummaryText(complete(SummaryMessages(JoinWith("\n\n", pages))))
  {
  }

  /**
   * After a successful ingest the session's collection has received every
   * kept chunk once and in order: all of them, or the first `N` under a
   * positive cap `N`. No other collection changes.
   */
  lemma IngestSuccessStores(
    c: map<string, seq<AddCall>>, pages: seq<string>, sessionId: string, maxChunks: Option<int>,
    embed: seq<string> -> Result<seq<Vector>, string>,
    complete: seq<Message> -> Result<string, string>)
    requires Ingest(c, pages, sessionId, maxChunks, embed, complete).response.Success?
    ensures var after := Ingest(c, pages, sessionId, maxChunks, embed, complete).collections;
      var texts := ChunkTexts(pages, ChunkSize, ChunkOverlap);
      var name := CollectionName(sessionId);
      var added := after[name][|Existing(c, name)|..];
      && name in after && after[name][..|Existing(c, name)|] == Existing(c, name)
      && Flatten(Documents(added)) == Cap(texts, maxChunks)
      && |Flatten(Documents(added))| == (if CapApplies(maxChunks) then Min(maxChunks.value, |texts|) else |texts|)
      && (forall n :: n != name ==> (n in after <==> n in c) && (n in c ==> after[n] == c[n]))
  {
    var texts := ChunkTexts(pages, ChunkSize, ChunkOverlap);
    var metas := ChunkMetas(pages, ChunkSize, ChunkOverlap);
    var name := CollectionName(sessionId);
    var up := Upsert(sessionId, texts, metas, maxChunks, embed);
    var after := c[name := Existing(c, name) + up.0];
    assert texts != [] && up.1 == None && Ingest(c, pages, sessionId, maxChunks, embed, complete).collections == after;
    assert after[name][|Existing(c, name)|..] == up.0;
    UpsertStoresAll(sessionId, texts, metas, maxChunks, embed);
    CapSpec(texts, maxChunks);
  }

  /**
   * An upload gets past the suffix check and the PDF reading only with a
   * `.pdf` name and readable pages; from there on it is the ingest of the
   * normalised pages under the session id read back from the stored path,
   * which for a fresh `uuid4().hex` is that id.
   */
  lemma UploadIngests(
    c: map<string, seq<AddCall>>, filename: string, uploadDir: string, fileId: string,
    rawPages: Result<seq<Option<string>>, string>, maxChunks: Option<int>,
    embed: seq<string> -> Result<seq<Vector>, string>,
    complete: seq<Message> -> Result<string, string>)
    requires IsPdfName(filename) && rawPages.Success?
    ensures UploadOutcome(c, filename, uploadDir, fileId, rawPages, maxChunks, embed, complete)
         == Ingest(c, PagesOf(rawPages.value), SessionIdOf(uploadDir, fileId), maxChunks, embed, complete)
    ensures |PagesOf(rawPages.value)| == |rawPages.value|
    ensures IsUuidHex(fileId) ==> SessionIdOf(uploadDir, fileId) == fileId
  {
    if IsUuidHex(fileId) {
      SessionIdOfUuid(uploadDir, fileId);
    }
  }

  /**
   * The summary cannot fail the upload: whatever the chat provider does,
   * the request succeeds or fails alike, with the same answer apart from
   * the summary text, and indexes the same add calls.
   */
  lemma SummaryFailureNonFatal(
    c: map<string, seq<AddCall>>, pages: seq<string>, sessionId: string, maxChunks: Option<int>,
    embed: seq<string> -> Result<seq<Vector>, string>,
    complete: seq<Message> -> Result<string, string>,
    complete': seq<Message> -> Result<string, string>)
    ensures var o, o' := Ingest(c, pages, sessionId, maxChunks, embed, complete),
                         Ingest(c, pages, sessionId, maxChunks, embed, complete');
      && o.collections == o'.collections
      && o.response.Success? == o'.response.Success?
      && (o.response.Failure? ==> o.response == o'.response)
      && (o.response.Success? ==>
            && o.response.value.sessionId == o'.response.value.sessionId
            && o.response.value.pageCount == o'.response.value.pageCount
            && o.response.value.chunkCount == o'.response.value.chunkCount)
  {
  }
}
