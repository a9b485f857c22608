# RAG Socratic research mentor: ingestion and retrieval core in Dafny

The backend takes a PDF upload and normalises the text of every page. It cuts
each page into overlapping 1200-character windows numbered by page and chunk.
It embeds the chunks in batches of 64 into a per-session vector collection
(`paper_<session id>`) and asks a chat provider for an accessible summary. On
each chat turn it retrieves the four nearest chunks. It formats them as
page-tagged context blocks and source previews, then sends the persona, the
context, the prior turns and one final user turn to the provider.

The model covers that bookkeeping:

- `Windows`: generic fixed-size overlapping windows. They serve both the page
  chunks (1200/200) and the upsert batches (64/0).
- `Extraction`: the per-page line normalisation.
- `Segmenter`: `split_text` and `chunk_pages`.
- `VectorIndex`: the id, metadata, cap and batch logic of `upsert_chunks`,
  and the result shaping of `query_chunks`. The vector store is a class
  whose collections map a name to the add calls it has received.
- `Summary`: the request built by `generate_accessible_summary`.
- `Chat` and `Upload`: the two HTTP handlers of backend/main.py.
- `PyStr`, `Records` and `Util`: Python string built-ins, the record shapes
  and small helpers.

The foreign collaborators are function parameters of the operations that use
them:

- The embedding call is `embed: seq<string> -> Result<seq<Vector>, string>`.
  A `Failure` stands for the exception it raises.
- The collection's nearest-neighbour search is `search`. It takes the add
  calls the collection holds, the query vector and `k`, and returns the first
  row of each field of Chroma's answer.
- The chat provider is `complete: seq<Message> -> Result<string, string>`.
- What pypdf yields for the stored file is the input `rawPages`. It is either
  each page's extracted text (or `None`) or the message of the error the
  reader raised.
- The `uuid4().hex` of `persist_pdf` is the input `fileId`.
- The parsed `MAX_EMBED_CHUNKS` is an `Option<int>`, with `None` when the
  variable is unset, empty or not a number.

## Model

| member | source | states |
|---|---|---|
| Windows.CountSpec | backend/rag.py:47-55 | window `k` exists exactly when the text is non-empty and window `k-1` stopped short of the end |
| Windows.StartIsProduct | backend/rag.py:53 | the cursor before window `i` is `i * (chunk_size - overlap)` |
| Windows.StartInside | backend/rag.py:47-48 | every window starts inside the text and ends at or before its end |
| Windows.InnerWindowFull | backend/rag.py:48-53 | every window but the last is full and stops short of the end |
| Windows.LastWindowEnds | backend/rag.py:51-52 | a non-empty text has a window, and the last one ends at `len(text)` |
| Windows.SplitEmpty | backend/rag.py:42-43 | there is no window exactly when the text is empty |
| Windows.SplitLengths | backend/rag.py:48-52 | every window has 1 to `chunk_size` items, all but the last exactly `chunk_size`, and the last ends at the end |
| Windows.SplitAt | backend/rag.py:48-49 | window `i` is `text[i*(size-overlap) : min(i*(size-overlap)+size, n)]` |
| Windows.SplitOverlap | backend/rag.py:48-53 | consecutive windows share exactly `overlap` items: the tail of one is the head of the next |
| Windows.DropWindow | backend/rag.py:53 | a later window without its first `overlap` items starts where the previous window ended |
| Windows.ReassembleStep | backend/rag.py:48-55 | adding one more window, minus its overlap, extends the reassembled prefix to that window's end |
| Windows.ReassemblePrefix | backend/rag.py:48-55 | the first `k` windows, reassembled, are the text up to window `k-1`'s end |
| Windows.ReassembleSplit | backend/rag.py:48-55 | window 0 followed by every later window minus its first `overlap` items is the whole text |
| Windows.PartitionCount | backend/rag.py:102 | with no overlap there are `ceil(n / size)` windows, as many as `range(0, n, size)` yields |
| Segmenter.SplitText | backend/rag.py:40-56 | the cursor loop emits exactly the windows of the text, in order |
| Segmenter.ChunkMetas | backend/rag.py:59-69 | the metadata list is as long as the chunk-text list |
| Segmenter.ChunkPages | backend/rag.py:59-69 | the nested loops produce exactly the flat chunk texts and their metadata |
| Segmenter.PageMetasSnoc | backend/rag.py:66-68 | numbering one more part of a page appends `{"page": p, "chunk": k}` |
| Segmenter.ChunkPagesStep | backend/rag.py:63-68 | taking one more page appends that page's windows and their metadata |
| Segmenter.ChunkMetaInjective | backend/rag.py:68 | a chunk's metadata determines its page and chunk number |
| Segmenter.ChunkPrefix | backend/rag.py:63-68 | the chunks of the first `j` pages are a prefix of all chunks, in both lists |
| Segmenter.ChunkLocate | backend/rag.py:63-68 | part `ci` of page `i` sits at the page's offset plus `ci`, with text window `ci` and metadata `{"page": i+1, "chunk": ci}` |
| Segmenter.EmptyPageNoChunks | backend/rag.py:42-68 | an empty page adds no chunk, so the next page's chunks start where its would have |
| Segmenter.NoChunksIffEmptyPages | backend/rag.py:59-69 | no chunk comes out exactly when every page is empty |
| Segmenter.ChunkProvenance | backend/rag.py:63-68 | every flat chunk is part `c` of some non-empty page `p`, with matching text and metadata |
| Segmenter.ChunkMetasDistinct | backend/rag.py:63-68 | no two chunks of one document carry the same metadata |
| Segmenter.TwoPageExample | backend/rag.py:40-69 | a 1500-character page then an empty one give `[0,1200)` and `[1000,1500)`, both tagged page 1 |
| Extraction.Pieces | backend/rag.py:35 | the line pieces of a text contain no line break |
| Extraction.PiecesRejoin | backend/rag.py:35 | the pieces are the text cut at its line breaks: joined with `"\n"` they give the text with every break written `"\n"` |
| Extraction.ExtractPages | backend/rag.py:32-37 | one normalised page per page the reader yields, `None` read as `""` |
| Extraction.KeptLines | backend/rag.py:35 | every kept line is non-empty and stripped |
| Extraction.KeptNoLineBreak | backend/rag.py:35 | keeping lines brings in no line break |
| Extraction.KeptOfKept | backend/rag.py:35 | stripped non-empty lines are all kept, unchanged |
| Extraction.PiecesOfJoin | backend/rag.py:35 | splitting a `"\n"`-join of break-free lines gives the lines back |
| Extraction.NormalisedLines | backend/rag.py:35 | a normalised page's lines are exactly the stripped non-blank input lines, none empty and none with outer whitespace |
| Extraction.NormaliseIdempotent | backend/rag.py:35 | normalising twice is normalising once |
| Extraction.NormaliseEmpty | backend/rag.py:35 | a page normalises to `""` exactly when its text is whitespace only |
| Extraction.MissingTextIsEmpty | backend/rag.py:33 | a page with no extracted text is stored as `""` |
| PyStr.StripSpec | backend/rag.py:35 | `strip()` returns a slice of its input with no whitespace at either end, everything cut off before and after it is whitespace, and it is empty exactly when the input is all whitespace |
| PyStr.StripBorders | backend/rag.py:35 | everything `strip()` cuts off before and after the kept slice is whitespace |
| PyStr.StripIdempotent | backend/rag.py:35 | stripping a stripped string changes nothing |
| PyStr.JoinWithContains | backend/main.py:90 | every part of a join occurs in the joined string |
| PyStr.RFind | backend/main.py:54 | `rfind` returns the last position of the character, or -1 |
| PyStr.IntToStringInjective | backend/rag.py:78 | different integers format to different decimal strings |
| VectorIndex.VectorStore.constructor | backend/rag.py:13-17 | a client over an empty database directory has no collection |
| VectorIndex.VectorStore.GetOrCreate | backend/rag.py:75 | the named collection exists afterwards, keeping what it held; nothing else changes |
| VectorIndex.VectorStore.Add | backend/rag.py:108 | one add call is appended to the named collection; nothing else changes |
| VectorIndex.WithCollection | backend/rag.py:75 | the named collection is present with its old contents, and the others are untouched |
| VectorIndex.CollectionNameInjective | backend/rag.py:74 | different sessions use different collections |
| VectorIndex.AttachSessionSpec | backend/rag.py:81-85 | a stored metadata record is the input record plus `session_id`, with every other key unchanged |
| VectorIndex.ChunkIdOfChunkMeta | backend/rag.py:78 | the id of chunk `c` of page `p` is `"{sid}_p{p}_c{c}"` |
| VectorIndex.ChunkIdInjective | backend/rag.py:78 | within one session, distinct (page, chunk) pairs get distinct ids |
| VectorIndex.UploadIdsDistinct | backend/rag.py:78 | no two chunks of one upload get the same id |
| VectorIndex.CapSpec | backend/rag.py:88-97 | under a positive cap `N` the first `min(N, len)` items are kept, otherwise all are |
| VectorIndex.UpsertChunks | backend/rag.py:72-108 | the session's collection receives exactly the add calls the model computes; the error is that of the first failing embedding |
| VectorIndex.AddBatches | backend/rag.py:99-108 | the batch loop adds the batches in order and stops at the first failing embedding |
| VectorIndex.AddBatch | backend/rag.py:104-108 | one batch is embedded and then added, or on failure nothing is added |
| VectorIndex.BatchesAt | backend/rag.py:102-106 | batch `b` of each list is the slice `[64b, min(64b+64, n))` |
| VectorIndex.BatchFailed | backend/rag.py:107 | a failing embedding ends the upsert with that error |
| VectorIndex.BatchAdded | backend/rag.py:107-108 | a successful embedding appends the next add call |
| VectorIndex.AddCallsStop | backend/rag.py:107 | after the first failure no further batch is embedded or added |
| VectorIndex.AddCallsShape | backend/rag.py:102-108 | every batch is embedded and added, in order, up to the first failing embedding |
| VectorIndex.FlattenIsReassemble | backend/rag.py:102-106 | without overlap, reassembling windows is concatenating them |
| VectorIndex.BatchPrefix | backend/rag.py:102-106 | the first `j` batches are the first `min(64j, n)` items |
| VectorIndex.BatchesCover | backend/rag.py:100-106 | the batches of a list concatenate to the list, there are `ceil(n/64)` of them, and each holds 1 to 64 items |
| VectorIndex.BatchesAligned | backend/rag.py:104-106 | lists of one length are cut at the same places |
| VectorIndex.BatchedAll | backend/rag.py:99-108 | a successful batch run stores every document, id and record once and in order, aligned, each batch with its own embedding |
| VectorIndex.UpsertStoresAll | backend/rag.py:72-108 | a successful upsert stores every kept chunk once and in order, aligned, in `ceil(N/64)` add calls |
| VectorIndex.BatchedStops | backend/rag.py:102-108 | on failure the stored documents are the first `64 * calls` items, fewer than all, and the next batch failed |
| VectorIndex.UpsertStopsAtFailure | backend/rag.py:72-108 | a failed upsert leaves a strict prefix of the kept chunks stored, 64 per call |
| VectorIndex.Zip3 | backend/rag.py:123-128 | as long as the shortest list, with triple `i` at position `i` |
| VectorIndex.ShapeResults | backend/rag.py:119-129 | the loop builds exactly the zipped results |
| VectorIndex.QueryChunks | backend/rag.py:111-129 | the session's collection is created if missing and searched; the result is the model's query answer |
| VectorIndex.QueryResultsShape | backend/rag.py:120-128 | one result per zipped triple, in order; the score is absent exactly when the distance is; a missing field gives no results |
| VectorIndex.QueryFails | backend/rag.py:116 | a query fails exactly when the query's embedding fails or comes back empty |
| VectorIndex.QueryReadsUpsertedCollection | backend/rag.py:74 | a query searches exactly what that session's upserts added, and another session's upsert leaves it alone |
| Summary.SummaryContext | backend/rag.py:136-137 | the excerpt is the first `min(len, 30000)` characters of the text |
| Summary.SummaryRequestShape | backend/rag.py:139-149 | one system message with the fixed instruction, then one user message whose middle is exactly the excerpt |
| Summary.SummaryIgnoresTail | backend/rag.py:136-137 | texts that agree on their first 30000 characters give the same request |
| Chat.RetrievalQuery | backend/main.py:78 | the query is the raw message when non-empty, otherwise `"paper overview"`, and never empty |
| Chat.ContextBlock | backend/main.py:85 | a block starts with `"[p."` and ends with the chunk's text |
| Chat.PageTag | backend/main.py:82-88 | a chunk whose metadata gives page `p` is tagged `[p.{p}] ` before its text, and its preview carries page `p` |
| Chat.MissingPageTag | backend/main.py:82-88 | a chunk with no page is tagged `?` in its block and its preview |
| Chat.Preview | backend/main.py:87 | the text itself when at most 220 characters, otherwise its first 220 and `"…"`; never over 221 |
| Chat.FinalTurn | backend/main.py:101-106 | the lead instruction when `lead` is set or the stripped message is empty, otherwise the stripped message |
| Chat.HandleChat | backend/main.py:75-112 | the session's collection is created if missing; the reply is the model's reply |
| Chat.CollectBlocks | backend/main.py:81-88 | the loop builds one block and one preview per result, in order |
| Chat.CollectMessages | backend/main.py:93-98 | persona, context, then the history unchanged and in order |
| Chat.ChatMessagesShape | backend/main.py:93-108 | `len(history) + 3` messages: persona, context holding the context string, history unchanged, one final user turn; only the first two are system messages |
| Chat.ContextPlaceholder | backend/main.py:90 | the placeholder is used exactly when nothing was retrieved |
| Chat.ContextHasEveryBlock | backend/main.py:85-90 | every retrieved chunk's block occurs in the context string |
| Chat.ChatOutcome | backend/main.py:78-112 | a turn fails exactly when retrieval or the provider fails; on success, the provider's text and one preview per result, in order |
| Upload.PdfNameSpec | backend/main.py:37 | a name is accepted exactly when it ends in a dot followed by `p`, `d`, `f` in either case |
| Upload.BasenameOfJoin | backend/main.py:54 | the basename of a slash-free name joined onto a directory is the name |
| Upload.BasenameAfterSlash | backend/main.py:54 | the basename of a slash-free name after a slash is the name |
| Upload.StemOfPdfName | backend/main.py:54 | the stem of `<id>.pdf` is the id, for an id with no dot or slash |
| Upload.SessionIdRoundTrip | backend/main.py:54 | the session id read back from the stored path is the id the file was stored under |
| Upload.SessionIdOfUuid | backend/rag.py:155-156 | a `uuid4().hex` comes back as the session id |
| Upload.UploadPdf | backend/main.py:35-72 | the answer and the collections afterwards are those of the model of the whole request |
| Upload.NoTextIffBlankPages | backend/main.py:48-51 | no chunk exactly when every page's text is missing or whitespace only |
| Upload.UploadRejections | backend/main.py:37-58 | 400 exactly for a non-PDF name, an unreadable PDF or text-free pages, with their details and nothing indexed; any other failure is 500 |
| Upload.IngestStatus | backend/main.py:48-58 | after extraction, 400 exactly when there is no chunk, and then nothing changes; a failed upsert gives 500 with `"Embedding/DB failure: "` and its error; a successful upsert makes the request succeed |
| Upload.IngestIndexFailure | backend/main.py:55-58 | a 500 leaves a strict prefix of the kept chunks stored, 64 per call, and no other collection touched |
| Upload.IngestSuccessAnswer | backend/main.py:60-72 | a success reports the session id, the page count, the pre-cap chunk count and the provider's summary or its error note |
| Upload.IngestSuccessStores | backend/main.py:55-56 | a success stores every kept chunk once, in order, within the cap; no other collection changes |
| Upload.UploadIngests | backend/main.py:37-54 | past the suffix check and the reading, an upload is the ingest of the normalised pages under the stored id |
| Upload.SummaryFailureNonFatal | backend/main.py:60-72 | whatever the provider does, the request succeeds or fails alike, with the same counts and the same indexing |

## Left out

- PDF parsing and decryption are pypdf's job (backend/rag.py:23-31). What the reader yields is the `rawPages` input. A reader error, including one on a later page, is a `Failure` of the whole read, as in the code.
- `persist_pdf`'s directory creation, file write and `uuid4` are I/O and randomness. The path is modelled as `os.path.join`, and the id is the input `fileId`.
- Chroma's persistence, client caching and nearest-neighbour ranking are left out. `add` is modelled as appending one add call to the collection, and the search is the `search` parameter. Nothing is claimed about re-adding an existing id.
- `VectorIndex.VectorStore.Add`, the `search` parameter and `Upload.UploadPdf` model Chroma and the file system as never failing. These failures are left out:
  - In the code, opening the client, `get_or_create_collection` and `collection.add` can each raise (backend/rag.py:73-75, 108). Inside `upsert_chunks` that becomes the 500 "Embedding/DB failure" (backend/main.py:55-58), with earlier batches kept.
  - A raising `collection.query` (backend/rag.py:117) fails the chat request.
  - A failing `persist_pdf` (backend/main.py:41) is an unhandled 500.
  - So the model's 500 for an upload covers embedding failures only.
- The embedding and chat providers (backend/openai_client.py) are parameters. Their exceptions are `Failure` results. In `chat` such a failure propagates as the request's failure.
- The prompt texts of backend/prompts.py are the `Prompts` parameter: the persona, and the context template split at `{context}`.
- Float conversion of distances is not modelled. A score is an `Option<real>` passed through unchanged.
- The provider temperatures (0.3 and 0.4) are not modelled.
- FastAPI routing, async I/O, CORS and the health route are not modelled.
- Streamlit `app.py` is not modelled.
- Reading `MAX_EMBED_CHUNKS` from the environment and `int()` parsing of it are not modelled. The cap is an `Option<int>` input.
- `Lower` is ASCII lower-casing. Unicode case mapping, relevant only for non-ASCII file names, is not modelled.
- `Segmenter.SplitText`: negative overlap is not modelled, and neither is `overlap >= chunk_size`. On a negative overlap the program's loop skips characters between windows, and loops forever on `overlap >= chunk_size` once the text is longer than `chunk_size`. The model requires `0 <= overlap < chunk_size`. The program only calls it with 1200/200.
- `Extraction.Pieces` splits at every line-break character. `str.splitlines` also treats `"\r\n"` as one break and yields no piece after a final break. Those differences only produce empty pieces, which the normaliser drops.
- Python's mutation of the caller's list and dict objects has no counterpart. Metadata records are values, so the caller's records cannot change.
- In the code, a batch that fails after earlier batches were added leaves those batches stored. `Upload.IngestIndexFailure` states what remains.
- `chunk_count` is the number of chunks before the `MAX_EMBED_CHUNKS` cap, as in backend/main.py:71.
