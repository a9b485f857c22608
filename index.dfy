/**
 * The index side of backend/rag.py: `upsert_chunks` turns one upload's
 * chunks into ids and session-tagged metadata, optionally keeps only a
 * prefix of them, and hands them to the vector collection in batches of 64,
 * embedding each batch first; `query_chunks` embeds a query, asks the
 * collection for its nearest chunks and reshapes the answer. The
 * collection's storage and ranking and the embedding provider are
 * collaborators: the store below only records the `add` calls it receives,
 * and ranking and embedding come in as functions.
 */
module VectorIndex {
  import opened Util
  import opened PyStr
  import opened Windows
  import opened Records
  import opened Segmenter

  /** `BATCH` of `upsert_chunks`. */
  const BatchSize: nat := 64

  type Vector = seq<real>

  /** One `collection.add(ids=…, documents=…, metadatas=…, embeddings=…)` call. */
  datatype AddCall = AddCall(
    ids: seq<string>,
    documents: seq<string>,
    metadatas: seq<Metadata>,
    embeddings: seq<Vector>)

  /** The collections of the vector database, by name, as the add calls each has received. */
  class VectorStore {
    var collections: map<string, seq<AddCall>>

    /** A client over an empty database directory: no collection yet. */
    constructor ()
      ensures collections == map[]
    {
      collections := map[];
    }

    /** `client.get_or_create_collection(name=name)`. */
    method GetOrCreate(name: string)
      modifies this
      ensures collections == WithCollection(old(collections), name)
    {
      if name !in collections {
        collections := collections[name := []];
      }
    }

    /** `collection.add(...)` on the collection called `name`. */
    method Add(name: string, call: AddCall)
      requires name in collections
      modifies this
      ensures collections == old(collections)[name := old(collections)[name] + [call]]
    {
      collections := collections[name := collections[name] + [call]];
    }
  }

  /** The collections after `get_or_create_collection(name)`. */
  function WithCollection(c: map<string, seq<AddCall>>, name: string): (r: map<string, seq<AddCall>>)
    ensures name in r && r[name] == Existing(c, name)
    ensures forall other :: other != name ==> (other in r <==> other in c)
    ensures forall other :: other in c && other != name ==> r[other] == c[other]
  {
    if name in c then c else c[name := []]
  }

  /** What the collection `name` holds so far (nothing if it does not exist yet). */
  function Existing(c: map<string, seq<AddCall>>, name: string): seq<AddCall> {
    if name in c then c[name] else []
  }

  /** `f"paper_{session_id}"`, the collection of one upload. */
  function CollectionName(sessionId: string): string {
    "paper_" + sessionId
  }

  /** Different sessions use different collections. */
  lemma CollectionNameInjective(a: string, b: string)
    requires CollectionName(a) == CollectionName(b)
    ensures a == b
  {
    assert a == CollectionName(a)[6..];
    assert b == CollectionName(b)[6..];
  }

  /** `f"{session_id}_p{m.get('page', 0)}_c{m.get('chunk', 0)}"`. */
  function ChunkId(sessionId: string, m: Metadata): string {
    sessionId + "_p" + Format(Get(m, "page", MInt(0))) + "_c" + Format(Get(m, "chunk", MInt(0)))
  }

  function ChunkIds(sessionId: string, metadatas: seq<Metadata>): seq<string> {
    seq(|metadatas|, i requires 0 <= i < |metadatas| => ChunkId(sessionId, metadatas[i]))
  }

  /** `mi = dict(m); mi["session_id"] = session_id`. */
  function AttachSession(m: Metadata, sessionId: string): Metadata {
    m["session_id" := MStr(sessionId)]
  }

  function StoredMetas(sessionId: string, metadatas: seq<Metadata>): seq<Metadata> {
    seq(|metadatas|, i requires 0 <= i < |metadatas| => AttachSession(metadatas[i], sessionId))
  }

  /**
   * A stored record is the caller's record with `session_id` added (or
   * overwritten) and every other key untouched.
   */
  lemma AttachSessionSpec(m: Metadata, sessionId: string)
    ensures AttachSession(m, sessionId).Keys == m.Keys + {"session_id"}
    ensures AttachSession(m, sessionId)["session_id"] == MStr(sessionId)
    ensures forall k :: k in m && k != "session_id" ==> AttachSession(m, sessionId)[k] == m[k]
  {
  }

  /** The id of a chunk tagged by `chunk_pages` names its page and chunk numbers. */
  lemma ChunkIdOfChunkMeta(sessionId: string, p: int, c: int)
    ensures ChunkId(sessionId, ChunkMeta(p, c)) == sessionId + "_p" + IntToString(p) + "_c" + IntToString(c)
  {
    assert Get(ChunkMeta(p, c), "page", MInt(0)) == MInt(p);
    assert Get(ChunkMeta(p, c), "chunk", MInt(0)) == MInt(c);
  }

  lemma IdTail(sessionId: string, P: string, C: string)
    ensures |sessionId| + 2 <= |sessionId + "_p" + P + "_c" + C|
    ensures (sessionId + "_p" + P + "_c" + C)[|sessionId| + 2..] == P + "_" + ("c" + C)
  {
    var tail := P + "_" + ("c" + C);
    assert sessionId + "_p" + P + "_c" + C == (sessionId + "_p") + tail;
  }

  /** Within one session, distinct (page, chunk) pairs get distinct ids. */
  lemma ChunkIdInjective(sessionId: string, p: int, c: int, p': int, c': int)
    requires ChunkId(sessionId, ChunkMeta(p, c)) == ChunkId(sessionId, ChunkMeta(p', c'))
    ensures p == p' && c == c'
  {
    var P, C, P', C' := IntToString(p), IntToString(c), IntToString(p'), IntToString(c');
    assert P + "_" + ("c" + C) == P' + "_" + ("c" + C') by {
      ChunkIdOfChunkMeta(sessionId, p, c);
      ChunkIdOfChunkMeta(sessionId, p', c');
      IdTail(sessionId, P, C);
      IdTail(sessionId, P', C');
    }
    assert P == P' && "c" + C == "c" + C' by {
      IntToStringNoUnderscore(p);
      IntToStringNoUnderscore(p');
      UnderscoreSplit(P, "c" + C, P', "c" + C');
    }
    assert C == ("c" + C)[1..] && C' == ("c" + C')[1..];
    IntToStringInjective(p, p');
    IntToStringInjective(c, c');
  }

  /** No two chunks of one upload get the same id. */
  lemma UploadIdsDistinct(sessionId: string, pages: seq<string>, g: nat, h: nat)
    requires g < h < |ChunkMetas(pages, ChunkSize, ChunkOverlap)|
    ensures ChunkIds(sessionId, ChunkMetas(pages, ChunkSize, ChunkOverlap))[g]
         != ChunkIds(sessionId, ChunkMetas(pages, ChunkSize, ChunkOverlap))[h]
  {
    var metas := ChunkMetas(pages, ChunkSize, ChunkOverlap);
    ChunkProvenance(pages, g, ChunkSize, ChunkOverlap);
    ChunkProvenance(pages, h, ChunkSize, ChunkOverlap);
    var p: nat, c: nat :| ChunkFrom(pages, g, p, c, ChunkSize, ChunkOverlap);
    var p': nat, c': nat :| ChunkFrom(pages, h, p', c', ChunkSize, ChunkOverlap);
    ChunkMetasDistinct(pages, g, h, ChunkSize, ChunkOverlap);
    if ChunkId(sessionId, metas[g]) == ChunkId(sessionId, metas[h]) {
      ChunkIdInjective(sessionId, p, c, p', c');
      assert false;
    }
  }

  /** Whether `MAX_EMBED_CHUNKS` (already parsed; `None` if unset, empty or not a number) limits the upload. */
  predicate CapApplies(maxChunks: Option<int>) {
    maxChunks.Some? && maxChunks.value > 0
  }

  /** The items kept under the cap. */
  function Cap<T>(s: seq<T>, maxChunks: Option<int>): seq<T> {
    if CapApplies(maxChunks) then Take(s, maxChunks.value) else s
  }

  /**
   * A positive cap keeps the first `N` items of every list, and anything
   * else keeps them all; lists of equal length stay aligned.
   */
  lemma CapSpec<T>(s: seq<T>, maxChunks: Option<int>)
    ensures |Cap(s, maxChunks)| == (if CapApplies(maxChunks) then Min(maxChunks.value, |s|) else |s|)
    ensures Cap(s, maxChunks) == s[..|Cap(s, maxChunks)|]
    ensures !CapApplies(maxChunks) ==> Cap(s, maxChunks) == s
  {
  }

  /** The three lists `upsert_chunks` sends, after the ids, the session tag and the cap. */
  datatype Prepared = Prepared(docs: seq<string>, ids: seq<string>, metas: seq<Metadata>)

  function Prepare(sessionId: string, chunkTexts: seq<string>, metadatas: seq<Metadata>, maxChunks: Option<int>): Prepared {
    Prepared(
      Cap(chunkTexts, maxChunks),
      Cap(ChunkIds(sessionId, metadatas), maxChunks),
      Cap(StoredMetas(sessionId, metadatas), maxChunks))
  }

  /**
   * The add calls made for the first `b` batches, and the error that stopped
   * them: each batch is embedded, and a failing embedding ends the upsert,
   * leaving the batches before it stored.
   */
  function AddCalls(
    docsB: seq<seq<string>>, idsB: seq<seq<string>>, metasB: seq<seq<Metadata>>,
    embed: seq<string> -> Result<seq<Vector>, string>, b: nat): (seq<AddCall>, Option<string>)
    requires b <= |docsB| && |idsB| == |docsB| && |metasB| == |docsB|
  {
    if b == 0 then ([], None)
    else
      var (calls, err) := AddCalls(docsB, idsB, metasB, embed, b - 1);
      if err.Some? then (calls, err)
      else match embed(docsB[b - 1])
        case Failure(e) => (calls, Some(e))
        case Success(embs) => (calls + [AddCall(idsB[b - 1], docsB[b - 1], metasB[b - 1], embs)], None)
  }

  /** The add calls for all batches of three aligned lists. */
  function Batched(
    docs: seq<string>, ids: seq<string>, metas: seq<Metadata>,
    embed: seq<string> -> Result<seq<Vector>, string>): (seq<AddCall>, Option<string>)
    requires |ids| == |docs| && |metas| == |docs|
  {
    AddCalls(
      Split(docs, BatchSize, 0), Split(ids, BatchSize, 0), Split(metas, BatchSize, 0),
      embed, Count(|docs|, BatchSize, 0))
  }

  /** Whole `upsert_chunks`: the add calls made and the error it raises, if any. */
  function Upsert(
    sessionId: string, chunkTexts: seq<string>, metadatas: seq<Metadata>, maxChunks: Option<int>,
    embed: seq<string> -> Result<seq<Vector>, string>): (seq<AddCall>, Option<string>)
    requires |chunkTexts| == |metadatas|
  {
    var p := Prepare(sessionId, chunkTexts, metadatas, maxChunks);
    Batched(p.docs, p.ids, p.metas, embed)
  }

  /** `upsert_chunks`. */
  method UpsertChunks(
    store: VectorStore, sessionId: string, chunkTexts: seq<string>, metadatas: seq<Metadata>,
    maxChunks: Option<int>, embed: seq<string> -> Result<seq<Vector>, string>)
    returns (err: Option<string>)
    requires |chunkTexts| == |metadatas|
    modifies store
    ensures var name := CollectionName(sessionId);
      store.collections
        == old(store.collections)[name := Existing(old(store.collections), name)
                                           + Upsert(sessionId, chunkTexts, metadatas, maxChunks, embed).0]
    ensures err == Upsert(sessionId, chunkTexts, metadatas, maxChunks, embed).1
  {
    var name := CollectionName(sessionId);
    store.GetOrCreate(name);

    var ids := ChunkIds(sessionId, metadatas);
    var metas: seq<Metadata> := [];
    for i := 0 to |metadatas|
      invariant metas == StoredMetas(sessionId, metadatas)[..i]
    {
      var mi := metadatas[i];
      mi := mi["session_id" := MStr(sessionId)];
      metas := metas + [mi];
    }
    assert metas == StoredMetas(sessionId, metadatas);
    var texts := chunkTexts;
    if CapApplies(maxChunks) {
      texts := Take(texts, maxChunks.value);
      ids := Take(ids, maxChunks.value);
      metas := Take(metas, maxChunks.value);
    }
    assert Prepared(texts, ids, metas) == Prepare(sessionId, chunkTexts, metadatas, maxChunks);
    err := AddBatches(store, name, texts, ids, metas, embed);
  }

  /** The batch loop of `upsert_chunks`: embed and add consecutive slices of 64. */
  method AddBatches(
    store: VectorStore, name: string, texts: seq<string>, ids: seq<string>, metas: seq<Metadata>,
    embed: seq<string> -> Result<seq<Vector>, string>)
    returns (err: Option<string>)
    requires |ids| == |texts| && |metas| == |texts|
    requires name in store.collections
    modifies store
    ensures store.collections
         == old(store.collections)[name := old(store.collections)[name] + Batched(texts, ids, metas, embed).0]
    ensures err == Batched(texts, ids, metas, embed).1
  {
    ghost var base := store.collections;
    ghost var docsB, idsB, metasB := Split(texts, BatchSize, 0), Split(ids, BatchSize, 0), Split(metas, BatchSize, 0);
    var n := |texts|;
    PartitionCount(n, BatchSize);
    AppendedNothing(base, name);
    // `for start in range(0, n, BATCH)`: one iteration per batch, `start = b * BATCH`.
    for b := 0 to (n + BatchSize - 1) / BatchSize
      invariant AddCalls(docsB, idsB, metasB, embed, b).1 == None
      invariant store.collections == Appended(base, name, AddCalls(docsB, idsB, metasB, embed, b).0)
    {
      var start := b * BatchSize;
      var end := Min(start + BatchSize, n);
      BatchesAt(texts, ids, metas, b, start, end);
      var failure := AddBatch(store, name, texts[start..end], ids[start..end], metas[start..end], embed);
      if failure.Some? {
        BatchFailed(docsB, idsB, metasB, embed, b);
        return failure;
      }
      BatchAdded(base, name, docsB, idsB, metasB, embed, b);
    }
    return None;
  }

  /** Batch `b` of each of three aligned lists is the slice `[64 * b, min(64 * b + 64, n))`. */
  lemma BatchesAt(texts: seq<string>, ids: seq<string>, metas: seq<Metadata>, b: nat, start: int, end: int)
    requires |ids| == |texts| && |metas| == |texts|
    requires b < (|texts| + BatchSize - 1) / BatchSize
    requires start == b * BatchSize && end == Min(start + BatchSize, |texts|)
    ensures 0 <= start < end <= |texts|
    ensures b < Count(|texts|, BatchSize, 0)
    ensures Split(texts, BatchSize, 0)[b] == texts[start..end]
    ensures Split(ids, BatchSize, 0)[b] == ids[start..end]
    ensures Split(metas, BatchSize, 0)[b] == metas[start..end]
  {
    PartitionCount(|texts|, BatchSize);
    StartIsProduct(b, BatchSize, 0);
    BatchAt(texts, b, start, end);
    BatchAt(ids, b, start, end);
    BatchAt(metas, b, start, end);
  }

  /** A batch whose embedding fails ends the upsert with that error. */
  lemma BatchFailed(
    docsB: seq<seq<string>>, idsB: seq<seq<string>>, metasB: seq<seq<Metadata>>,
    embed: seq<string> -> Result<seq<Vector>, string>, b: nat)
    requires b < |docsB| && |idsB| == |docsB| && |metasB| == |docsB|
    requires AddCalls(docsB, idsB, metasB, embed, b).1 == None
    requires embed(docsB[b]).Failure?
    ensures AddCalls(docsB, idsB, metasB, embed, |docsB|)
         == (AddCalls(docsB, idsB, metasB, embed, b).0, Some(embed(docsB[b]).error))
  {
    AddCallsNext(docsB, idsB, metasB, embed, b);
    AddCallsStop(docsB, idsB, metasB, embed, b + 1, |docsB|);
  }

  /** A batch whose embedding succeeds is appended to the collection as the next add call. */
  lemma BatchAdded(
    base: map<string, seq<AddCall>>, name: string,
    docsB: seq<seq<string>>, idsB: seq<seq<string>>, metasB: seq<seq<Metadata>>,
    embed: seq<string> -> Result<seq<Vector>, string>, b: nat)
    requires name in base
    requires b < |docsB| && |idsB| == |docsB| && |metasB| == |docsB|
    requires AddCalls(docsB, idsB, metasB, embed, b).1 == None
    requires embed(docsB[b]).Success?
    ensures AddCalls(docsB, idsB, metasB, embed, b + 1).1 == None
    ensures var c := Appended(base, name, AddCalls(docsB, idsB, metasB, embed, b).0);
      c[name := c[name] + [AddCall(idsB[b], docsB[b], metasB[b], embed(docsB[b]).value)]]
        == Appended(base, name, AddCalls(docsB, idsB, metasB, embed, b + 1).0)
  {
    AddCallsNext(docsB, idsB, metasB, embed, b);
    AppendedSnoc(base, name, AddCalls(docsB, idsB, metasB, embed, b).0,
      AddCall(idsB[b], docsB[b], metasB[b], embed(docsB[b]).value));
  }

  /** One iteration of the batch loop: `embed_texts(batch_docs)`, then `collection.add(...)`. */
  method AddBatch(
    store: VectorStore, name: string, batchDocs: seq<string>, batchIds: seq<string>, batchMetas: seq<Metadata>,
    embed: seq<string> -> Result<seq<Vector>, string>)
    returns (err: Option<string>)
    requires name in store.collections
    modifies store
    ensures embed(batchDocs).Failure? ==> err == Some(embed(batchDocs).error) && store.collections == old(store.collections)
    ensures embed(batchDocs).Success? ==>
      && err == None
      && store.collections
         == old(store.collections)[name := old(store.collections)[name]
                                           + [AddCall(batchIds, batchDocs, batchMetas, embed(batchDocs).value)]]
  {
    var batchEmbs := embed(batchDocs);
    if batchEmbs.Failure? {
      return Some(batchEmbs.error);
    }
    store.Add(name, AddCall(batchIds, batchDocs, batchMetas, batchEmbs.value));
    return None;
  }

  /** The collections after `calls` are appended to the collection `name`. */
  function Appended(c: map<string, seq<AddCall>>, name: string, calls: seq<AddCall>): map<string, seq<AddCall>>
    requires name in c
  {
    c[name := c[name] + calls]
  }

  lemma AppendedNothing(c: map<string, seq<AddCall>>, name: string)
    requires name in c
    ensures Appended(c, name, []) == c
  {
    assert c[name] + [] == c[name];
  }

  lemma AppendedSnoc(c: map<string, seq<AddCall>>, name: string, calls: seq<AddCall>, call: AddCall)
    requires name in c
    ensures var a := Appended(c, name, calls); a[name := a[name] + [call]] == Appended(c, name, calls + [call])
  {
    assert c[name] + calls + [call] == c[name] + (calls + [call]);
  }

  lemma BatchAt<T>(s: seq<T>, b: nat, start: nat, end: nat)
    requires b < Count(|s|, BatchSize, 0)
    requires start == Start(b, BatchSize, 0) && end == Min(start + BatchSize, |s|)
    ensures start < end <= |s|
    ensures Split(s, BatchSize, 0)[b] == s[start..end]
  {
    StartInside(|s|, BatchSize, 0, b);
  }

  lemma AddCallsNext(
    docsB: seq<seq<string>>, idsB: seq<seq<string>>, metasB: seq<seq<Metadata>>,
    embed: seq<string> -> Result<seq<Vector>, string>, b: nat)
    requires b < |docsB| && |idsB| == |docsB| && |metasB| == |docsB|
    requires AddCalls(docsB, idsB, metasB, embed, b).1 == None
    ensures embed(docsB[b]).Failure? ==>
      AddCalls(docsB, idsB, metasB, embed, b + 1)
        == (AddCalls(docsB, idsB, metasB, embed, b).0, Some(embed(docsB[b]).error))
    ensures embed(docsB[b]).Success? ==>
      AddCalls(docsB, idsB, metasB, embed, b + 1)
        == (AddCalls(docsB, idsB, metasB, embed, b).0
              + [AddCall(idsB[b], docsB[b], metasB[b], embed(docsB[b]).value)], None)
  {
  }

  /** After the first failure no further batch is embedded or added. */
  lemma {:induction false} AddCallsStop(
    docsB: seq<seq<string>>, idsB: seq<seq<string>>, metasB: seq<seq<Metadata>>,
    embed: seq<string> -> Result<seq<Vector>, string>, b: nat, b': nat)
    requires b <= b' <= |docsB| && |idsB| == |docsB| && |metasB| == |docsB|
    requires AddCalls(docsB, idsB, metasB, embed, b).1.Some?
    ensures AddCalls(docsB, idsB, metasB, embed, b') == AddCalls(docsB, idsB, metasB, embed, b)
  {
    if b' > b {
      AddCallsStop(docsB, idsB, metasB, embed, b, b' - 1);
    }
  }

  /** Every batch is embedded and added in order, up to the first failing embedding. */
  lemma {:induction false} AddCallsShape(
    docsB: seq<seq<string>>, idsB: seq<seq<string>>, metasB: seq<seq<Metadata>>,
    embed: seq<string> -> Result<seq<Vector>, string>, b: nat)
    requires b <= |docsB| && |idsB| == |docsB| && |metasB| == |docsB|
    ensures var (calls, err) := AddCalls(docsB, idsB, metasB, embed, b);
      && |calls| <= b
      && (forall i :: 0 <= i < |calls| ==>
            embed(docsB[i]).Success?
            && calls[i] == AddCall(idsB[i], docsB[i], metasB[i], embed(docsB[i]).value))
      && (err.None? ==> |calls| == b)
      && (err.Some? ==> |calls| < b && embed(docsB[|calls|]) == Failure(err.value))
  {
    if b > 0 {
      AddCallsShape(docsB, idsB, metasB, embed, b - 1);
    }
  }

  /** Concatenation of a list of lists. */
  function Flatten<T>(ss: seq<seq<T>>): seq<T> {
    if |ss| == 0 then [] else Flatten(ss[..|ss| - 1]) + ss[|ss| - 1]
  }

  /** Without overlap, reassembling windows is concatenating them. */
  lemma {:induction false} FlattenIsReassemble<T>(ss: seq<seq<T>>, k: nat)
    requires k <= |ss|
    ensures Flatten(ss[..k]) == ReassembleUpTo(ss, k, 0)
  {
    if k == 1 {
      assert ss[..1][..0] == [];
    } else if k > 1 {
      FlattenIsReassemble(ss, k - 1);
      assert ss[..k][..k - 1] == ss[..k - 1];
      assert Drop(ss[k - 1], 0) == ss[k - 1];
    }
  }

  /** The first `j` batches of `s` are the first `min(64 * j, |s|)` items. */
  lemma BatchPrefix<T>(s: seq<T>, j: nat)
    requires j <= Count(|s|, BatchSize, 0)
    ensures Min(BatchSize * j, |s|) <= |s|
    ensures Flatten(Split(s, BatchSize, 0)[..j]) == s[..Min(BatchSize * j, |s|)]
  {
    var ws := Split(s, BatchSize, 0);
    assert Flatten(ws[..j]) == ReassembleUpTo(ws, j, 0) by {
      FlattenIsReassemble(ws, j);
    }
    if j > 0 {
      var e := End(|s|, j - 1, BatchSize, 0);
      assert e <= |s| && ReassembleUpTo(ws, j, 0) == s[..e] by {
        ReassemblePrefix(s, BatchSize, 0, j);
      }
      assert e == Min(BatchSize * j, |s|) by {
        StartIsProduct(j - 1, BatchSize, 0);
        assert (j - 1) * (BatchSize - 0) + BatchSize == BatchSize * j;
      }
    }
  }

  function Documents(calls: seq<AddCall>): seq<seq<string>> {
    seq(|calls|, i requires 0 <= i < |calls| => calls[i].documents)
  }

  function IdsOf(calls: seq<AddCall>): seq<seq<string>> {
    seq(|calls|, i requires 0 <= i < |calls| => calls[i].ids)
  }

  function MetadatasOf(calls: seq<AddCall>): seq<seq<Metadata>> {
    seq(|calls|, i requires 0 <= i < |calls| => calls[i].metadatas)
  }

  /**
   * The batches of `s` cover it exactly once and in order, there are
   * `ceil(|s| / 64)` of them, and each holds 1 to 64 items.
   */
  lemma BatchesCover<T>(s: seq<T>)
    ensures Flatten(Split(s, BatchSize, 0)) == s
    ensures |Split(s, BatchSize, 0)| == (|s| + BatchSize - 1) / BatchSize
    ensures forall i :: 0 <= i < |Split(s, BatchSize, 0)| ==> 0 < |Split(s, BatchSize, 0)[i]| <= BatchSize
  {
    var n := Count(|s|, BatchSize, 0);
    BatchPrefix(s, n);
    assert Split(s, BatchSize, 0)[..n] == Split(s, BatchSize, 0);
    PartitionCount(|s|, BatchSize);
    SplitLengths(s, BatchSize, 0);
  }

  /** Lists of the same length are cut at the same places. */
  lemma BatchesAligned<T, U>(a: seq<T>, b: seq<U>, i: nat)
    requires |a| == |b| && i < Count(|a|, BatchSize, 0)
    ensures |Split(a, BatchSize, 0)[i]| == |Split(b, BatchSize, 0)[i]|
  {
    SplitAt(a, BatchSize, 0, i);
    SplitAt(b, BatchSize, 0, i);
  }

  /**
   * When no embedding fails, the add calls for three aligned lists hold
   * every item exactly once and in order, in `ceil(N / 64)` calls of 1 to 64
   * items each, with each call's embeddings being the embedding of its
   * documents.
   */
  lemma BatchedAll(
    docs: seq<string>, ids: seq<string>, metas: seq<Metadata>,
    embed: seq<string> -> Result<seq<Vector>, string>)
    requires |ids| == |docs| && |metas| == |docs|
    requires Batched(docs, ids, metas, embed).1 == None
    ensures var calls := Batched(docs, ids, metas, embed).0;
      && Flatten(Documents(calls)) == docs
      && Flatten(IdsOf(calls)) == ids
      && Flatten(MetadatasOf(calls)) == metas
      && |calls| == (|docs| + BatchSize - 1) / BatchSize
      && (forall i :: 0 <= i < |calls| ==>
            && 0 < |calls[i].documents| <= BatchSize
            && |calls[i].ids| == |calls[i].documents| == |calls[i].metadatas|
            && embed(calls[i].documents) == Success(calls[i].embeddings))
  {
    var docsB, idsB, metasB := Split(docs, BatchSize, 0), Split(ids, BatchSize, 0), Split(metas, BatchSize, 0);
    var n := Count(|docs|, BatchSize, 0);
    var calls := Batched(docs, ids, metas, embed).0;
    AddCallsShape(docsB, idsB, metasB, embed, n);
    assert Flatten(Documents(calls)) == docs by {
      assert Documents(calls) == docsB;
      BatchesCover(docs);
    }
    assert Flatten(IdsOf(calls)) == ids by {
      assert IdsOf(calls) == idsB;
      BatchesCover(ids);
    }
    assert Flatten(MetadatasOf(calls)) == metas by {
      assert MetadatasOf(calls) == metasB;
      BatchesCover(metas);
    }
    BatchesCover(docs);
    forall i | 0 <= i < |calls|
      ensures |calls[i].ids| == |calls[i].documents| == |calls[i].metadatas|
    {
      BatchesAligned(docs, ids, i);
      BatchesAligned(docs, metas, i);
    }
  }

  /**
   * A successful upsert adds every kept chunk exactly once and in order, in
   * `ceil(N / 64)` add calls of 1 to 64 items each, ids and metadata aligned
   * with the documents and each batch's embeddings being the embedding of
   * its documents.
   */
  lemma UpsertStoresAll(
    sessionId: string, chunkTexts: seq<string>, metadatas: seq<Metadata>, maxChunks: Option<int>,
    embed: seq<string> -> Result<seq<Vector>, string>)
    requires |chunkTexts| == |metadatas|
    requires Upsert(sessionId, chunkTexts, metadatas, maxChunks, embed).1 == None
    ensures var calls := Upsert(sessionId, chunkTexts, metadatas, maxChunks, embed).0;
      var p := Prepare(sessionId, chunkTexts, metadatas, maxChunks);
      && Flatten(Documents(calls)) == p.docs
      && Flatten(IdsOf(calls)) == p.ids
      && Flatten(MetadatasOf(calls)) == p.metas
      && |calls| == (|p.docs| + BatchSize - 1) / BatchSize
      && (forall i :: 0 <= i < |calls| ==>
            && 0 < |calls[i].documents| <= BatchSize
            && |calls[i].ids| == |calls[i].documents| == |calls[i].metadatas|
            && embed(calls[i].documents) == Success(calls[i].embeddings))
  {
    var p := Prepare(sessionId, chunkTexts, metadatas, maxChunks);
    BatchedAll(p.docs, p.ids, p.metas, embed);
  }

  /**
   * When an embedding fails, the add calls made before it hold a prefix of
   * the items, 64 per call, and the failing batch is the next one.
   */
  lemma BatchedStops(
    docs: seq<string>, ids: seq<string>, metas: seq<Metadata>,
    embed: seq<string> -> Result<seq<Vector>, string>)
    requires |ids| == |docs| && |metas| == |docs|
    requires Batched(docs, ids, metas, embed).1.Some?
    ensures var (calls, err) := Batched(docs, ids, metas, embed);
      && |calls| < |Split(docs, BatchSize, 0)|
      && BatchSize * |calls| < |docs|
      && Flatten(Documents(calls)) == docs[..BatchSize * |calls|]
      && embed(Split(docs, BatchSize, 0)[|calls|]) == Failure(err.value)
  {
    var docsB, idsB, metasB := Split(docs, BatchSize, 0), Split(ids, BatchSize, 0), Split(metas, BatchSize, 0);
    var n := Count(|docs|, BatchSize, 0);
    var (calls, err) := Batched(docs, ids, metas, embed);
    var j := |calls|;
    assert j < n && Documents(calls) == docsB[..j] && embed(docsB[j]) == Failure(err.value) by {
      AddCallsShape(docsB, idsB, metasB, embed, n);
      assert Documents(calls) == docsB[..j];
    }
    assert BatchSize * j < |docs| by {
      CountSpec(|docs|, BatchSize, 0, j);
      StartIsProduct(j, BatchSize, 0);
    }
    BatchPrefix(docs, j);
  }

  /**
   * A failed upsert leaves the batches before the failing one stored: the
   * documents added are a prefix of the kept ones, 64 per call, and the
   * next batch's embedding is what failed.
   */
  lemma UpsertStopsAtFailure(
    sessionId: string, chunkTexts: seq<string>, metadatas: seq<Metadata>, maxChunks: Option<int>,
    embed: seq<string> -> Result<seq<Vector>, string>)
    requires |chunkTexts| == |metadatas|
    requires Upsert(sessionId, chunkTexts, metadatas, maxChunks, embed).1.Some?
    ensures var (calls, err) := Upsert(sessionId, chunkTexts, metadatas, maxChunks, embed);
      var p := Prepare(sessionId, chunkTexts, metadatas, maxChunks);
      && |calls| < |Split(p.docs, BatchSize, 0)|
      && BatchSize * |calls| < |p.docs|
      && Flatten(Documents(calls)) == p.docs[..BatchSize * |calls|]
      && embed(Split(p.docs, BatchSize, 0)[|calls|]) == Failure(err.value)
  {
    var p := Prepare(sessionId, chunkTexts, metadatas, maxChunks);
    BatchedStops(p.docs, p.ids, p.metas, embed);
  }

  /** One query hit: `{"text": doc, "metadata": meta, "score": dist}`. */
  datatype QueryResult = QueryResult(text: string, metadata: Metadata, score: Option<real>)

  /**
   * The first (and only) row of each field of the collection's answer, or
   * `None` where the key is missing.
   */
  datatype RawQuery = RawQuery(
    documents: Option<seq<string>>,
    metadatas: Option<seq<Metadata>>,
    distances: Option<seq<Option<real>>>)

  /** Python's `zip(docs, metas, dists)` into result records. */
  function Zip3(docs: seq<string>, metas: seq<Metadata>, dists: seq<Option<real>>): (r: seq<QueryResult>)
    ensures |r| == Min(Min(|docs|, |metas|), |dists|)
    ensures forall i :: 0 <= i < |r| ==> r[i] == QueryResult(docs[i], metas[i], dists[i])
  {
    if |docs| == 0 || |metas| == 0 || |dists| == 0 then []
    else [QueryResult(docs[0], metas[0], dists[0])] + Zip3(docs[1..], metas[1..], dists[1..])
  }

  /** The loop of `query_chunks` over the zipped answer. */
  method ShapeResults(docs: seq<string>, metas: seq<Metadata>, dists: seq<Option<real>>)
    returns (results: seq<QueryResult>)
    ensures results == Zip3(docs, metas, dists)
  {
    var n := Min(Min(|docs|, |metas|), |dists|);
    results := [];
    for i := 0 to n
      invariant results == Zip3(docs, metas, dists)[..i]
    {
      results := results + [QueryResult(docs[i], metas[i], dists[i])];
    }
  }

  /** The message of Python's `IndexError` on `[][0]`. */
  const IndexErrorMessage := "list index out of range"

  /** `query_chunks` once the collection exists: embed the query, search, reshape. */
  function Query(
    collection: seq<AddCall>, query: string, k: nat,
    embed: seq<string> -> Result<seq<Vector>, string>,
    search: (seq<AddCall>, Vector, nat) -> RawQuery): Result<seq<QueryResult>, string>
  {
    match embed([query])
    case Failure(e) => Failure(e)
    case Success(vs) =>
      if |vs| == 0 then Failure(IndexErrorMessage)
      else
        var raw := search(collection, vs[0], k);
        Success(Zip3(raw.documents.GetOr([]), raw.metadatas.GetOr([]), raw.distances.GetOr([])))
  }

  /** `query_chunks`. */
  method QueryChunks(
    store: VectorStore, sessionId: string, query: string, k: nat,
    embed: seq<string> -> Result<seq<Vector>, string>,
    search: (seq<AddCall>, Vector, nat) -> RawQuery)
    returns (r: Result<seq<QueryResult>, string>)
    modifies store
    ensures store.collections == WithCollection(old(store.collections), CollectionName(sessionId))
    ensures r == Query(Existing(old(store.collections), CollectionName(sessionId)), query, k, embed, search)
  {
    var name := CollectionName(sessionId);
    store.GetOrCreate(name);
    var embedded := embed([query]);
    if embedded.Failure? {
      return Failure(embedded.error);
    }
    if |embedded.value| == 0 {
      return Failure(IndexErrorMessage);
    }
    var qEmb := embedded.value[0];
    var raw := search(store.collections[name], qEmb, k);
    var docs := raw.documents.GetOr([]);
    var metas := raw.metadatas.GetOr([]);
    var dists := raw.distances.GetOr([]);
    var results := ShapeResults(docs, metas, dists);
    return Success(results);
  }

  /**
   * The results of a query: one per zipped triple, in order, the score
   * absent exactly when the distance is, and none at all when a field of the
   * answer is missing.
   */
  lemma QueryResultsShape(
    collection: seq<AddCall>, query: string, k: nat,
    embed: seq<string> -> Result<seq<Vector>, string>,
    search: (seq<AddCall>, Vector, nat) -> RawQuery)
    requires embed([query]).Success? && |embed([query]).value| > 0
    ensures var raw := search(collection, embed([query]).value[0], k);
      var docs, metas, dists := raw.documents.GetOr([]), raw.metadatas.GetOr([]), raw.distances.GetOr([]);
      var r := Query(collection, query, k, embed, search);
      && r.Success?
      && |r.value| == Min(Min(|docs|, |metas|), |dists|)
      && (forall i :: 0 <= i < |r.value| ==>
            r.value[i].text == docs[i] && r.value[i].metadata == metas[i]
            && (r.value[i].score.None? <==> dists[i].None?))
      && (raw.documents.None? || raw.metadatas.None? || raw.distances.None? ==> r.value == [])
  {
  }

  /** A query fails exactly when the query's embedding fails or comes back empty. */
  lemma QueryFails(
    collection: seq<AddCall>, query: string, k: nat,
    embed: seq<string> -> Result<seq<Vector>, string>,
    search: (seq<AddCall>, Vector, nat) -> RawQuery)
    ensures Query(collection, query, k, embed, search).Failure?
        <==> embed([query]).Failure? || |embed([query]).value| == 0
  {
  }

  /**
   * A query for a session searches exactly what the upserts of that session
   * added, and an upsert for another session leaves it alone.
   */
  lemma QueryReadsUpsertedCollection(
    c: map<string, seq<AddCall>>, sessionId: string, calls: seq<AddCall>, other: string)
    ensures var name := CollectionName(sessionId);
      var after := c[name := Existing(c, name) + calls];
      && Existing(WithCollection(after, name), name) == Existing(c, name) + calls
      && (other != sessionId ==>
            Existing(WithCollection(after, CollectionName(other)), CollectionName(other))
            == Existing(c, CollectionName(other)))
  {
    if other != sessionId && CollectionName(other) == CollectionName(sessionId) {
      CollectionNameInjective(other, sessionId);
      assert false;
    }
  }
}
