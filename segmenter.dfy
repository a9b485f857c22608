/**
 * `split_text` and `chunk_pages` of backend/rag.py: a cursor loop cuts each
 * page into overlapping character windows, and every window is tagged with
 * its page (1-based) and its position within the page (0-based).
 */
module Segmenter {
  import opened Util
  import opened Windows
  import opened Records

  /** The defaults of `split_text` and `chunk_pages`. */
  const ChunkSize: nat := 1200
  const ChunkOverlap: nat := 200

  /**
   * `split_text`: walk a cursor over `text`, emitting `text[start:end]` with
   * `end = min(start + chunk_size, n)`, stopping once a window reaches the
   * end and otherwise stepping back `overlap` characters from `end`.
   */
  method SplitText(text: string, chunkSize: nat, overlap: nat) returns (chunks: seq<string>)
    requires overlap < chunkSize
    ensures chunks == Split(text, chunkSize, overlap)
  {
    if |text| == 0 {
      SplitEmpty(text, chunkSize, overlap);
      return [];
    }
    chunks := [];
    var start: int := 0;
    var n := |text|;
    CountSpec(n, chunkSize, overlap, 0);
    while start < n
      invariant 0 <= start
      invariant start == Start(|chunks|, chunkSize, overlap)
      invariant |chunks| <= Count(n, chunkSize, overlap)
      invariant start < n <==> |chunks| < Count(n, chunkSize, overlap)
      invariant chunks == Split(text, chunkSize, overlap)[..|chunks|]
      decreases n - start
    {
      var k := |chunks|;
      var end := Min(start + chunkSize, n);
      assert start < end <= n by {
        StartInside(n, chunkSize, overlap, k);
      }
      assert end < n <==> k + 1 < Count(n, chunkSize, overlap) by {
        CountSpec(n, chunkSize, overlap, k + 1);
      }
      var chunk := text[start..end];
      assert chunk == Split(text, chunkSize, overlap)[k];
      chunks := chunks + [chunk];
      if end == n {
        break;
      }
      start := end - overlap;
      if start < 0 {
        start := 0;
      }
    }
    assert chunks == Split(text, chunkSize, overlap)[..Count(n, chunkSize, overlap)];
  }

  /** The metadata `chunk_pages` attaches to chunk `chunk` of page `page`. */
  function ChunkMeta(page: int, chunk: int): Metadata {
    map["page" := MInt(page), "chunk" := MInt(chunk)]
  }

  /** Chunk metadata determines its page and chunk number. */
  lemma ChunkMetaInjective(p: int, c: int, p': int, c': int)
    requires ChunkMeta(p, c) == ChunkMeta(p', c')
    ensures p == p' && c == c'
  {
    assert ChunkMeta(p, c)["page"] == MInt(p);
    assert ChunkMeta(p, c)["chunk"] == MInt(c);
  }

  function PageMetas(page: int, k: nat): seq<Metadata> {
    seq(k, ci => ChunkMeta(page, ci))
  }

  /** The chunk texts of `pages`: each page's windows, pages in order. */
  function ChunkTexts(pages: seq<string>, chunkSize: nat, overlap: nat): seq<string>
    requires overlap < chunkSize
  {
    if |pages| == 0 then []
    else ChunkTexts(pages[..|pages| - 1], chunkSize, overlap) + Split(pages[|pages| - 1], chunkSize, overlap)
  }

  /** The chunk metadata of `pages`, aligned with `ChunkTexts`. */
  function ChunkMetas(pages: seq<string>, chunkSize: nat, overlap: nat): (metas: seq<Metadata>)
    requires overlap < chunkSize
    ensures |metas| == |ChunkTexts(pages, chunkSize, overlap)|
  {
    if |pages| == 0 then []
    else
      ChunkMetas(pages[..|pages| - 1], chunkSize, overlap)
        + PageMetas(|pages|, |Split(pages[|pages| - 1], chunkSize, overlap)|)
  }

  /** `chunk_pages`: split every page and number the parts. */
  method ChunkPages(pages: seq<string>, chunkSize: nat, overlap: nat)
    returns (chunkTexts: seq<string>, metadatas: seq<Metadata>)
    requires overlap < chunkSize
    ensures chunkTexts == ChunkTexts(pages, chunkSize, overlap)
    ensures metadatas == ChunkMetas(pages, chunkSize, overlap)
  {
    chunkTexts, metadatas := [], [];
    for idx := 0 to |pages|
      invariant chunkTexts == ChunkTexts(pages[..idx], chunkSize, overlap)
      invariant metadatas == ChunkMetas(pages[..idx], chunkSize, overlap)
    {
      var pageNum := idx + 1;
      var parts := SplitText(pages[idx], chunkSize, overlap);
      for ci := 0 to |parts|
        invariant chunkTexts == ChunkTexts(pages[..idx], chunkSize, overlap) + parts[..ci]
        invariant metadatas == ChunkMetas(pages[..idx], chunkSize, overlap) + PageMetas(pageNum, ci)
      {
        assert parts[..ci + 1] == parts[..ci] + [parts[ci]];
        PageMetasSnoc(pageNum, ci);
        chunkTexts := chunkTexts + [parts[ci]];
        metadatas := metadatas + [ChunkMeta(pageNum, ci)];
      }
      ChunkPagesStep(pages, idx, chunkSize, overlap);
      assert parts[..|parts|] == parts;
    }
    assert pages[..|pages|] == pages;
  }

  lemma PageMetasSnoc(page: int, k: nat)
    ensures PageMetas(page, k + 1) == PageMetas(page, k) + [ChunkMeta(page, k)]
  {
  }

  /** Taking one more page appends that page's windows and their metadata. */
  lemma ChunkPagesStep(pages: seq<string>, idx: nat, chunkSize: nat, overlap: nat)
    requires overlap < chunkSize && idx < |pages|
    ensures ChunkTexts(pages[..idx + 1], chunkSize, overlap)
         == ChunkTexts(pages[..idx], chunkSize, overlap) + Split(pages[idx], chunkSize, overlap)
    ensures ChunkMetas(pages[..idx + 1], chunkSize, overlap)
         == ChunkMetas(pages[..idx], chunkSize, overlap)
          + PageMetas(idx + 1, |Split(pages[idx], chunkSize, overlap)|)
  {
    assert pages[..idx + 1][..idx] == pages[..idx];
  }

  /** Where page `i`'s chunks begin in the flat lists. */
  function Offset(pages: seq<string>, i: nat, chunkSize: nat, overlap: nat): nat
    requires overlap < chunkSize && i <= |pages|
  {
    |ChunkTexts(pages[..i], chunkSize, overlap)|
  }

  /** The chunks of the first `j` pages are a prefix of the chunks of all pages. */
  lemma {:induction false} ChunkPrefix(pages: seq<string>, j: nat, chunkSize: nat, overlap: nat)
    requires overlap < chunkSize && j <= |pages|
    ensures Offset(pages, j, chunkSize, overlap) <= |ChunkTexts(pages, chunkSize, overlap)|
    ensures ChunkTexts(pages, chunkSize, overlap)[..Offset(pages, j, chunkSize, overlap)]
         == ChunkTexts(pages[..j], chunkSize, overlap)
    ensures ChunkMetas(pages, chunkSize, overlap)[..Offset(pages, j, chunkSize, overlap)]
         == ChunkMetas(pages[..j], chunkSize, overlap)
  {
    if j == |pages| {
      assert pages[..j] == pages;
    } else {
      var init := pages[..|pages| - 1];
      assert init[..j] == pages[..j];
      ChunkPrefix(init, j, chunkSize, overlap);
    }
  }

  /**
   * Chunk `ci` of page `i` sits at `Offset(pages, i) + ci` in both lists:
   * its text is window `ci` of the page and its metadata is
   * `{"page": i + 1, "chunk": ci}`.
   */
  lemma ChunkLocate(pages: seq<string>, i: nat, ci: nat, chunkSize: nat, overlap: nat)
    requires overlap < chunkSize && i < |pages| && ci < |Split(pages[i], chunkSize, overlap)|
    ensures Offset(pages, i, chunkSize, overlap) + ci < |ChunkTexts(pages, chunkSize, overlap)|
    ensures ChunkTexts(pages, chunkSize, overlap)[Offset(pages, i, chunkSize, overlap) + ci]
         == Split(pages[i], chunkSize, overlap)[ci]
    ensures ChunkMetas(pages, chunkSize, overlap)[Offset(pages, i, chunkSize, overlap) + ci]
         == ChunkMeta(i + 1, ci)
  {
    var upto := pages[..i + 1];
    var o := Offset(pages, i, chunkSize, overlap);
    assert upto[..i] == pages[..i];
    assert ChunkTexts(upto, chunkSize, overlap)[o + ci] == Split(pages[i], chunkSize, overlap)[ci];
    assert ChunkMetas(upto, chunkSize, overlap)[o + ci] == ChunkMeta(i + 1, ci);
    ChunkPrefix(pages, i + 1, chunkSize, overlap);
    assert ChunkTexts(pages, chunkSize, overlap)[o + ci] == ChunkTexts(upto, chunkSize, overlap)[o + ci];
    assert ChunkMetas(pages, chunkSize, overlap)[o + ci] == ChunkMetas(upto, chunkSize, overlap)[o + ci];
  }

  /** An empty page contributes no chunk: the next page's chunks start where its would have. */
  lemma EmptyPageNoChunks(pages: seq<string>, i: nat, chunkSize: nat, overlap: nat)
    requires overlap < chunkSize && i < |pages| && pages[i] == ""
    ensures Offset(pages, i + 1, chunkSize, overlap) == Offset(pages, i, chunkSize, overlap)
  {
    SplitEmpty(pages[i], chunkSize, overlap);
    assert pages[..i + 1][..i] == pages[..i];
  }

  /** A document yields no chunk exactly when every page is empty. */
  lemma {:induction false} NoChunksIffEmptyPages(pages: seq<string>, chunkSize: nat, overlap: nat)
    requires overlap < chunkSize
    ensures ChunkTexts(pages, chunkSize, overlap) == [] <==> forall i :: 0 <= i < |pages| ==> pages[i] == ""
  {
    if |pages| > 0 {
      var init, last := pages[..|pages| - 1], pages[|pages| - 1];
      NoChunksIffEmptyPages(init, chunkSize, overlap);
      SplitEmpty(last, chunkSize, overlap);
      assert ChunkTexts(pages, chunkSize, overlap) == ChunkTexts(init, chunkSize, overlap) + Split(last, chunkSize, overlap);
      if forall i :: 0 <= i < |pages| ==> pages[i] == "" {
        forall i | 0 <= i < |init| ensures init[i] == "" {
          assert init[i] == pages[i];
        }
      }
      if (forall i :: 0 <= i < |init| ==> init[i] == "") && last == "" {
        forall i | 0 <= i < |pages| ensures pages[i] == "" {
          if i < |init| {
            assert pages[i] == init[i];
          }
        }
      }
    }
  }

  /**
   * Flat chunk `g` is chunk `c` of page `p` (1-based): the page is not
   * empty, `g` is `Offset(pages, p - 1) + c`, its metadata is
   * `{"page": p, "chunk": c}` and its text is that page's window `c`.
   */
  predicate ChunkFrom(pages: seq<string>, g: nat, p: nat, c: nat, chunkSize: nat, overlap: nat)
    requires overlap < chunkSize
  {
    && 1 <= p <= |pages|
    && pages[p - 1] != ""
    && c < |Split(pages[p - 1], chunkSize, overlap)|
    && g == Offset(pages, p - 1, chunkSize, overlap) + c
    && g < |ChunkMetas(pages, chunkSize, overlap)|
    && ChunkMetas(pages, chunkSize, overlap)[g] == ChunkMeta(p, c)
    && ChunkTexts(pages, chunkSize, overlap)[g] == Split(pages[p - 1], chunkSize, overlap)[c]
  }

  /** Every emitted chunk comes from some chunk of some non-empty page. */
  lemma {:induction false} ChunkProvenance(pages: seq<string>, g: nat, chunkSize: nat, overlap: nat)
    requires overlap < chunkSize && g < |ChunkMetas(pages, chunkSize, overlap)|
    ensures exists p: nat, c: nat :: ChunkFrom(pages, g, p, c, chunkSize, overlap)
  {
    var n := |pages|;
    var init := pages[..n - 1];
    var before := |ChunkMetas(init, chunkSize, overlap)|;
    if g < before {
      ChunkProvenance(init, g, chunkSize, overlap);
      var p: nat, c: nat :| ChunkFrom(init, g, p, c, chunkSize, overlap);
      assert init[..p - 1] == pages[..p - 1];
      ChunkLocate(pages, p - 1, c, chunkSize, overlap);
      assert ChunkFrom(pages, g, p, c, chunkSize, overlap);
    } else {
      var c := g - before;
      assert pages[..n - 1] == init;
      SplitEmpty(pages[n - 1], chunkSize, overlap);
      ChunkLocate(pages, n - 1, c, chunkSize, overlap);
      assert ChunkFrom(pages, g, n, c, chunkSize, overlap);
    }
  }

  /** No two chunks of one upload carry the same metadata. */
  lemma ChunkMetasDistinct(pages: seq<string>, g: nat, h: nat, chunkSize: nat, overlap: nat)
    requires overlap < chunkSize
    requires g < h < |ChunkMetas(pages, chunkSize, overlap)|
    ensures ChunkMetas(pages, chunkSize, overlap)[g] != ChunkMetas(pages, chunkSize, overlap)[h]
  {
    var metas := ChunkMetas(pages, chunkSize, overlap);
    ChunkProvenance(pages, g, chunkSize, overlap);
    ChunkProvenance(pages, h, chunkSize, overlap);
    var p: nat, c: nat :| ChunkFrom(pages, g, p, c, chunkSize, overlap);
    var p': nat, c': nat :| ChunkFrom(pages, h, p', c', chunkSize, overlap);
    if metas[g] == metas[h] {
      ChunkMetaInjective(p, c, p', c');
      assert false;
    }
  }

  /**
   * A two-page document whose first page holds 1500 characters and whose
   * second holds none gives two chunks, both of page 1: characters
   * [0, 1200) and [1000, 1500).
   */
  lemma TwoPageExample(page1: string)
    requires |page1| == 1500
    ensures ChunkTexts([page1, ""], ChunkSize, ChunkOverlap) == [page1[..1200], page1[1000..]]
    ensures ChunkMetas([page1, ""], ChunkSize, ChunkOverlap) == [ChunkMeta(1, 0), ChunkMeta(1, 1)]
  {
    var pages := [page1, ""];
    assert pages[..1] == [page1];
    assert pages[..1][..0] == [];
    assert Count(1500, ChunkSize, ChunkOverlap) == 2;
    assert Start(1, ChunkSize, ChunkOverlap) == 1000;
    SplitEmpty("", ChunkSize, ChunkOverlap);
    var w := Split(page1, ChunkSize, ChunkOverlap);
    assert |w| == 2;
    assert w[0] == page1[0..1200];
    assert w[1] == page1[1000..1500];
    assert page1[1000..1500] == page1[1000..];
    assert w == [page1[..1200], page1[1000..]];
    assert ChunkTexts(pages[..1], ChunkSize, ChunkOverlap) == w;
    assert PageMetas(1, 2) == [ChunkMeta(1, 0), ChunkMeta(1, 1)];
  }
}
