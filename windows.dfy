/**
 * Fixed-size windows over a sequence, each starting `size - overlap`
 * positions after the previous one, the last one ending at the end of the
 * sequence. The segmenter cuts page text into such windows (1200 wide,
 * overlapping by 200) and the indexer cuts its work list into batches
 * (64 wide, no overlap).
 */
module Windows {
  import opened Util

  /** How far the cursor moves from one window to the next. */
  function Step(size: nat, overlap: nat): nat
    requires overlap < size
  {
    size - overlap
  }

  /**
   * Number of windows over a sequence of length `n`: one if it fits in a
   * single window, otherwise the first window and those of the rest after
   * one step.
   */
  function Count(n: nat, size: nat, overlap: nat): nat
    requires overlap < size
    decreases n
  {
    if n == 0 then 0
    else if n <= size then 1
    else 1 + Count(n - Step(size, overlap), size, overlap)
  }

  /** Where window `i` starts: the cursor after `i` advances, `i * (size - overlap)`. */
  function Start(i: nat, size: nat, overlap: nat): nat
    requires overlap < size
  {
    if i == 0 then 0 else Start(i - 1, size, overlap) + Step(size, overlap)
  }

  lemma {:induction false} StartIsProduct(i: nat, size: nat, overlap: nat)
    requires overlap < size
    ensures Start(i, size, overlap) == i * (size - overlap)
  {
    if i > 0 {
      StartIsProduct(i - 1, size, overlap);
    }
  }

  /** One past the last position of window `i`: `min(start + size, n)`. */
  function End(n: nat, i: nat, size: nat, overlap: nat): nat
    requires overlap < size
  {
    Min(Start(i, size, overlap) + size, n)
  }

  lemma MulLe(a: int, b: int, c: nat)
    requires a <= b
    ensures a * c <= b * c
  {
  }

  /**
   * The closed form of the count: window `k` exists exactly when the text
   * is non-empty and window `k - 1` (if any) stopped short of the end.
   */
  lemma {:induction false} CountSpec(n: nat, size: nat, overlap: nat, k: nat)
    requires overlap < size
    ensures k < Count(n, size, overlap)
        <==> n > 0 && (k == 0 || Start(k - 1, size, overlap) + size < n)
    decreases n
  {
    if n > size && k > 0 {
      CountSpec(n - Step(size, overlap), size, overlap, k - 1);
    }
  }

  /** A window that exists starts inside the sequence. */
  lemma StartInside(n: nat, size: nat, overlap: nat, i: nat)
    requires overlap < size && i < Count(n, size, overlap)
    ensures Start(i, size, overlap) < End(n, i, size, overlap) <= n
  {
    CountSpec(n, size, overlap, i);
  }

  /** Every window but the last is full and stops short of the end. */
  lemma InnerWindowFull(n: nat, size: nat, overlap: nat, i: nat)
    requires overlap < size && i + 1 < Count(n, size, overlap)
    ensures End(n, i, size, overlap) == Start(i, size, overlap) + size < n
  {
    CountSpec(n, size, overlap, i + 1);
  }

  /** The last window ends at the end of the sequence. */
  lemma LastWindowEnds(n: nat, size: nat, overlap: nat)
    requires overlap < size && n > 0
    ensures Count(n, size, overlap) > 0
    ensures End(n, Count(n, size, overlap) - 1, size, overlap) == n
  {
    var c := Count(n, size, overlap);
    CountSpec(n, size, overlap, 0);
    CountSpec(n, size, overlap, c);
  }

  /** Window `i` of `s`. */
  function Window<T>(s: seq<T>, size: nat, overlap: nat, i: nat): seq<T>
    requires overlap < size && i < Count(|s|, size, overlap)
  {
    StartInside(|s|, size, overlap, i);
    s[Start(i, size, overlap)..End(|s|, i, size, overlap)]
  }

  /** All windows of `s`, in order. */
  function Split<T>(s: seq<T>, size: nat, overlap: nat): seq<seq<T>>
    requires overlap < size
  {
    seq(Count(|s|, size, overlap), i requires 0 <= i < Count(|s|, size, overlap) => Window(s, size, overlap, i))
  }

  /** There are no windows exactly when the sequence is empty. */
  lemma SplitEmpty<T>(s: seq<T>, size: nat, overlap: nat)
    requires overlap < size
    ensures Split(s, size, overlap) == [] <==> s == []
  {
    CountSpec(|s|, size, overlap, 0);
  }

  /**
   * Window lengths: none is longer than `size`, all but the last are exactly
   * `size`, and the last ends at the end of `s`.
   */
  lemma SplitLengths<T>(s: seq<T>, size: nat, overlap: nat)
    requires overlap < size
    ensures forall i :: 0 <= i < |Split(s, size, overlap)| ==> 0 < |Split(s, size, overlap)[i]| <= size
    ensures forall i :: 0 <= i < |Split(s, size, overlap)| - 1 ==> |Split(s, size, overlap)[i]| == size
    ensures |s| > 0 ==> End(|s|, |Split(s, size, overlap)| - 1, size, overlap) == |s|
  {
    var w := Split(s, size, overlap);
    forall i | 0 <= i < |w| ensures 0 < |w[i]| <= size {
      StartInside(|s|, size, overlap, i);
    }
    forall i | 0 <= i < |w| - 1 ensures |w[i]| == size {
      InnerWindowFull(|s|, size, overlap, i);
    }
    if |s| > 0 {
      LastWindowEnds(|s|, size, overlap);
    }
  }

  /** Window `i` is the slice of `s` that starts at `i * (size - overlap)`. */
  lemma SplitAt<T>(s: seq<T>, size: nat, overlap: nat, i: nat)
    requires overlap < size && i < |Split(s, size, overlap)|
    ensures Start(i, size, overlap) == i * (size - overlap)
    ensures Start(i, size, overlap) < Min(Start(i, size, overlap) + size, |s|) <= |s|
    ensures Split(s, size, overlap)[i] == s[Start(i, size, overlap)..Min(Start(i, size, overlap) + size, |s|)]
  {
    StartIsProduct(i, size, overlap);
    StartInside(|s|, size, overlap, i);
  }

  /**
   * Consecutive windows share exactly `overlap` elements: the tail of window
   * `i` after its first `size - overlap` elements is the head of window `i + 1`.
   */
  lemma SplitOverlap<T>(s: seq<T>, size: nat, overlap: nat, i: nat)
    requires overlap < size && i + 1 < |Split(s, size, overlap)|
    ensures |Split(s, size, overlap)[i]| == size
    ensures |Split(s, size, overlap)[i + 1]| > overlap
    ensures Split(s, size, overlap)[i][size - overlap..] == Split(s, size, overlap)[i + 1][..overlap]
  {
    var n := |s|;
    var ws := Split(s, size, overlap);
    var a, b := Start(i, size, overlap), Start(i + 1, size, overlap);
    var e := End(n, i + 1, size, overlap);
    assert b == a + (size - overlap);
    assert a + size < n && b < e <= n by {
      InnerWindowFull(n, size, overlap, i);
      StartInside(n, size, overlap, i + 1);
    }
    assert ws[i] == s[a..a + size];
    assert ws[i + 1] == s[b..e];
    assert ws[i][size - overlap..] == s[b..b + overlap];
    assert ws[i + 1][..overlap] == s[b..b + overlap];
  }

  /** Python's `w[k:]`: everything after the first `k` elements. */
  function Drop<T>(w: seq<T>, k: nat): seq<T> {
    if k <= |w| then w[k..] else []
  }

  /**
   * The first `k` windows put back together: the first window, then each
   * later one without its first `overlap` elements.
   */
  function ReassembleUpTo<T>(ws: seq<seq<T>>, k: nat, overlap: nat): seq<T>
    requires k <= |ws|
  {
    if k == 0 then []
    else if k == 1 then ws[0]
    else ReassembleUpTo(ws, k - 1, overlap) + Drop(ws[k - 1], overlap)
  }

  /** All windows put back together. */
  function Reassemble<T>(ws: seq<seq<T>>, overlap: nat): seq<T> {
    ReassembleUpTo(ws, |ws|, overlap)
  }

  /** A later window without its overlap starts where the previous window ended. */
  lemma DropWindow<T>(s: seq<T>, size: nat, overlap: nat, k: nat)
    requires overlap < size && 1 <= k < Count(|s|, size, overlap)
    ensures End(|s|, k - 1, size, overlap) <= End(|s|, k, size, overlap) <= |s|
    ensures Drop(Window(s, size, overlap, k), overlap)
         == s[End(|s|, k - 1, size, overlap)..End(|s|, k, size, overlap)]
  {
    var n := |s|;
    InnerWindowFull(n, size, overlap, k - 1);
    StartInside(n, size, overlap, k);
    var b := Start(k, size, overlap);
    assert End(n, k - 1, size, overlap) == b + overlap;
    var w := Window(s, size, overlap, k);
    assert w == s[b..End(n, k, size, overlap)];
    assert overlap <= |w|;
  }

  lemma ReassembleStep<T>(s: seq<T>, size: nat, overlap: nat, k: nat)
    requires overlap < size && 2 <= k <= Count(|s|, size, overlap)
    requires End(|s|, k - 2, size, overlap) <= |s|
    requires ReassembleUpTo(Split(s, size, overlap), k - 1, overlap) == s[..End(|s|, k - 2, size, overlap)]
    ensures End(|s|, k - 1, size, overlap) <= |s|
    ensures ReassembleUpTo(Split(s, size, overlap), k, overlap) == s[..End(|s|, k - 1, size, overlap)]
  {
    var ws := Split(s, size, overlap);
    var e, e' := End(|s|, k - 2, size, overlap), End(|s|, k - 1, size, overlap);
    assert e <= e' <= |s| && Drop(ws[k - 1], overlap) == s[e..e'] by {
      DropWindow(s, size, overlap, k - 1);
    }
    assert ReassembleUpTo(ws, k, overlap) == s[..e] + s[e..e'];
    assert s[..e] + s[e..e'] == s[..e'];
  }

  lemma {:induction false} ReassemblePrefix<T>(s: seq<T>, size: nat, overlap: nat, k: nat)
    requires overlap < size && 1 <= k <= Count(|s|, size, overlap)
    ensures End(|s|, k - 1, size, overlap) <= |s|
    ensures ReassembleUpTo(Split(s, size, overlap), k, overlap) == s[..End(|s|, k - 1, size, overlap)]
  {
    StartInside(|s|, size, overlap, k - 1);
    if k > 1 {
      ReassemblePrefix(s, size, overlap, k - 1);
      ReassembleStep(s, size, overlap, k);
    }
  }

  /** Dropping each later window's overlap and concatenating gives back `s`. */
  lemma ReassembleSplit<T>(s: seq<T>, size: nat, overlap: nat)
    requires overlap < size
    ensures Reassemble(Split(s, size, overlap), overlap) == s
  {
    var ws := Split(s, size, overlap);
    if |s| > 0 {
      var c := Count(|s|, size, overlap);
      assert c > 0 && End(|s|, c - 1, size, overlap) == |s| by {
        LastWindowEnds(|s|, size, overlap);
      }
      ReassemblePrefix(s, size, overlap, c);
      assert s[..|s|] == s;
    } else {
      SplitEmpty(s, size, overlap);
    }
  }

  /** Without overlap the windows simply partition `s`, `ceil(|s| / size)` of them. */
  lemma {:induction false} PartitionCount(n: nat, size: nat)
    requires 0 < size
    ensures Count(n, size, 0) == (n + size - 1) / size
    decreases n
  {
    if n == 0 {
      DivUnique(size - 1, size, 0, size - 1);
    } else if n <= size {
      DivUnique(n + size - 1, size, 1, n - 1);
    } else {
      PartitionCount(n - size, size);
      var q := (n - 1) / size;
      var r := (n - 1) % size;
      DivUnique(n + size - 1, size, q + 1, r);
    }
  }

  lemma DivUnique(x: int, d: int, q: int, r: int)
    requires 0 <= r < d && x == q * d + r
    ensures x / d == q
  {
    var q', r' := x / d, x % d;
    assert x == q' * d + r';
    if q' > q {
      MulLe(q + 1, q', d);
      assert false;
    } else if q' < q {
      MulLe(q' + 1, q, d);
      assert false;
    }
  }
}
