/**
 * The text handling of `extract_pages` (backend/rag.py): each page's
 * extracted text (or `""` when the extractor returns `None`) is split into
 * lines, every line is stripped, blank lines are dropped and the rest are
 * joined with `"\n"`. Opening and decrypting the PDF and extracting the raw
 * text belong to the PDF library and come in as the `rawPages` input.
 */
module Extraction {
  import opened Util
  import opened PyStr

  /**
   * The pieces of `s` between line-break characters. `str.splitlines()`
   * differs from this only in empty pieces (it treats `"\r\n"` as one break
   * and yields nothing after a final break), and the normaliser drops empty
   * pieces, so both give the same normalised text.
   */
  function Pieces(s: string): (r: seq<string>)
    ensures |r| >= 1
    ensures forall i :: 0 <= i < |r| ==> NoLineBreak(r[i])
  {
    if |s| == 0 then [""]
    else
      var rest := Pieces(s[1..]);
      if IsLineBreak(s[0]) then [""] + rest else [[s[0]] + rest[0]] + rest[1..]
  }

  /** `s` with every line-break character written as `"\n"`. */
  function Breaks(s: string): (r: string)
    ensures |r| == |s|
  {
    if |s| == 0 then "" else [if IsLineBreak(s[0]) then '\n' else s[0]] + Breaks(s[1..])
  }

  lemma JoinCons(sep: string, a: string, b: string, t: seq<string>)
    ensures JoinWith(sep, [a + b] + t) == a + JoinWith(sep, [b] + t)
  {
    if |t| > 0 {
      assert ([a + b] + t)[1..] == t;
      assert ([b] + t)[1..] == t;
      assert a + b + sep + JoinWith(sep, t) == a + (b + sep + JoinWith(sep, t));
    }
  }

  /**
   * The pieces are the text cut at its line breaks: joined back with
   * `"\n"` they give the text, every break written as `"\n"`.
   */
  lemma {:induction false} PiecesRejoin(s: string)
    ensures JoinWith("\n", Pieces(s)) == Breaks(s)
  {
    if |s| > 0 {
      var rest := Pieces(s[1..]);
      PiecesRejoin(s[1..]);
      if IsLineBreak(s[0]) {
        assert Pieces(s) == [""] + rest;
        assert ([""] + rest)[1..] == rest;
        assert JoinWith("\n", Pieces(s)) == "" + "\n" + JoinWith("\n", rest);
      } else {
        assert Pieces(s) == [[s[0]] + rest[0]] + rest[1..];
        JoinCons("\n", [s[0]], rest[0], rest[1..]);
        assert [rest[0]] + rest[1..] == rest;
      }
    }
  }

  /** `[line.strip() for line in lines if line.strip()]`. */
  function Kept(lines: seq<string>): seq<string> {
    if |lines| == 0 then []
    else (if Strip(lines[0]) != "" then [Strip(lines[0])] else []) + Kept(lines[1..])
  }

  /** backend/rag.py:35, the whitespace normalisation of one page. */
  function Normalise(text: string): string {
    JoinWith("\n", Kept(Pieces(text)))
  }

  /** One page as stored: `page.extract_text() or ""`, normalised. */
  function PageText(raw: Option<string>): string {
    Normalise(raw.GetOr(""))
  }

  /** The loop of `extract_pages` over the pages the PDF reader yields. */
  method ExtractPages(rawPages: seq<Option<string>>) returns (pages: seq<string>)
    ensures |pages| == |rawPages|
    ensures forall i :: 0 <= i < |pages| ==> pages[i] == PageText(rawPages[i])
  {
    pages := [];
    for i := 0 to |rawPages|
      invariant |pages| == i
      invariant forall j :: 0 <= j < i ==> pages[j] == PageText(rawPages[j])
    {
      var text := rawPages[i].GetOr("");
      text := Normalise(text);
      pages := pages + [text];
    }
  }

  predicate AllSpace(s: string) {
    forall k :: 0 <= k < |s| ==> IsSpace(s[k])
  }

  /** Every line kept is stripped and non-empty. */
  lemma {:induction false} KeptLines(lines: seq<string>)
    ensures forall i :: 0 <= i < |Kept(lines)| ==> Kept(lines)[i] != "" && IsStripped(Kept(lines)[i])
  {
    if |lines| > 0 {
      KeptLines(lines[1..]);
      StripEnds(lines[0]);
      KeptUnfold(lines);
    }
  }

  /** Keeping lines brings in no line break. */
  lemma {:induction false} KeptNoLineBreak(lines: seq<string>)
    requires forall i :: 0 <= i < |lines| ==> NoLineBreak(lines[i])
    ensures forall i :: 0 <= i < |Kept(lines)| ==> NoLineBreak(Kept(lines)[i])
  {
    if |lines| > 0 {
      var tail := lines[1..];
      assert forall i :: 0 <= i < |tail| ==> NoLineBreak(tail[i]) by {
        forall i | 0 <= i < |tail| ensures NoLineBreak(tail[i]) {
          assert tail[i] == lines[i + 1];
        }
      }
      KeptNoLineBreak(tail);
      StripNoLineBreak(lines[0]);
      KeptUnfold(lines);
    }
  }

  /** Lines that are already stripped and non-empty are all kept, unchanged. */
  lemma {:induction false} KeptOfKept(lines: seq<string>)
    requires forall i :: 0 <= i < |lines| ==> lines[i] != "" && IsStripped(lines[i])
    ensures Kept(lines) == lines
  {
    if |lines| > 0 {
      var x, tail := lines[0], lines[1..];
      assert forall i :: 0 <= i < |tail| ==> tail[i] != "" && IsStripped(tail[i]) by {
        forall i | 0 <= i < |tail| ensures tail[i] != "" && IsStripped(tail[i]) {
          assert tail[i] == lines[i + 1];
        }
      }
      KeptOfKept(tail);
      assert x != "" && Strip(x) == x by {
        StripIdempotent(x);
      }
      KeptHead(lines);
    }
  }

  /** Unfolding `Kept` once: the first line is kept, stripped, or dropped. */
  lemma KeptUnfold(lines: seq<string>)
    requires |lines| > 0
    ensures Strip(lines[0]) != "" ==> Kept(lines) == [Strip(lines[0])] + Kept(lines[1..])
    ensures Strip(lines[0]) == "" ==> Kept(lines) == Kept(lines[1..])
  {
  }

  /** Unfolding `Kept` once at a line that survives. */
  lemma KeptHead(lines: seq<string>)
    requires |lines| > 0 && Strip(lines[0]) != ""
    ensures Kept(lines) == [Strip(lines[0])] + Kept(lines[1..])
  {
  }

  lemma {:induction false} PiecesPrefix(a: string, t: string)
    requires NoLineBreak(a)
    ensures Pieces(a + t) == [a + Pieces(t)[0]] + Pieces(t)[1..]
  {
    if |a| > 0 {
      assert (a + t)[1..] == a[1..] + t;
      PiecesPrefix(a[1..], t);
      assert [a[0]] + (a[1..] + Pieces(t)[0]) == a + Pieces(t)[0];
    } else {
      assert a + t == t;
      assert a + Pieces(t)[0] == Pieces(t)[0];
      assert [Pieces(t)[0]] + Pieces(t)[1..] == Pieces(t);
    }
  }

  /** Splitting a `"\n"`-join of break-free lines gives the lines back. */
  lemma {:induction false} PiecesOfJoin(lines: seq<string>)
    requires |lines| >= 1
    requires forall i :: 0 <= i < |lines| ==> NoLineBreak(lines[i])
    ensures Pieces(JoinWith("\n", lines)) == lines
  {
    if |lines| == 1 {
      PiecesPrefix(lines[0], "");
      assert lines[0] + "" == lines[0];
    } else {
      var rest := JoinWith("\n", lines[1..]);
      PiecesOfJoin(lines[1..]);
      assert ("\n" + rest)[1..] == rest;
      assert lines[0] + "\n" + rest == lines[0] + ("\n" + rest);
      PiecesPrefix(lines[0], "\n" + rest);
      assert lines[0] + "" == lines[0];
    }
  }

  /**
   * A normalised page has no blank line and no line with whitespace at
   * either end; its lines are exactly the stripped non-blank input lines.
   */
  lemma NormalisedLines(text: string)
    ensures Normalise(text) != "" ==> Pieces(Normalise(text)) == Kept(Pieces(text))
    ensures Normalise(text) != "" ==>
      forall i :: 0 <= i < |Pieces(Normalise(text))| ==>
        Pieces(Normalise(text))[i] != "" && IsStripped(Pieces(Normalise(text))[i])
  {
    var kept := Kept(Pieces(text));
    KeptLines(Pieces(text));
    if |kept| > 0 {
      KeptNoLineBreak(Pieces(text));
      PiecesOfJoin(kept);
    }
  }

  /** Normalising twice is normalising once. */
  lemma NormaliseIdempotent(text: string)
    ensures Normalise(Normalise(text)) == Normalise(text)
  {
    var kept := Kept(Pieces(text));
    KeptLines(Pieces(text));
    if |kept| > 0 {
      KeptNoLineBreak(Pieces(text));
      PiecesOfJoin(kept);
      KeptOfKept(kept);
    } else {
      StripSpec("");
    }
  }

  lemma AllSpaceConcat(a: string, b: string)
    ensures AllSpace(a + b) <==> AllSpace(a) && AllSpace(b)
  {
    if AllSpace(a) && AllSpace(b) {
      forall k | 0 <= k < |a + b| ensures IsSpace((a + b)[k]) {
        if k >= |a| {
          assert (a + b)[k] == b[k - |a|];
        }
      }
    }
    if AllSpace(a + b) {
      forall k | 0 <= k < |a| ensures IsSpace(a[k]) {
        assert a[k] == (a + b)[k];
      }
      forall k | 0 <= k < |b| ensures IsSpace(b[k]) {
        assert b[k] == (a + b)[k + |a|];
      }
    }
  }

  /** Every line in `lines` is whitespace only. */
  predicate AllBlank(lines: seq<string>) {
    forall i :: 0 <= i < |lines| ==> AllSpace(lines[i])
  }

  lemma AllBlankCons(x: string, lines: seq<string>)
    ensures AllBlank([x] + lines) <==> AllSpace(x) && AllBlank(lines)
  {
    if AllSpace(x) && AllBlank(lines) {
      forall i | 0 <= i < |[x] + lines| ensures AllSpace(([x] + lines)[i]) {
        if i > 0 {
          assert ([x] + lines)[i] == lines[i - 1];
        }
      }
    }
    if AllBlank([x] + lines) {
      assert AllSpace(([x] + lines)[0]);
      forall i | 0 <= i < |lines| ensures AllSpace(lines[i]) {
        assert lines[i] == ([x] + lines)[i + 1];
      }
    }
  }

  lemma {:induction false} AllSpacePieces(s: string)
    ensures AllSpace(s) <==> AllBlank(Pieces(s))
  {
    if |s| > 0 {
      AllSpacePieces(s[1..]);
      var rest := Pieces(s[1..]);
      assert s == [s[0]] + s[1..];
      AllSpaceConcat([s[0]], s[1..]);
      if IsLineBreak(s[0]) {
        LineBreakIsSpace(s[0]);
        assert Pieces(s) == [""] + rest;
        AllBlankCons("", rest);
      } else {
        AllSpaceConcat([s[0]], rest[0]);
        assert Pieces(s) == [[s[0]] + rest[0]] + rest[1..];
        AllBlankCons([s[0]] + rest[0], rest[1..]);
        assert rest == [rest[0]] + rest[1..];
        AllBlankCons(rest[0], rest[1..]);
      }
    }
  }

  lemma {:induction false} KeptEmpty(lines: seq<string>)
    ensures Kept(lines) == [] <==> AllBlank(lines)
  {
    if |lines| > 0 {
      var x, tail := lines[0], lines[1..];
      KeptEmpty(tail);
      assert AllBlank(lines) <==> AllSpace(x) && AllBlank(tail) by {
        assert lines == [x] + tail;
        AllBlankCons(x, tail);
      }
      assert Strip(x) == "" <==> AllSpace(x) by {
        StripEmpty(x);
      }
      KeptUnfold(lines);
    }
  }

  /** A page normalises to `""` exactly when its text is whitespace only. */
  lemma NormaliseEmpty(text: string)
    ensures Normalise(text) == "" <==> AllSpace(text)
  {
    var kept := Kept(Pieces(text));
    assert Normalise(text) == "" <==> kept == [] by {
      if |kept| > 0 {
        KeptLines(Pieces(text));
        assert kept[0] != "";
        JoinWithStartsWithFirst("\n", kept);
      }
    }
    assert kept == [] <==> AllSpace(text) by {
      AllSpacePieces(text);
      KeptEmpty(Pieces(text));
    }
  }

  /** A page the extractor returned nothing for is stored as `""`. */
  lemma MissingTextIsEmpty()
    ensures PageText(None) == ""
  {
    StripSpec("");
  }
}
