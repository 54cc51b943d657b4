/** BlankPageFilter: `is_blank_page` and `remove_blank_pages` of spssp_mc_combine.py,
    over a document given as the sequence of its pages. */
module BlankFilter {
  import opened Chars
  import opened Strings
  import opened Sequences

  newtype byte = x: int | 0 <= x < 256

  /** What `page.get_pixmap()` gives: the raster's width, height, number of
      components per pixel and its sample buffer. */
  datatype Pixmap = Pixmap(width: nat, height: nat, n: nat, samples: seq<byte>)

  /** One page of the source document: its text layer (`page.get_text("text")`)
      and its default rendering. */
  datatype Page = Page(text: string, pixmap: Pixmap)

  /** `np.sum(img == 255)`: the number of samples at full brightness. */
  function CountWhite(samples: seq<byte>): (c: nat)
    ensures c <= |samples|
  {
    if samples == [] then 0
    else CountWhite(samples[..|samples| - 1]) + (if samples[|samples| - 1] == 255 then 1 else 0)
  }

  /** `width * height * n`, the divisor the source uses. */
  function TotalSamples(p: Pixmap): nat {
    p.width * p.height * p.n
  }

  /** `(white / total) >= threshold` as numpy evaluates it: a zero divisor gives
      infinity (at least any threshold) when `white > 0` and NaN (never at least
      anything) when `white == 0`. */
  predicate WhiteRatioAtLeast(white: nat, total: nat, threshold: real) {
    if total == 0 then white > 0 else (white as real) / (total as real) >= threshold
  }

  /** With a positive divisor the ratio test is the product test `white >= threshold * total`. */
  lemma WhiteRatioAsProduct(white: nat, total: nat, threshold: real)
    requires total > 0
    ensures WhiteRatioAtLeast(white, total, threshold) <==> white as real >= threshold * total as real
  {
    var w, t := white as real, total as real;
    assert w == (w / t) * t;
    if w / t >= threshold {
      assert (w / t) * t >= threshold * t;
    } else {
      assert (w / t) * t < threshold * t;
    }
  }

  /** `is_blank_page(page, threshold)`. */
  predicate IsBlankPage(page: Page, threshold: real) {
    if Strip(page.text) != [] then false
    else WhiteRatioAtLeast(CountWhite(page.pixmap.samples), TotalSamples(page.pixmap), threshold)
  }

  /** A page with any non-whitespace text is never blank; a page whose text is all
      whitespace (or empty) is blank exactly when its share of full-brightness samples
      reaches the threshold. */
  lemma IsBlankPageMeaning(page: Page, threshold: real)
    ensures (exists k :: 0 <= k < |page.text| && !IsSpace(page.text[k])) ==> !IsBlankPage(page, threshold)
    ensures (forall k :: 0 <= k < |page.text| ==> IsSpace(page.text[k])) ==>
              (IsBlankPage(page, threshold) <==>
               WhiteRatioAtLeast(CountWhite(page.pixmap.samples), TotalSamples(page.pixmap), threshold))
  {
    StripMeaning(page.text);
  }

  /** The 0-based indices of the pages that are kept, in document order. */
  function KeptIndices(doc: seq<Page>, threshold: real): seq<nat> {
    if doc == [] then []
    else
      KeptIndices(doc[..|doc| - 1], threshold)
        + (if IsBlankPage(doc[|doc| - 1], threshold) then [] else [|doc| - 1])
  }

  /** The pages copied into the new document, in document order. */
  function KeptPages(doc: seq<Page>, threshold: real): seq<Page> {
    if doc == [] then []
    else
      KeptPages(doc[..|doc| - 1], threshold)
        + (if IsBlankPage(doc[|doc| - 1], threshold) then [] else [doc[|doc| - 1]])
  }

  /** `removed_pages`: the 1-based numbers of the pages dropped as blank. */
  function RemovedNumbers(doc: seq<Page>, threshold: real): seq<nat> {
    if doc == [] then []
    else
      RemovedNumbers(doc[..|doc| - 1], threshold)
        + (if IsBlankPage(doc[|doc| - 1], threshold) then [|doc|] else [])
  }

  /** The kept indices are increasing and in range. */
  lemma {:induction false} KeptIndicesIncreasing(doc: seq<Page>, threshold: real)
    ensures StrictlyIncreasing(KeptIndices(doc, threshold))
    ensures forall k :: k in KeptIndices(doc, threshold) ==> k < |doc|
  {
    if doc != [] {
      var n := |doc| - 1;
      var init := doc[..n];
      KeptIndicesIncreasing(init, threshold);
      var ki := KeptIndices(init, threshold);
      if !IsBlankPage(doc[n], threshold) {
        assert KeptIndices(doc, threshold) == ki + [n];
        assert forall k :: 0 <= k < |ki| ==> ki[k] in ki;
        AppendIncreasing(ki, n);
      }
    }
  }

  /** The kept indices are increasing, in range, and are exactly the non-blank pages. */
  lemma {:induction false} KeptIndicesExact(doc: seq<Page>, threshold: real)
    ensures StrictlyIncreasing(KeptIndices(doc, threshold))
    ensures forall k :: k in KeptIndices(doc, threshold) ==> k < |doc|
    ensures forall i :: 0 <= i < |doc| ==> (i in KeptIndices(doc, threshold) <==> !IsBlankPage(doc[i], threshold))
  {
    KeptIndicesIncreasing(doc, threshold);
    if doc != [] {
      var n := |doc| - 1;
      var init := doc[..n];
      KeptIndicesExact(init, threshold);
      var ki := KeptIndices(init, threshold);
      var last := if IsBlankPage(doc[n], threshold) then [] else [n];
      assert KeptIndices(doc, threshold) == ki + last;
      forall i | 0 <= i < |doc|
        ensures i in ki + last <==> !IsBlankPage(doc[i], threshold)
      {
        if i < n {
          assert doc[i] == init[i];
          assert i !in last;
        }
      }
    }
  }

  /** The removed numbers are increasing, in `1..|doc|`, and are exactly the 1-based
      numbers of the blank pages. */
  lemma {:induction false} RemovedNumbersIncreasing(doc: seq<Page>, threshold: real)
    ensures StrictlyIncreasing(RemovedNumbers(doc, threshold))
    ensures forall r :: r in RemovedNumbers(doc, threshold) ==> 1 <= r <= |doc|
  {
    if doc != [] {
      var n := |doc| - 1;
      var init := doc[..n];
      RemovedNumbersIncreasing(init, threshold);
      var rn := RemovedNumbers(init, threshold);
      if IsBlankPage(doc[n], threshold) {
        assert RemovedNumbers(doc, threshold) == rn + [n + 1];
        assert forall k :: 0 <= k < |rn| ==> rn[k] in rn;
        AppendIncreasing(rn, n + 1);
      }
    }
  }

  lemma {:induction false} RemovedNumbersExact(doc: seq<Page>, threshold: real)
    ensures StrictlyIncreasing(RemovedNumbers(doc, threshold))
    ensures forall r :: r in RemovedNumbers(doc, threshold) ==> 1 <= r <= |doc|
    ensures forall i :: 0 <= i < |doc| ==> (i + 1 in RemovedNumbers(doc, threshold) <==> IsBlankPage(doc[i], threshold))
  {
    RemovedNumbersIncreasing(doc, threshold);
    if doc != [] {
      var n := |doc| - 1;
      var init := doc[..n];
      RemovedNumbersExact(init, threshold);
      var rn := RemovedNumbers(init, threshold);
      var last := if IsBlankPage(doc[n], threshold) then [n + 1] else [];
      assert RemovedNumbers(doc, threshold) == rn + last;
      forall i | 0 <= i < |doc|
        ensures i + 1 in rn + last <==> IsBlankPage(doc[i], threshold)
      {
        if i < n {
          assert doc[i] == init[i];
          assert i + 1 !in last;
        }
      }
    }
  }

  /** Kept plus removed is the page count. */
  lemma {:induction false} FilterCounts(doc: seq<Page>, threshold: real)
    ensures |KeptIndices(doc, threshold)| + |RemovedNumbers(doc, threshold)| == |doc|
    ensures |KeptPages(doc, threshold)| == |KeptIndices(doc, threshold)|
  {
    if doc != [] {
      FilterCounts(doc[..|doc| - 1], threshold);
    }
  }

  /** The new document holds exactly the kept pages, in their original relative order. */
  lemma {:induction false} KeptPagesFollowIndices(doc: seq<Page>, threshold: real)
    ensures |KeptPages(doc, threshold)| == |KeptIndices(doc, threshold)|
    ensures forall j :: 0 <= j < |KeptIndices(doc, threshold)| ==>
              KeptIndices(doc, threshold)[j] < |doc| && KeptPages(doc, threshold)[j] == doc[KeptIndices(doc, threshold)[j]]
  {
    if doc != [] {
      var init := doc[..|doc| - 1];
      KeptPagesFollowIndices(init, threshold);
      KeptIndicesExact(init, threshold);
    }
  }

  /** `remove_blank_pages`: copies every non-blank page into the new document, records
      the 1-based number of every blank one, and reports `total - len(removed)` as the
      number of remaining pages. */
  method RemoveBlankPages(doc: seq<Page>, threshold: real) returns (kept: seq<Page>, removed: seq<nat>, remaining: int)
    ensures kept == KeptPages(doc, threshold)
    ensures removed == RemovedNumbers(doc, threshold)
    ensures |kept| + |removed| == |doc|
    ensures remaining == |kept|
  {
    kept, removed := [], [];
    var total := |doc|;
    var i := 0;
    while i < |doc|
      invariant 0 <= i <= |doc|
      invariant kept == KeptPages(doc[..i], threshold)
      invariant removed == RemovedNumbers(doc[..i], threshold)
    {
      assert doc[..i + 1][..i] == doc[..i];
      if IsBlankPage(doc[i], threshold) {
        removed := removed + [i + 1];
      } else {
        kept := kept + [doc[i]];
      }
      i := i + 1;
    }
    assert doc[..|doc|] == doc;
    remaining := total - |removed|;
    FilterCounts(doc, threshold);
  }
}
