/** The splitting half of `main` (spssp_mc_combine.py) and `get_images_from_folder`:
    marker images are listed from their folder, blank pages are dropped, every remaining
    page is compared with the markers, and the document is cut after each matching page. */
module Pipeline {
  import opened Wrappers
  import opened Chars
  import opened Strings
  import opened Sequences
  import opened Paths
  import opened BlankFilter
  import opened FeatureMatch
  import opened Boundary
  import opened Splitting

  // ---------------------------------------------------------------------------
  // get_images_from_folder

  const ImageExtensions: seq<string> := [".jpg", ".jpeg", ".png", ".bmp"]

  /** `filename.lower().endswith(extensions)`. */
  predicate IsImageName(name: string) {
    exists e :: e in ImageExtensions && EndsWith(LowerAscii(name), e)
  }

  /** The extension test written out for the four extensions. */
  lemma ImageNameByExtension(name: string)
    ensures var lowered := LowerAscii(name);
      IsImageName(name) <==>
        EndsWith(lowered, ".jpg") || EndsWith(lowered, ".jpeg") || EndsWith(lowered, ".png") || EndsWith(lowered, ".bmp")
  {
    assert ImageExtensions[0] == ".jpg" && ImageExtensions[1] == ".jpeg";
    assert ImageExtensions[2] == ".png" && ImageExtensions[3] == ".bmp";
  }

  /** The image paths of a folder listing, in listing order. */
  function ImageFiles(folder: string, listing: seq<string>): (ps: seq<string>)
    ensures |ps| <= |listing|
  {
    if listing == [] then []
    else
      var init := ImageFiles(folder, listing[..|listing| - 1]);
      var f := Last(listing);
      if IsImageName(f) then init + [PathJoin(folder, f)] else init
  }

  /** `get_images_from_folder`: keeps the listed names with an image extension, in any
      letter case, joined to the folder. */
  method GetImagesFromFolder(folder: string, listing: seq<string>) returns (paths: seq<string>)
    ensures paths == ImageFiles(folder, listing)
  {
    paths := [];
    var i := 0;
    while i < |listing|
      invariant 0 <= i <= |listing|
      invariant paths == ImageFiles(folder, listing[..i])
    {
      assert listing[..i + 1][..i] == listing[..i];
      ImageNameByExtension(listing[i]);
      var lowered := LowerAscii(listing[i]);
      if EndsWith(lowered, ".jpg") || EndsWith(lowered, ".jpeg") || EndsWith(lowered, ".png") || EndsWith(lowered, ".bmp") {
        paths := paths + [PathJoin(folder, listing[i])];
      }
      i := i + 1;
    }
    assert listing[..i] == listing;
  }

  /** The marker paths are the folder joined with exactly the listed image names. */
  lemma {:induction false} ImageFilesMeaning(folder: string, listing: seq<string>)
    ensures forall p :: p in ImageFiles(folder, listing) <==>
              exists f :: f in listing && IsImageName(f) && p == PathJoin(folder, f)
  {
    if listing != [] {
      var init := listing[..|listing| - 1];
      ImageFilesMeaning(folder, init);
      assert listing == init + [Last(listing)];
    }
  }

  /** The extension test ignores letter case: names that agree letter by letter up to
      case are both images or both not, and a name is an image exactly when its
      lower-cased form is. */
  lemma ImageNameCase(s: string, t: string)
    requires |s| == |t| && forall k :: 0 <= k < |s| ==> AsciiLower(s[k]) == AsciiLower(t[k])
    ensures IsImageName(s) == IsImageName(t)
    ensures IsImageName(s) == IsImageName(LowerAscii(s))
  {
    LowerAsciiMeaning(s, t);
  }

  /** For instance an upper-case extension is an image too. */
  lemma UpperCaseImage()
    ensures IsImageName("LOGO.PNG")
  {
    assert LowerAscii("LOGO.PNG") == "logo.png";
    assert EndsWith("logo.png", ".png");
    assert ".png" in ImageExtensions;
  }

  // ---------------------------------------------------------------------------
  // The split stage of main

  datatype PipelineError =
    | AllPagesBlank            // PyMuPDF refuses to save the empty document left by the filter
    | Match(error: MatchError) // a comparison of some page raised

  /** The ranges cut an `n`-page document after marker pages: they are numbered from 1,
      none is empty, together they run from page 0 to page `n - 1` without gaps, every
      range but the last ends on a matching page, and every matching page ends a range. */
  predicate CutAtHits<Img>(markers: seq<Option<Img>>, n: nat, sift: (Img, nat) -> Comparison,
                           threshold: int, outs: seq<OutputRange>) {
    && outs != [] && outs[0].first == 0 && Last(outs).last == n - 1
    && (forall j :: 0 <= j < |outs| ==> outs[j].number == j + 1 && outs[j].first <= outs[j].last)
    && (forall j :: 0 <= j < |outs| - 1 ==> outs[j + 1].first == outs[j].last + 1)
    && (forall j :: 0 <= j < |outs| - 1 ==> IsHit(markers, n, outs[j].last, sift, threshold))
    && (forall p :: 0 <= p < n && IsHit(markers, n, p, sift, threshold) ==>
          exists j :: 0 <= j < |outs| && outs[j].last == p)
  }

  /** What the comparison stage guarantees about its result map, for an `n`-page document. */
  ghost predicate HitsRecorded<Img>(markers: seq<Option<Img>>, n: nat, sift: (Img, nat) -> Comparison,
                              threshold: int, res: PageResults) {
    && StrictlyIncreasing(res.order)
    && (forall p :: p in res.order <==> p in res.markers)
    && (forall p: nat :: p in res.markers <==> p < n && IsHit(markers, n, p, sift, threshold))
  }

  /** Splitting at the recorded hit pages cuts the document after exactly those pages. */
  lemma SplitAtHits<Img>(markers: seq<Option<Img>>, n: nat, sift: (Img, nat) -> Comparison,
                         threshold: int, res: PageResults)
    requires HitsRecorded(markers, n, sift, threshold, res) && res.order != []
    ensures CutAtHits(markers, n, sift, threshold, SplitRanges(n, res.order))
  {
    var order := res.order;
    assert order[0] in res.markers;
    assert ValidPoints(n, order) by {
      forall k | 0 <= k < |order| ensures order[k] < n {
        assert order[k] in res.markers;
      }
    }
    SplitRangesContiguous(n, order);
    var ranges := SplitRanges(n, order);
    forall j | 0 <= j < |ranges| - 1 ensures IsHit(markers, n, ranges[j].last, sift, threshold) {
      assert ranges[j] == RangeAt(order, j);
      assert order[j] in res.markers;
    }
    forall p | 0 <= p < n && IsHit(markers, n, p, sift, threshold)
      ensures exists j :: 0 <= j < |ranges| && ranges[j].last == p
    {
      assert p in res.order;
      var j :| 0 <= j < |order| && order[j] == p;
      assert ranges[j] == RangeAt(order, j);
    }
  }

  /** An empty result map means no page matched. */
  lemma NoHitsRecorded<Img>(markers: seq<Option<Img>>, n: nat, sift: (Img, nat) -> Comparison,
                            threshold: int, res: PageResults)
    requires HitsRecorded(markers, n, sift, threshold, res)
    requires res.markers == map[] || res.order == []
    ensures forall p :: 0 <= p < n ==> !IsHit(markers, n, p, sift, threshold)
  {
  }

  /** `main` from the blank-page filter to `split_pdf`: the ranges of the kept document
      that are written out, or `None` when no page matched a marker. Page indices given
      to `sift` are those of the document left after blank pages are removed. */
  method SegmentPdf<Img>(doc: seq<Page>, blankThreshold: real, markers: seq<Option<Img>>,
                         sift: (Img, nat) -> Comparison, siftThreshold: int)
    returns (r: Result<Option<seq<OutputRange>>, PipelineError>)
    ensures r == Err(AllPagesBlank) <==> forall i :: 0 <= i < |doc| ==> IsBlankPage(doc[i], blankThreshold)
    ensures var n := |KeptPages(doc, blankThreshold)|;
            r.Err? && r.error.Match? ==> exists p :: 0 <= p < n && PageMatch(markers, n, p, sift, siftThreshold) == Err(r.error.error)
                                                  && forall q :: 0 <= q < p ==> PageMatch(markers, n, q, sift, siftThreshold).Ok?
    ensures var n := |KeptPages(doc, blankThreshold)|;
            r.Ok? ==> forall p :: 0 <= p < n ==> PageMatch(markers, n, p, sift, siftThreshold).Ok?
    ensures var n := |KeptPages(doc, blankThreshold)|;
            r.Ok? ==> (r.value.None? <==> forall p :: 0 <= p < n ==> !IsHit(markers, n, p, sift, siftThreshold))
    ensures var n := |KeptPages(doc, blankThreshold)|;
            r.Ok? && r.value.Some? ==> CutAtHits(markers, n, sift, siftThreshold, r.value.value)
    ensures var n := |KeptPages(doc, blankThreshold)|;
            r.Ok? && r.value.Some? ==> exists points :: ValidPoints(n, points) && r.value.value == SplitRanges(n, points)
  {
    var kept, removed, remaining := RemoveBlankPages(doc, blankThreshold);
    KeptIndicesExact(doc, blankThreshold);
    FilterCounts(doc, blankThreshold);
    if |kept| == 0 {
      assert KeptIndices(doc, blankThreshold) == [];
      return Err(AllPagesBlank);
    }
    assert exists i :: 0 <= i < |doc| && !IsBlankPage(doc[i], blankThreshold) by {
      var k := KeptIndices(doc, blankThreshold)[0];
      assert k in KeptIndices(doc, blankThreshold);
    }
    var n := |kept|;
    var results := CompareAllPages(markers, n, sift, siftThreshold);
    if results.Err? {
      return Err(Match(results.error));
    }
    var res := results.value;
    assert HitsRecorded(markers, n, sift, siftThreshold, res);
    var outs := SplitStage(res, n);
    r := Ok(outs);
    if outs.None? {
      NoHitsRecorded(markers, n, sift, siftThreshold, res);
    } else {
      SplitAtHits(markers, n, sift, siftThreshold, res);
      assert res.order[0] in res.markers;
      assert ValidPoints(n, res.order) by {
        forall k | 0 <= k < |res.order| ensures res.order[k] < n {
          assert res.order[k] in res.markers;
        }
      }
    }
  }
}
