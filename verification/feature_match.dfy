/** FeatureMatcher: the ratio-test counting of `compare_images_sift` and the per-page
    marker loop of `compare_image_with_pdf_page` (spssp_mc_combine.py). Keypoint
    detection and the brute-force k-nearest-neighbour search are done by OpenCV; their
    outcome for one (marker, page) pair enters as a `Comparison`. */
module FeatureMatch {
  import opened Wrappers
  import opened Sequences

  /** What OpenCV yields when a marker image is compared with a page: whether SIFT found
      descriptors in each image (`des is not None`), and, for every marker descriptor in
      order, the distances of the neighbours `knnMatch(des1, des2, k=2)` returned for it,
      nearest first. */
  datatype Comparison = Comparison(markerDescriptors: bool, pageDescriptors: bool, knn: seq<seq<real>>)

  datatype MatchError =
    | NotTwoNeighbours      // `for m, n in matches` meets a row that is not a pair (ValueError)
    | PageIndexOutOfRange   // `doc[page_num]` names a page the document does not have (IndexError)

  /** The ambiguity-rejection ratio of the ratio test. */
  const Ratio: real := 0.75

  /** Every row of the neighbour lists is a (nearest, second-nearest) pair. */
  predicate AllPairs(knn: seq<seq<real>>) {
    forall i :: 0 <= i < |knn| ==> |knn[i]| == 2
  }

  /** `m.distance < 0.75 * n.distance` for a row that is a pair. */
  predicate IsGoodMatch(row: seq<real>) {
    |row| == 2 && row[0] < Ratio * row[1]
  }

  /** `len(good_matches)`: how many rows pass the ratio test. */
  function GoodCount(knn: seq<seq<real>>): (c: nat)
    ensures c <= |knn|
  {
    if knn == [] then 0
    else GoodCount(knn[..|knn| - 1]) + (if IsGoodMatch(knn[|knn| - 1]) then 1 else 0)
  }

  /** The rows that pass the ratio test, as a set of row indices. */
  function GoodRows(knn: seq<seq<real>>): set<nat> {
    set i: nat | i < |knn| && IsGoodMatch(knn[i])
  }

  /** The count is the number of distinct rows that pass the test. */
  lemma {:induction false} GoodCountIsCardinality(knn: seq<seq<real>>)
    ensures GoodCount(knn) == |GoodRows(knn)|
  {
    if knn != [] {
      var n := |knn| - 1;
      var init := knn[..n];
      GoodCountIsCardinality(init);
      assert forall i :: 0 <= i < n ==> knn[i] == init[i];
      if IsGoodMatch(knn[n]) {
        assert GoodRows(knn) == GoodRows(init) + {n};
      } else {
        assert GoodRows(knn) == GoodRows(init);
      }
    }
  }

  /** The result of `compare_images_sift(img1, img2, threshold)`: false when either image has
      no descriptors, an error when a neighbour row cannot be unpacked into two matches, and
      otherwise whether strictly more than `threshold` rows pass the ratio test. */
  function SiftDecision(c: Comparison, threshold: int): Result<bool, MatchError> {
    if !c.markerDescriptors || !c.pageDescriptors then Ok(false)
    else if !AllPairs(c.knn) then Err(NotTwoNeighbours)
    else Ok(GoodCount(c.knn) > threshold)
  }

  /** A match is reported exactly when both images have descriptors, every row is a pair,
      and more than `threshold` distinct rows pass the ratio test. */
  lemma SiftDecisionMeaning(c: Comparison, threshold: int)
    ensures SiftDecision(c, threshold) == Ok(true) <==>
              c.markerDescriptors && c.pageDescriptors && AllPairs(c.knn) && |GoodRows(c.knn)| > threshold
    ensures SiftDecision(c, threshold).Err? <==> c.markerDescriptors && c.pageDescriptors && !AllPairs(c.knn)
  {
    GoodCountIsCardinality(c.knn);
  }

  /** `compare_images_sift`: walks the neighbour rows, unpacking each into `m, n` and
      collecting `m` when it passes the ratio test. */
  method CompareImagesSift(c: Comparison, threshold: int) returns (r: Result<bool, MatchError>)
    ensures r == SiftDecision(c, threshold)
  {
    if !c.markerDescriptors || !c.pageDescriptors {
      return Ok(false);
    }
    var good: seq<real> := [];
    var i := 0;
    while i < |c.knn|
      invariant 0 <= i <= |c.knn|
      invariant AllPairs(c.knn[..i])
      invariant |good| == GoodCount(c.knn[..i])
    {
      var row := c.knn[i];
      assert c.knn[..i + 1][..i] == c.knn[..i];
      if |row| != 2 {
        assert !AllPairs(c.knn) by { assert |c.knn[i]| != 2; }
        return Err(NotTwoNeighbours);
      }
      if row[0] < Ratio * row[1] {
        good := good + [row[0]];
      }
      i := i + 1;
    }
    assert c.knn[..i] == c.knn;
    r := Ok(|good| > threshold);
  }

  // ---------------------------------------------------------------------------
  // compare_image_with_pdf_page

  /** A page on which at least one marker matched, with the indices of all matching markers. */
  datatype PageHit = PageHit(page: nat, markers: seq<nat>)

  /** Every marker image was read (`cv2.imread` returned an image for each path). */
  predicate AllLoaded<Img>(markers: seq<Option<Img>>) {
    forall i :: 0 <= i < |markers| ==> markers[i].Some?
  }

  /** The images read, in marker order. */
  function Loaded<Img>(markers: seq<Option<Img>>): seq<Img>
    requires AllLoaded(markers)
  {
    seq(|markers|, i requires 0 <= i < |markers| => markers[i].value)
  }

  /** `similar_image_indices`: the indices of the markers that match page `page`, in marker
      order; the first comparison that fails ends the loop with its error. */
  function MatchingMarkers<Img>(imgs: seq<Img>, page: nat, sift: (Img, nat) -> Comparison, threshold: int)
    : Result<seq<nat>, MatchError>
  {
    if imgs == [] then Ok([])
    else
      match MatchingMarkers(imgs[..|imgs| - 1], page, sift, threshold)
      case Err(e) => Err(e)
      case Ok(ix) =>
        match SiftDecision(sift(imgs[|imgs| - 1], page), threshold)
        case Err(e) => Err(e)
        case Ok(m) => Ok(if m then ix + [|imgs| - 1] else ix)
  }

  /** The loop does not stop at the first matching marker: the result lists every marker
      that matches, each once, in increasing order; it fails exactly when some comparison
      fails. */
  lemma {:induction false} MatchingMarkersExact<Img>(imgs: seq<Img>, page: nat, sift: (Img, nat) -> Comparison, threshold: int)
    ensures MatchingMarkers(imgs, page, sift, threshold).Ok? <==>
              forall i :: 0 <= i < |imgs| ==> SiftDecision(sift(imgs[i], page), threshold).Ok?
    ensures MatchingMarkers(imgs, page, sift, threshold).Ok? ==>
              var ix := MatchingMarkers(imgs, page, sift, threshold).value;
              && StrictlyIncreasing(ix)
              && (forall k :: 0 <= k < |ix| ==> ix[k] < |imgs|)
              && (forall i :: 0 <= i < |imgs| ==> (i in ix <==> SiftDecision(sift(imgs[i], page), threshold) == Ok(true)))
  {
    if imgs != [] {
      var n := |imgs| - 1;
      var init := imgs[..n];
      MatchingMarkersExact(init, page, sift, threshold);
      assert forall i :: 0 <= i < n ==> imgs[i] == init[i];
      var prev := MatchingMarkers(init, page, sift, threshold);
      if prev.Ok? {
        var ix := prev.value;
        match SiftDecision(sift(imgs[n], page), threshold)
        case Err(e) =>
        case Ok(m) =>
          if m {
            assert forall k :: 0 <= k < |ix| ==> ix[k] in ix;
            AppendIncreasing(ix, n);
            forall i | 0 <= i < |imgs|
              ensures i in ix + [n] <==> SiftDecision(sift(imgs[i], page), threshold) == Ok(true)
            {
              assert i in ix + [n] <==> i in ix || i == n;
            }
          }
      }
    }
  }

  /** Once a comparison fails, later markers do not change the outcome. */
  lemma {:induction false} MatchingMarkersErrStays<Img>(imgs: seq<Img>, j: nat, page: nat, sift: (Img, nat) -> Comparison, threshold: int)
    requires j <= |imgs|
    requires MatchingMarkers(imgs[..j], page, sift, threshold).Err?
    ensures MatchingMarkers(imgs, page, sift, threshold) == MatchingMarkers(imgs[..j], page, sift, threshold)
    decreases |imgs| - j
  {
    if j < |imgs| {
      assert imgs[..j + 1][..j] == imgs[..j];
      MatchingMarkersErrStays(imgs, j + 1, page, sift, threshold);
    } else {
      assert imgs[..j] == imgs;
    }
  }

  /** The result of `compare_image_with_pdf_page(image_paths, pdf_path, page_num, threshold)`
      for a document of `pageCount` pages: `None` as soon as one marker image cannot be
      read, before the page is opened; an error for a page the document lacks or a failed
      comparison; otherwise the page and its matching markers, or `None` when none match. */
  function PageMatch<Img>(markers: seq<Option<Img>>, pageCount: nat, page: nat,
                          sift: (Img, nat) -> Comparison, threshold: int): Result<Option<PageHit>, MatchError>
  {
    if !AllLoaded(markers) then Ok(None)
    else if page >= pageCount then Err(PageIndexOutOfRange)
    else
      match MatchingMarkers(Loaded(markers), page, sift, threshold)
      case Err(e) => Err(e)
      case Ok(ix) => if ix == [] then Ok(None) else Ok(Some(PageHit(page, ix)))
  }

  /** A hit names its own page and a non-empty, increasing list of exactly the markers
      that match it. */
  lemma PageMatchHit<Img>(markers: seq<Option<Img>>, pageCount: nat, page: nat,
                          sift: (Img, nat) -> Comparison, threshold: int)
    requires PageMatch(markers, pageCount, page, sift, threshold).Ok?
    requires PageMatch(markers, pageCount, page, sift, threshold).value.Some?
    ensures var h := PageMatch(markers, pageCount, page, sift, threshold).value.value;
            && AllLoaded(markers) && page < pageCount
            && h.page == page && h.markers != [] && StrictlyIncreasing(h.markers)
            && (forall k :: 0 <= k < |h.markers| ==> h.markers[k] < |markers|)
            && (forall i :: 0 <= i < |markers| ==>
                  (i in h.markers <==> SiftDecision(sift(markers[i].value, page), threshold) == Ok(true)))
  {
    MatchingMarkersExact(Loaded(markers), page, sift, threshold);
  }

  /** `compare_image_with_pdf_page`: reads every marker first, then compares each of them
      with the page and collects the indices of those that match. */
  method CompareImageWithPdfPage<Img>(markers: seq<Option<Img>>, pageCount: nat, page: nat,
                                      sift: (Img, nat) -> Comparison, threshold: int)
    returns (r: Result<Option<PageHit>, MatchError>)
    ensures r == PageMatch(markers, pageCount, page, sift, threshold)
  {
    var imgs: seq<Img> := [];
    var i := 0;
    while i < |markers|
      invariant 0 <= i <= |markers|
      invariant AllLoaded(markers[..i])
      invariant imgs == Loaded(markers[..i])
    {
      if markers[i].None? {
        return Ok(None);
      }
      imgs := imgs + [markers[i].value];
      i := i + 1;
    }
    assert markers[..i] == markers;
    if page >= pageCount {
      return Err(PageIndexOutOfRange);
    }
    var similar: seq<nat> := [];
    var j := 0;
    while j < |imgs|
      invariant 0 <= j <= |imgs|
      invariant MatchingMarkers(imgs[..j], page, sift, threshold) == Ok(similar)
    {
      assert imgs[..j + 1][..j] == imgs[..j];
      var d := CompareImagesSift(sift(imgs[j], page), threshold);
      if d.Err? {
        MatchingMarkersErrStays(imgs, j + 1, page, sift, threshold);
        return Err(d.error);
      }
      if d.value {
        similar := similar + [j];
      }
      j := j + 1;
    }
    assert imgs[..j] == imgs;
    if similar == [] {
      r := Ok(None);
    } else {
      r := Ok(Some(PageHit(page, similar)));
    }
  }
}
