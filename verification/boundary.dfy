/** BoundaryDetector: `compare_image_with_pdf_pages_multiprocessing` of spssp_mc_combine.py.
    One unit of work is submitted per page and the futures are consumed in submission
    order, so the fan-out is modelled as a loop over the page indices. */
module Boundary {
  import opened Wrappers
  import opened Sequences
  import opened FeatureMatch

  /** The `results` dict: its keys in insertion order (the order `results.items()` yields
      them) and the key-to-value mapping. */
  datatype PageResults = PageResults(order: seq<nat>, markers: map<nat, seq<nat>>)

  /** The insertion order lists every key of the dict exactly once, and nothing else. */
  predicate WellFormed(r: PageResults) {
    && (forall i, j :: 0 <= i < j < |r.order| ==> r.order[i] != r.order[j])
    && (forall p :: p in r.order ==> p in r.markers)
    && (forall p :: p in r.markers ==> p in r.order)
  }

  /** `results[page] = indices` on a Python dict: the dict stays well formed, `page` now
      maps to `indices` and every other key keeps its value; a new key goes to the end of
      the insertion order, an existing key keeps its place. */
  function Store(r: PageResults, page: nat, indices: seq<nat>): (s: PageResults)
    requires WellFormed(r)
    ensures WellFormed(s)
    ensures forall p :: p in s.markers <==> p in r.markers || p == page
    ensures page in s.markers && s.markers[page] == indices
    ensures forall p :: p in r.markers && p != page ==> p in s.markers && s.markers[p] == r.markers[p]
    ensures page in r.markers ==> s.order == r.order
    ensures page !in r.markers ==> s.order == r.order + [page]
  {
    if page in r.markers then PageResults(r.order, r.markers[page := indices])
    else PageResults(r.order + [page], r.markers[page := indices])
  }

  /** Storing the page after every stored key appends it to the order and adds it to the
      map, and the order stays increasing. */
  lemma StoreNextPage(r: PageResults, page: nat, indices: seq<nat>)
    requires WellFormed(r) && StrictlyIncreasing(r.order)
    requires forall k :: 0 <= k < |r.order| ==> r.order[k] < page
    ensures var s := Store(r, page, indices);
      && s.order == r.order + [page]
      && s.markers == r.markers[page := indices]
      && StrictlyIncreasing(s.order)
      && forall k :: 0 <= k < |s.order| ==> s.order[k] < page + 1
  {
    assert page !in r.order;
    AppendIncreasing(r.order, page);
  }

  /** Page `p` of the document is a boundary page: its unit of work returned a hit. */
  predicate IsHit<Img>(markers: seq<Option<Img>>, pageCount: nat, p: nat,
                       sift: (Img, nat) -> Comparison, threshold: int) {
    var m := PageMatch(markers, pageCount, p, sift, threshold);
    m.Ok? && m.value.Some?
  }

  /** `compare_image_with_pdf_pages_multiprocessing`: runs the per-page comparison for every
      page `0 .. pageCount-1` and stores the matching marker indices of each hit page. The
      first failure, in page order, is re-raised by `future.result()`. On success the keys
      are exactly the hit pages, inserted in strictly increasing order whatever order the
      workers finished in. */
  method CompareAllPages<Img>(markers: seq<Option<Img>>, pageCount: nat,
                              sift: (Img, nat) -> Comparison, threshold: int)
    returns (r: Result<PageResults, MatchError>)
    ensures r.Ok? <==> forall p :: 0 <= p < pageCount ==> PageMatch(markers, pageCount, p, sift, threshold).Ok?
    ensures r.Err? ==> exists p :: 0 <= p < pageCount && PageMatch(markers, pageCount, p, sift, threshold) == Err(r.error)
                                   && forall q :: 0 <= q < p ==> PageMatch(markers, pageCount, q, sift, threshold).Ok?
    ensures r.Ok? ==> StrictlyIncreasing(r.value.order) && WellFormed(r.value)
    ensures r.Ok? ==> forall p: nat :: p in r.value.markers <==> p < pageCount && IsHit(markers, pageCount, p, sift, threshold)
    ensures r.Ok? ==> forall p: nat :: p in r.value.markers ==>
                        IsHit(markers, pageCount, p, sift, threshold) && r.value.markers[p] == PageMatch(markers, pageCount, p, sift, threshold).value.value.markers
  {
    var results := PageResults([], map[]);
    var page := 0;
    while page < pageCount
      invariant 0 <= page <= pageCount
      invariant forall q :: 0 <= q < page ==> PageMatch(markers, pageCount, q, sift, threshold).Ok?
      invariant StrictlyIncreasing(results.order)
      invariant forall k :: 0 <= k < |results.order| ==> results.order[k] < page
      invariant WellFormed(results)
      invariant forall p: nat :: p in results.markers <==> p < page && IsHit(markers, pageCount, p, sift, threshold)
      invariant forall p: nat :: p in results.markers ==>
                  IsHit(markers, pageCount, p, sift, threshold) && results.markers[p] == PageMatch(markers, pageCount, p, sift, threshold).value.value.markers
    {
      var result := CompareImageWithPdfPage(markers, pageCount, page, sift, threshold);
      if result.Err? {
        return Err(result.error);
      }
      if result.value.Some? {
        var hit := result.value.value;
        assert hit.page == page;
        StoreNextPage(results, page, hit.markers);
        results := Store(results, page, hit.markers);
      }
      page := page + 1;
    }
    r := Ok(results);
  }
}
