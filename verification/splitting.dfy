/** SplitPointResolver and PdfSplitter: the split-point loop of `main` and the range
    computation of `split_pdf` (spssp_mc_combine.py). Writing the files is left to
    PyMuPDF; an output file is described by its number and its inclusive page range. */
module Splitting {
  import opened Wrappers
  import opened Sequences
  import opened Strings
  import opened Boundary

  // ---------------------------------------------------------------------------
  // Split points (main)

  /** What `for i in range(len(similar_pages) - 1)` keeps: `similar_pages[i]` whenever the
      next page is at least one page further on. */
  function PairPoints(similar: seq<nat>): seq<nat> {
    if |similar| < 2 then []
    else
      var n := |similar|;
      PairPoints(similar[..n - 1]) + (if similar[n - 1] as int - similar[n - 2] as int >= 1 then [similar[n - 2]] else [])
  }

  /** `split_points`: the kept pair points, then the last similar page unless it is
      already among them. */
  function SplitPointsOf(similar: seq<nat>): seq<nat>
    requires |similar| > 0
  {
    var kept := PairPoints(similar);
    if Last(similar) in kept then kept else kept + [Last(similar)]
  }

  /** For strictly increasing pages every pair passes the `>= 1` test. */
  lemma {:induction false} PairPointsIncreasing(similar: seq<nat>)
    requires |similar| > 0 && StrictlyIncreasing(similar)
    ensures PairPoints(similar) == similar[..|similar| - 1]
  {
    var n := |similar|;
    if n >= 2 {
      PairPointsIncreasing(similar[..n - 1]);
      assert similar[..n - 1][..n - 2] == similar[..n - 2];
      assert similar[..n - 1] == similar[..n - 2] + [similar[n - 2]];
    }
  }

  /** Strictly increasing boundary pages are their own split points: each page is used as
      is, in order, and the last one is appended exactly once. */
  lemma SplitPointsOfIncreasing(similar: seq<nat>)
    requires |similar| > 0 && StrictlyIncreasing(similar)
    ensures SplitPointsOf(similar) == similar
  {
    var n := |similar|;
    PairPointsIncreasing(similar);
    var init := similar[..n - 1];
    assert Last(similar) !in init by {
      forall k | 0 <= k < |init| ensures init[k] != Last(similar) {
        assert similar[k] < similar[n - 1];
      }
    }
    assert similar[..n - 1] + [Last(similar)] == similar;
  }

  /** The split-point loop of `main` (run only when `similar_pages` is non-empty). */
  method SplitPoints(similar: seq<nat>) returns (points: seq<nat>)
    requires |similar| > 0
    ensures points == SplitPointsOf(similar)
    ensures StrictlyIncreasing(similar) ==> points == similar
  {
    points := [];
    var i := 0;
    while i < |similar| - 1
      invariant 0 <= i <= |similar| - 1
      invariant points == PairPoints(similar[..i + 1])
    {
      assert similar[..i + 2][..i + 1] == similar[..i + 1];
      if similar[i + 1] as int - similar[i] as int >= 1 {
        points := points + [similar[i]];
      }
      i := i + 1;
    }
    assert similar[..i + 1] == similar;
    if Last(similar) !in points {
      points := points + [Last(similar)];
    }
    if StrictlyIncreasing(similar) {
      SplitPointsOfIncreasing(similar);
    }
  }

  // ---------------------------------------------------------------------------
  // Ranges (split_pdf)

  /** The output file `split_{number}.pdf`, which receives pages `first ..= last`. */
  datatype OutputRange = OutputRange(number: nat, first: nat, last: nat)

  /** `os.path.join(output_dir, f"split_{number}.pdf")`, without the directory. */
  function OutputName(r: OutputRange): string {
    "split_" + NatToString(r.number) + ".pdf"
  }

  /** `start_page` before split point `i`: 0, then one past the previous split point. */
  function StartOf(points: seq<nat>, i: nat): nat
    requires i <= |points|
  {
    if i == 0 then 0 else points[i - 1] + 1
  }

  /** The range written for split point `i`. */
  function RangeAt(points: seq<nat>, i: nat): OutputRange
    requires i < |points|
  {
    OutputRange(i + 1, StartOf(points, i), points[i])
  }

  /** One range per split point, in order. */
  function PointRanges(points: seq<nat>): (r: seq<OutputRange>)
    ensures |r| == |points|
    ensures forall k :: 0 <= k < |points| ==> r[k] == RangeAt(points, k)
  {
    if points == [] then []
    else
      var init := points[..|points| - 1];
      assert forall k :: 0 <= k < |init| ==> RangeAt(init, k) == RangeAt(points, k);
      PointRanges(init) + [RangeAt(points, |points| - 1)]
  }

  /** The ranges `split_pdf` writes: one per split point, numbered from 1, then a trailing
      range for the pages after the last split point when there are any. */
  function SplitRanges(pageCount: nat, points: seq<nat>): seq<OutputRange> {
    var start := StartOf(points, |points|);
    if start < pageCount then PointRanges(points) + [OutputRange(|points| + 1, start, pageCount - 1)]
    else PointRanges(points)
  }

  /** `split_pdf`: walks the split points, each range ending at its split point and the
      next one starting just after it, then adds the remainder of the document. */
  method SplitPdf(pageCount: nat, points: seq<nat>) returns (outputs: seq<OutputRange>)
    ensures outputs == SplitRanges(pageCount, points)
  {
    outputs := [];
    var start := 0;
    var i := 0;
    while i < |points|
      invariant 0 <= i <= |points|
      invariant start == StartOf(points, i)
      invariant outputs == PointRanges(points[..i])
    {
      assert points[..i + 1][..i] == points[..i];
      outputs := outputs + [OutputRange(i + 1, start, points[i])];
      start := points[i] + 1;
      i := i + 1;
    }
    assert points[..i] == points;
    if start < pageCount {
      outputs := outputs + [OutputRange(|points| + 1, start, pageCount - 1)];
    }
  }

  /** Split points that `split_pdf` handles as a partition: increasing and inside the document. */
  predicate ValidPoints(pageCount: nat, points: seq<nat>) {
    StrictlyIncreasing(points) && forall k :: 0 <= k < |points| ==> points[k] < pageCount
  }

  /** With increasing split points inside the document, the ranges are numbered
      `1, 2, …`, none is empty, the first starts at page 0, each starts right after the
      previous one ends, and the last ends at the final page; the trailing range exists
      exactly when the last split point is not the final page. */
  lemma SplitRangesContiguous(pageCount: nat, points: seq<nat>)
    requires ValidPoints(pageCount, points)
    ensures var outs := SplitRanges(pageCount, points);
            && (forall j :: 0 <= j < |outs| ==> outs[j].number == j + 1)
            && (forall j :: 0 <= j < |outs| ==> outs[j].first <= outs[j].last < pageCount)
            && (forall j :: 0 <= j < |outs| - 1 ==> outs[j + 1].first == outs[j].last + 1)
            && (pageCount == 0 <==> outs == [])
            && (outs != [] ==> outs[0].first == 0 && Last(outs).last == pageCount - 1)
            && (|outs| == |points| + 1 <==> (points == [] && pageCount > 0) || (points != [] && Last(points) + 1 < pageCount))
            && (|outs| == |points| || |outs| == |points| + 1)
  {
    var outs := SplitRanges(pageCount, points);
    forall j | 0 < j < |points| ensures StartOf(points, j) <= points[j] {
      assert points[j - 1] < points[j];
    }
  }

  /** Page `p` is one of the pages of range `r`. */
  predicate InRange(r: OutputRange, p: nat) {
    r.first <= p <= r.last
  }

  /** Page `p` is written to one of the files. */
  predicate Covered(outs: seq<OutputRange>, p: nat) {
    exists j :: 0 <= j < |outs| && InRange(outs[j], p)
  }

  /** Every page of the document lies in exactly one range. */
  lemma SplitRangesPartition(pageCount: nat, points: seq<nat>)
    requires ValidPoints(pageCount, points)
    ensures var outs := SplitRanges(pageCount, points);
            && (forall p :: 0 <= p < pageCount ==> Covered(outs, p))
            && (forall j1, j2 :: 0 <= j1 < j2 < |outs| ==> outs[j1].last < outs[j2].first)
  {
    var outs := SplitRanges(pageCount, points);
    SplitRangesContiguous(pageCount, points);
    ContiguousDisjoint(outs);
    forall p | 0 <= p < pageCount
      ensures Covered(outs, p)
    {
      ContiguousCovers(outs, p);
    }
  }

  /** Ranges that follow one another without gaps and are non-empty are pairwise disjoint. */
  lemma {:induction false} ContiguousDisjoint(outs: seq<OutputRange>)
    requires forall j :: 0 <= j < |outs| ==> outs[j].first <= outs[j].last
    requires forall j :: 0 <= j < |outs| - 1 ==> outs[j + 1].first == outs[j].last + 1
    ensures forall j1, j2 :: 0 <= j1 < j2 < |outs| ==> outs[j1].last < outs[j2].first
  {
    if |outs| > 1 {
      var init := outs[..|outs| - 1];
      ContiguousDisjoint(init);
      forall j1 | 0 <= j1 < |outs| - 1 ensures outs[j1].last < outs[|outs| - 1].first {
        assert init[j1].last <= init[|outs| - 2].last;
      }
    }
  }

  /** Contiguous ranges starting at the first range's start reach every page up to the
      last range's end. */
  lemma {:induction false} ContiguousCovers(outs: seq<OutputRange>, p: nat)
    requires |outs| > 0 && outs[0].first <= p <= Last(outs).last
    requires forall j :: 0 <= j < |outs| - 1 ==> outs[j + 1].first == outs[j].last + 1
    ensures Covered(outs, p)
  {
    if p > outs[0].last {
      var rest := outs[1..];
      assert |rest| > 0;
      ContiguousCovers(rest, p);
      var j :| 0 <= j < |rest| && InRange(rest[j], p);
      assert outs[j + 1] == rest[j];
    }
  }

  /** The pages PyMuPDF copies into one output file. */
  function RangePages<P>(doc: seq<P>, r: OutputRange): seq<P>
    requires r.first <= r.last + 1 <= |doc|
  {
    doc[r.first..r.last + 1]
  }

  /** The pages of the ranges, file after file. */
  function AllPages<P>(doc: seq<P>, outs: seq<OutputRange>): seq<P>
    requires forall j :: 0 <= j < |outs| ==> outs[j].first <= outs[j].last + 1 <= |doc|
  {
    if outs == [] then [] else AllPages(doc, outs[..|outs| - 1]) + RangePages(doc, Last(outs))
  }

  lemma {:induction false} AllPagesPrefix<P>(doc: seq<P>, outs: seq<OutputRange>)
    requires |outs| > 0 && outs[0].first == 0
    requires forall j :: 0 <= j < |outs| ==> outs[j].first <= outs[j].last < |doc|
    requires forall j :: 0 <= j < |outs| - 1 ==> outs[j + 1].first == outs[j].last + 1
    ensures AllPages(doc, outs) == doc[..Last(outs).last + 1]
  {
    if |outs| > 1 {
      var init := outs[..|outs| - 1];
      AllPagesPrefix(doc, init);
      assert AllPages(doc, outs) == doc[..Last(init).last + 1] + doc[Last(outs).first..Last(outs).last + 1];
    }
  }

  /** Splitting loses and duplicates nothing: the output files, read one after another,
      hold exactly the pages of the document in order. */
  lemma SplitIsLossless<P>(doc: seq<P>, points: seq<nat>)
    requires ValidPoints(|doc|, points)
    ensures var outs := SplitRanges(|doc|, points);
            (forall j :: 0 <= j < |outs| ==> outs[j].first <= outs[j].last + 1 <= |doc|)
            && AllPages(doc, outs) == doc
  {
    var outs := SplitRanges(|doc|, points);
    SplitRangesContiguous(|doc|, points);
    if outs != [] {
      AllPagesPrefix(doc, outs);
      assert doc[..|doc|] == doc;
    }
  }

  // ---------------------------------------------------------------------------
  // The split stage of main

  /** The split stage of `main`: nothing is split when `results` is empty (or yields no
      page); otherwise the keys, in insertion order, are turned into split points and
      handed to `split_pdf`. */
  method SplitStage(results: PageResults, pageCount: nat) returns (outputs: Option<seq<OutputRange>>)
    ensures outputs.None? <==> results.markers == map[] || results.order == []
    ensures outputs.Some? ==> outputs.value == SplitRanges(pageCount, SplitPointsOf(results.order))
    ensures outputs.Some? && StrictlyIncreasing(results.order) ==> outputs.value == SplitRanges(pageCount, results.order)
  {
    if results.markers == map[] {
      return None;
    }
    var similar := results.order;
    if similar == [] {
      return None;
    }
    var points := SplitPoints(similar);
    var outs := SplitPdf(pageCount, points);
    outputs := Some(outs);
  }

  /** An 8-page document with marker hits on pages 2 and 5 gives three files covering
      pages 0–2, 3–5 and 6–7. */
  lemma EightPagesTwoHits()
    ensures SplitRanges(8, SplitPointsOf([2, 5])) ==
            [OutputRange(1, 0, 2), OutputRange(2, 3, 5), OutputRange(3, 6, 7)]
  {
    assert PairPoints([2, 5]) == [2] by { assert [2, 5][..1] == [2]; }
  }

  /** A hit on the final page closes the last file there, with no trailing file. */
  lemma HitOnFinalPage(pageCount: nat)
    requires pageCount > 0
    ensures SplitRanges(pageCount, SplitPointsOf([pageCount - 1])) == [OutputRange(1, 0, pageCount - 1)]
  {
  }

  /** `split_pdf` with no split points writes the whole document as one file. */
  lemma NoPointsOneRange(pageCount: nat)
    requires pageCount > 0
    ensures SplitRanges(pageCount, []) == [OutputRange(1, 0, pageCount - 1)]
  {
  }
}
