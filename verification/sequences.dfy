/** Small facts about sequences of integers shared by the pipeline modules. */
module Sequences {

  predicate StrictlyIncreasing(xs: seq<int>) {
    forall i, j :: 0 <= i < j < |xs| ==> xs[i] < xs[j]
  }

  function Last<T>(xs: seq<T>): T
    requires |xs| > 0
  {
    xs[|xs| - 1]
  }

  /** Appending a value above every element keeps a sequence strictly increasing. */
  lemma AppendIncreasing(xs: seq<int>, x: int)
    requires StrictlyIncreasing(xs)
    requires forall k :: 0 <= k < |xs| ==> xs[k] < x
    ensures StrictlyIncreasing(xs + [x])
  {
  }

  /** Putting a value below every element in front keeps a sequence strictly increasing. */
  lemma PrependIncreasing(x: int, xs: seq<int>)
    requires StrictlyIncreasing(xs)
    requires forall k :: 0 <= k < |xs| ==> x < xs[k]
    ensures StrictlyIncreasing([x] + xs)
  {
    var ys := [x] + xs;
    forall i, j | 0 <= i < j < |ys| ensures ys[i] < ys[j] {
      assert ys[j] == xs[j - 1];
      if i > 0 {
        assert ys[i] == xs[i - 1];
      }
    }
  }

  /** `[f(x) for x in xs]` */
  function MapSeq<A, B>(f: A -> B, xs: seq<A>): seq<B> {
    if xs == [] then [] else MapSeq(f, xs[..|xs| - 1]) + [f(Last(xs))]
  }

  /** Element `i` of the image is `f` of element `i`. */
  lemma {:induction false} MapSeqIndexed<A, B>(f: A -> B, xs: seq<A>)
    ensures |MapSeq(f, xs)| == |xs|
    ensures forall i :: 0 <= i < |xs| ==> MapSeq(f, xs)[i] == f(xs[i])
  {
    if xs != [] {
      var init := xs[..|xs| - 1];
      MapSeqIndexed(f, init);
      assert forall i :: 0 <= i < |init| ==> xs[i] == init[i];
    }
  }
}
