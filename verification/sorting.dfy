/** Python's ordering of `str` values (code point by code point) and `sorted(set(xs))`. */
module Sorting {

  /** `a < b` for Python strings: the first differing code point decides, and a proper
      prefix comes first. */
  predicate LexLess(a: string, b: string)
    decreases |a|
  {
    |b| > 0 && (|a| == 0 || a[0] < b[0] || (a[0] == b[0] && LexLess(a[1..], b[1..])))
  }

  lemma {:induction false} LexLessIrreflexive(a: string)
    ensures !LexLess(a, a)
    decreases |a|
  {
    if |a| > 0 { LexLessIrreflexive(a[1..]); }
  }

  lemma {:induction false} LexLessTransitive(a: string, b: string, c: string)
    requires LexLess(a, b) && LexLess(b, c)
    ensures LexLess(a, c)
    decreases |a|
  {
    if |a| > 0 && a[0] == b[0] && b[0] == c[0] {
      LexLessTransitive(a[1..], b[1..], c[1..]);
    }
  }

  lemma {:induction false} LexLessTotal(a: string, b: string)
    requires a != b
    ensures LexLess(a, b) || LexLess(b, a)
    decreases |a|
  {
    if |a| > 0 && |b| > 0 && a[0] == b[0] {
      assert a == [a[0]] + a[1..] && b == [b[0]] + b[1..];
      LexLessTotal(a[1..], b[1..]);
    }
  }

  lemma LexLessAsymmetric(a: string, b: string)
    requires LexLess(a, b)
    ensures !LexLess(b, a)
  {
    if LexLess(b, a) {
      LexLessTransitive(a, b, a);
      LexLessIrreflexive(a);
    }
  }

  /** The elements of `xs`, as `set(xs)` gives them. */
  function Elems(xs: seq<string>): set<string> {
    set x | x in xs
  }

  /** Strictly increasing: sorted and free of duplicates. */
  predicate StrictlySorted(xs: seq<string>) {
    forall i, j :: 0 <= i < j < |xs| ==> LexLess(xs[i], xs[j])
  }

  /** `x` inserted at its place in a sorted list, unless it is already there. */
  function Insert(x: string, xs: seq<string>): seq<string> {
    if xs == [] then [x]
    else if x == xs[0] then xs
    else if LexLess(x, xs[0]) then [x] + xs
    else [xs[0]] + Insert(x, xs[1..])
  }

  lemma ElemsCons(x: string, xs: seq<string>)
    ensures Elems([x] + xs) == {x} + Elems(xs)
  {
    assert forall y :: y in [x] + xs <==> y == x || y in xs;
  }

  /** Inserting adds `x` to the elements and nothing else. */
  lemma {:induction false} InsertElems(x: string, xs: seq<string>)
    ensures Elems(Insert(x, xs)) == Elems(xs) + {x}
  {
    if xs == [] {
      ElemsCons(x, []);
    } else if x == xs[0] {
    } else if LexLess(x, xs[0]) {
      ElemsCons(x, xs);
    } else {
      InsertElems(x, xs[1..]);
      ElemsCons(xs[0], xs[1..]);
      ElemsCons(xs[0], Insert(x, xs[1..]));
      assert xs == [xs[0]] + xs[1..];
    }
  }

  /** Inserting into a strictly sorted list keeps it strictly sorted. */
  lemma {:induction false} InsertSorted(x: string, xs: seq<string>)
    requires StrictlySorted(xs)
    ensures StrictlySorted(Insert(x, xs))
  {
    if xs == [] || x == xs[0] {
    } else if LexLess(x, xs[0]) {
      var r := [x] + xs;
      forall i, j | 0 <= i < j < |r| ensures LexLess(r[i], r[j]) {
        if i == 0 {
          if j > 1 { LexLessTransitive(x, xs[0], xs[j - 1]); }
        } else {
          assert r[i] == xs[i - 1] && r[j] == xs[j - 1];
        }
      }
    } else {
      LexLessTotal(x, xs[0]);
      var tail := Insert(x, xs[1..]);
      InsertSorted(x, xs[1..]);
      InsertElems(x, xs[1..]);
      var r := [xs[0]] + tail;
      forall i, j | 0 <= i < j < |r| ensures LexLess(r[i], r[j]) {
        if i == 0 {
          var y := tail[j - 1];
          assert y in Elems(tail);
          if y != x {
            var k :| 0 <= k < |xs[1..]| && xs[1..][k] == y;
            assert xs[k + 1] == y;
          }
        } else {
          assert r[i] == tail[i - 1] && r[j] == tail[j - 1];
        }
      }
    }
  }

  /** Python's `sorted(set(xs))`. */
  function SortUnique(xs: seq<string>): seq<string> {
    if xs == [] then []
    else Insert(xs[|xs| - 1], SortUnique(xs[..|xs| - 1]))
  }

  /** `sorted(set(xs))` is strictly ascending and holds exactly the elements of `xs`. */
  lemma {:induction false} SortUniqueCorrect(xs: seq<string>)
    ensures StrictlySorted(SortUnique(xs))
    ensures Elems(SortUnique(xs)) == Elems(xs)
  {
    if xs != [] {
      var init := xs[..|xs| - 1];
      var x := xs[|xs| - 1];
      SortUniqueCorrect(init);
      InsertSorted(x, SortUnique(init));
      InsertElems(x, SortUnique(init));
      assert Elems(xs) == Elems(init) + {x} by {
        assert xs == init + [x];
        assert forall y :: y in xs <==> y in init || y == x;
      }
    }
  }

  /** A list with no elements is empty. */
  lemma ElemsEmpty(b: seq<string>)
    ensures Elems(b) == {} ==> b == []
  {
    if b != [] {
      assert b[0] in Elems(b);
    }
  }

  /** A strictly sorted list is determined by its elements, so `sorted(set(xs))` is the
      only duplicate-free ascending listing of the elements of `xs`. */
  lemma {:induction false} StrictlySortedUnique(a: seq<string>, b: seq<string>)
    requires StrictlySorted(a) && StrictlySorted(b) && Elems(a) == Elems(b)
    ensures a == b
    decreases |a|
  {
    if a == [] {
      ElemsEmpty(b);
    } else {
      assert b != [] by { assert a[0] in Elems(a); }
      assert a[0] in Elems(b) && b[0] in Elems(a);
      var k :| 0 <= k < |b| && b[k] == a[0];
      var m :| 0 <= m < |a| && a[m] == b[0];
      if k > 0 {
        assert LexLess(b[0], a[0]);
        if m == 0 { LexLessIrreflexive(a[0]); } else { LexLessAsymmetric(a[0], b[0]); }
        assert false;
      }
      assert a[0] == b[0];
      assert Elems(a[1..]) == Elems(b[1..]) by {
        assert forall y :: y in a[1..] <==> y in a && y != a[0] by {
          forall y ensures y in a[1..] <==> y in a && y != a[0] {
            if y in a && y != a[0] {
              var j :| 0 <= j < |a| && a[j] == y;
              assert j > 0 && a[1..][j - 1] == y;
            }
            if y in a[1..] {
              var j :| 0 <= j < |a[1..]| && a[1..][j] == y;
              assert LexLess(a[0], a[j + 1]);
              if y == a[0] { LexLessIrreflexive(a[0]); }
            }
          }
        }
        assert forall y :: y in b[1..] <==> y in b && y != b[0] by {
          forall y ensures y in b[1..] <==> y in b && y != b[0] {
            if y in b && y != b[0] {
              var j :| 0 <= j < |b| && b[j] == y;
              assert j > 0 && b[1..][j - 1] == y;
            }
            if y in b[1..] {
              var j :| 0 <= j < |b[1..]| && b[1..][j] == y;
              assert LexLess(b[0], b[j + 1]);
              if y == b[0] { LexLessIrreflexive(b[0]); }
            }
          }
        }
        forall y ensures y in Elems(a[1..]) <==> y in Elems(b[1..]) {
          assert y in Elems(a) <==> y in Elems(b);
        }
      }
      StrictlySortedUnique(a[1..], b[1..]);
      assert a == [a[0]] + a[1..] && b == [b[0]] + b[1..];
    }
  }

  /** Sorting is idempotent: `sorted(set(sorted(set(xs)))) == sorted(set(xs))`. */
  lemma SortUniqueIdempotent(xs: seq<string>)
    ensures SortUnique(SortUnique(xs)) == SortUnique(xs)
  {
    SortUniqueCorrect(xs);
    SortUniqueCorrect(SortUnique(xs));
    StrictlySortedUnique(SortUnique(SortUnique(xs)), SortUnique(xs));
  }
}
