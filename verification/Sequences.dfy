/** Lists whose elements are told apart, and the elements of a list that are kept. */
module Sequences {

  predicate Distinct<T(==)>(xs: seq<T>) {
    forall i, j :: 0 <= i < j < |xs| ==> xs[i] != xs[j]
  }

  /** The elements are told apart by their keys. */
  predicate Apart<T, K(==)>(xs: seq<T>, key: T -> K) {
    forall i, j :: 0 <= i < j < |xs| ==> key(xs[i]) != key(xs[j])
  }

  /** The elements that pass, in order, collected from the left as the loops of the program do. */
  function Kept<T>(xs: seq<T>, keep: T -> bool): seq<T> {
    if xs == [] then []
    else Kept(xs[..|xs| - 1], keep) + (if keep(xs[|xs| - 1]) then [xs[|xs| - 1]] else [])
  }

  lemma KeptSnoc<T>(xs: seq<T>, x: T, keep: T -> bool)
    ensures Kept(xs + [x], keep) == Kept(xs, keep) + (if keep(x) then [x] else [])
  {
    assert (xs + [x])[..|xs|] == xs;
  }

  lemma {:induction false} KeptCons<T>(x: T, xs: seq<T>, keep: T -> bool)
    ensures Kept([x] + xs, keep) == (if keep(x) then [x] else []) + Kept(xs, keep)
  {
    if xs == [] {
      assert [x] + xs == [] + [x];
      KeptSnoc([], x, keep);
    } else {
      var init, last := xs[..|xs| - 1], xs[|xs| - 1];
      KeptCons(x, init, keep);
      assert [x] + xs == ([x] + init) + [last];
      KeptSnoc([x] + init, last, keep);
    }
  }

  lemma {:induction false} KeptIs<T(!new)>(xs: seq<T>, keep: T -> bool)
    ensures forall x :: x in Kept(xs, keep) <==> x in xs && keep(x)
  {
    if xs != [] {
      assert xs == xs[..|xs| - 1] + [xs[|xs| - 1]];
      KeptIs(xs[..|xs| - 1], keep);
    }
  }

  lemma {:induction false} KeptApart<T(!new), K>(xs: seq<T>, keep: T -> bool, key: T -> K)
    requires Apart(xs, key)
    ensures Apart(Kept(xs, keep), key)
  {
    if xs != [] {
      var init, last := xs[..|xs| - 1], xs[|xs| - 1];
      KeptApart(init, keep, key);
      KeptIs(init, keep);
      var kept := Kept(init, keep);
      forall i | 0 <= i < |kept| ensures key(kept[i]) != key(last) {
        assert kept[i] in init;
      }
    }
  }

  lemma {:induction false} KeptDistinct<T(!new)>(xs: seq<T>, keep: T -> bool)
    requires Distinct(xs)
    ensures Distinct(Kept(xs, keep))
  {
    KeptApart(xs, keep, (x: T) => x);
  }

  lemma {:induction false} KeptCounts<T>(xs: seq<T>, keep: T -> bool, x: T)
    ensures multiset(Kept(xs, keep))[x] == if keep(x) then multiset(xs)[x] else 0
  {
    if xs != [] {
      assert xs == xs[..|xs| - 1] + [xs[|xs| - 1]];
      KeptCounts(xs[..|xs| - 1], keep, x);
    }
  }

  /** Which elements are kept does not depend on the order. */
  lemma KeptBag<T(!new)>(a: seq<T>, b: seq<T>, keep: T -> bool)
    requires multiset(a) == multiset(b)
    ensures multiset(Kept(a, keep)) == multiset(Kept(b, keep))
  {
    forall x ensures multiset(Kept(a, keep))[x] == multiset(Kept(b, keep))[x] {
      KeptCounts(a, keep, x);
      KeptCounts(b, keep, x);
    }
  }
}
