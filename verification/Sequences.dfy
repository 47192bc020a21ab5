/** List operations shared by the relational model and the browser code. */
module Sequences {
  /** The elements of xs that satisfy p, in order. */
  function Filter<T>(xs: seq<T>, p: T -> bool): (r: seq<T>)
    ensures forall x | x in r :: x in xs && p(x)
    ensures forall x | x in xs :: p(x) ==> x in r
    ensures |r| <= |xs|
  {
    if xs == [] then []
    else if p(xs[0]) then [xs[0]] + Filter(xs[1..], p)
    else Filter(xs[1..], p)
  }

  function Map<T, U>(f: T -> U, xs: seq<T>): (r: seq<U>)
    ensures |r| == |xs|
    ensures forall i | 0 <= i < |xs| :: r[i] == f(xs[i])
  {
    seq(|xs|, i requires 0 <= i < |xs| => f(xs[i]))
  }

  function FlatMap<T, U>(xs: seq<T>, f: T -> seq<U>): (r: seq<U>)
    ensures forall y | y in r :: exists x | x in xs :: y in f(x)
    ensures forall x | x in xs :: forall y | y in f(x) :: y in r
  {
    if xs == [] then [] else f(xs[0]) + FlatMap(xs[1..], f)
  }

  lemma FlatMapOne<T, U>(x: T, f: T -> seq<U>)
    ensures FlatMap([x], f) == f(x)
  {
  }

  lemma {:induction false} FlatMapAppend<T, U>(xs: seq<T>, ys: seq<T>, f: T -> seq<U>)
    ensures FlatMap(xs + ys, f) == FlatMap(xs, f) + FlatMap(ys, f)
  {
    if xs == [] {
      assert xs + ys == ys;
    } else {
      assert (xs + ys)[1..] == xs[1..] + ys;
      FlatMapAppend(xs[1..], ys, f);
    }
  }

  lemma FlatMapStep<T, U>(xs: seq<T>, f: T -> seq<U>, i: nat)
    requires i < |xs|
    ensures FlatMap(xs[..i + 1], f) == FlatMap(xs[..i], f) + f(xs[i])
  {
    assert xs[..i + 1] == xs[..i] + [xs[i]];
    FlatMapAppend(xs[..i], [xs[i]], f);
    FlatMapOne(xs[i], f);
  }

  lemma TakeDrop<T>(xs: seq<T>, n: nat)
    requires n <= |xs|
    ensures xs[..n] + xs[n..] == xs
  {
  }

  lemma FlatMapAt<T, U>(xs: seq<T>, f: T -> seq<U>, i: nat)
    requires i < |xs|
    ensures FlatMap(xs, f) == FlatMap(xs[..i], f) + f(xs[i]) + FlatMap(xs[i + 1..], f)
  {
    hide FlatMap;
    FlatMapStep(xs, f, i);
    FlatMapAppend(xs[..i + 1], xs[i + 1..], f);
    TakeDrop(xs, i + 1);
  }

  /** How a scan of xs that appends f of each element goes on, and where it ends. */
  lemma MapStep<T, U>(f: T -> U, xs: seq<T>, i: nat)
    requires i <= |xs|
    ensures i < |xs| ==> Map(f, xs[..i + 1]) == Map(f, xs[..i]) + [f(xs[i])]
    ensures Map(f, xs[..0]) == [] && Map(f, xs[..|xs|]) == Map(f, xs)
  {
  }

  predicate NoDuplicates<T(==)>(xs: seq<T>) {
    forall i, j | 0 <= i < j < |xs| :: xs[i] != xs[j]
  }

  lemma NoDuplicatesCons<T>(x: T, xs: seq<T>)
    ensures NoDuplicates([x] + xs) <==> x !in xs && NoDuplicates(xs)
  {
    var all := [x] + xs;
    assert forall i | 0 <= i < |xs| :: all[i + 1] == xs[i];
    if NoDuplicates(all) {
      forall i, j | 0 <= i < j < |xs| ensures xs[i] != xs[j] {
        assert all[i + 1] != all[j + 1];
      }
      forall i | 0 <= i < |xs| ensures xs[i] != x {
        assert all[0] != all[i + 1];
      }
    }
  }

  lemma {:induction false} FilterAppend<T>(xs: seq<T>, ys: seq<T>, p: T -> bool)
    ensures Filter(xs + ys, p) == Filter(xs, p) + Filter(ys, p)
  {
    if xs == [] {
      assert xs + ys == ys;
    } else {
      assert (xs + ys)[1..] == xs[1..] + ys;
      FilterAppend(xs[1..], ys, p);
    }
  }

  lemma FilterOne<T>(x: T, p: T -> bool)
    ensures Filter([x], p) == if p(x) then [x] else []
  {
  }

  /** How a scan of xs that keeps the elements with p goes on, and where it ends. */
  lemma FilterStep<T>(xs: seq<T>, p: T -> bool, i: nat)
    requires i < |xs|
    ensures Filter(xs[..i + 1], p) == Filter(xs[..i], p) + if p(xs[i]) then [xs[i]] else []
  {
    hide Filter;
    assert xs[..i + 1] == xs[..i] + [xs[i]];
    FilterAppend(xs[..i], [xs[i]], p);
    FilterOne(xs[i], p);
  }

  lemma FilterEnds<T>(xs: seq<T>, p: T -> bool)
    ensures Filter(xs[..0], p) == [] && Filter(xs[..|xs|], p) == Filter(xs, p)
  {
    assert xs[..|xs|] == xs;
  }

  lemma {:induction false} FilterAll<T>(xs: seq<T>, p: T -> bool)
    requires forall x | x in xs :: p(x)
    ensures Filter(xs, p) == xs
  {
    if xs == [] {
    } else {
      FilterAll(xs[1..], p);
    }
  }

  lemma {:induction false} FilterNone<T>(xs: seq<T>, p: T -> bool)
    requires forall x | x in xs :: !p(x)
    ensures Filter(xs, p) == []
  {
    if xs == [] {
    } else {
      FilterNone(xs[1..], p);
    }
  }

  /** Two tests that agree on the list's elements select the same sublist. */
  lemma {:induction false} FilterSame<T>(xs: seq<T>, p: T -> bool, q: T -> bool)
    requires forall x | x in xs :: p(x) == q(x)
    ensures Filter(xs, p) == Filter(xs, q)
  {
    if xs == [] {
    } else {
      FilterSame(xs[1..], p, q);
    }
  }

  /** Every element stands in relation r to each later one. */
  ghost predicate Pairwise<T(!new)>(xs: seq<T>, r: (T, T) -> bool) {
    forall i, j | 0 <= i < j < |xs| :: r(xs[i], xs[j])
  }

  lemma PairwiseCons<T(!new)>(x: T, xs: seq<T>, r: (T, T) -> bool)
    ensures Pairwise([x] + xs, r) <==> Pairwise(xs, r) && forall y | y in xs :: r(x, y)
  {
    var all := [x] + xs;
    assert forall j | 0 <= j < |xs| :: all[j + 1] == xs[j];
    if Pairwise(all, r) {
      forall i, j | 0 <= i < j < |xs| ensures r(xs[i], xs[j]) {
        assert all[i + 1] == xs[i] && all[j + 1] == xs[j];
      }
      forall y | y in xs ensures r(x, y) {
        var j :| 0 <= j < |xs| && xs[j] == y;
        assert r(all[0], all[j + 1]);
      }
    }
    if Pairwise(xs, r) && forall y | y in xs :: r(x, y) {
      forall i, j | 0 <= i < j < |all| ensures r(all[i], all[j]) {
        assert all[j] == xs[j - 1];
        if i > 0 {
          assert all[i] == xs[i - 1];
        }
      }
    }
  }

  lemma PairwiseSnoc<T(!new)>(xs: seq<T>, x: T, r: (T, T) -> bool)
    requires Pairwise(xs, r) && forall y | y in xs :: r(y, x)
    ensures Pairwise(xs + [x], r)
  {
  }

  lemma {:induction false} FilterKeepsPairwise<T(!new)>(xs: seq<T>, p: T -> bool, r: (T, T) -> bool)
    requires Pairwise(xs, r)
    ensures Pairwise(Filter(xs, p), r)
  {
    if xs == [] {
    } else {
      assert xs == [xs[0]] + xs[1..];
      hide Pairwise;
      PairwiseCons(xs[0], xs[1..], r);
      FilterKeepsPairwise(xs[1..], p, r);
      PairwiseCons(xs[0], Filter(xs[1..], p), r);
    }
  }

  lemma SameElements<T>(xs: seq<T>, ys: seq<T>)
    requires multiset(xs) == multiset(ys)
    ensures forall x | x in xs :: x in ys
    ensures forall y | y in ys :: y in xs
  {
    forall x | x in xs ensures x in ys {
      assert x in multiset(xs);
    }
    forall y | y in ys ensures y in xs {
      assert y in multiset(ys);
    }
  }

  /** xs without its k-th element. */
  function Without<T>(xs: seq<T>, k: nat): seq<T>
    requires k < |xs|
  {
    xs[..k] + xs[k + 1..]
  }

  lemma WithoutAt<T>(xs: seq<T>, k: nat)
    requires k < |xs|
    ensures multiset(xs) == multiset(Without(xs, k)) + multiset{xs[k]}
  {
    assert xs == xs[..k] + [xs[k]] + xs[k + 1..];
  }

  lemma MapWithoutAt<T, U>(f: T -> U, xs: seq<T>, k: nat)
    requires k < |xs|
    ensures multiset(Map(f, xs)) == multiset(Map(f, Without(xs, k))) + multiset{f(xs[k])}
  {
    WithoutAt(Map(f, xs), k);
    assert Without(Map(f, xs), k) == Map(f, Without(xs, k));
  }

  /** Where the first element of a permutation sits, and what is left on both sides. */
  lemma FirstOfPermutation<T>(xs: seq<T>, ys: seq<T>) returns (k: nat)
    requires xs != [] && multiset(xs) == multiset(ys)
    ensures k < |ys| && ys[k] == xs[0] && multiset(Without(xs, 0)) == multiset(Without(ys, k))
  {
    SameElements(xs, ys);
    assert xs[0] in xs;
    k :| 0 <= k < |ys| && ys[k] == xs[0];
    WithoutAt(xs, 0);
    WithoutAt(ys, k);
    hide Without;
    assert multiset(Without(xs, 0)) == multiset(xs) - multiset{xs[0]};
    assert multiset(Without(ys, k)) == multiset(ys) - multiset{xs[0]};
  }

  lemma {:induction false} MapOfPermutation<T, U>(f: T -> U, xs: seq<T>, ys: seq<T>)
    requires multiset(xs) == multiset(ys)
    ensures multiset(Map(f, xs)) == multiset(Map(f, ys))
    decreases |xs|
  {
    if xs == [] {
      assert |ys| == |multiset(ys)| == |multiset(xs)| == 0;
    } else {
      var k := FirstOfPermutation(xs, ys);
      hide Map;
      assert |Without(xs, 0)| < |xs|;
      hide Without;
      MapOfPermutation(f, Without(xs, 0), Without(ys, k));
      MapWithoutAt(f, xs, 0);
      MapWithoutAt(f, ys, k);
    }
  }

  lemma PairwiseWithout<T(!new)>(xs: seq<T>, k: nat, r: (T, T) -> bool)
    requires k < |xs| && Pairwise(xs, r) && forall x, y | r(x, y) :: r(y, x)
    ensures Pairwise(Without(xs, k), r) && forall y | y in Without(xs, k) :: r(xs[k], y)
  {
  }

  /** A symmetric relation between all pairs does not depend on their order. */
  lemma {:induction false} PairwiseOfPermutation<T(!new)>(xs: seq<T>, ys: seq<T>, r: (T, T) -> bool)
    requires Pairwise(xs, r) && multiset(xs) == multiset(ys) && forall x, y | r(x, y) :: r(y, x)
    ensures Pairwise(ys, r)
    decreases |ys|
  {
    if ys == [] {
    } else {
      var k := FirstOfPermutation(ys, xs);
      PairwiseWithout(xs, k, r);
      assert Without(ys, 0) == ys[1..];
      hide Without;
      PairwiseOfPermutation(Without(xs, k), ys[1..], r);
      SameElements(Without(xs, k), ys[1..]);
      PairwiseCons(ys[0], ys[1..], r);
      assert ys == [ys[0]] + ys[1..];
    }
  }

  lemma NoDuplicatesOfPermutation<T(!new)>(xs: seq<T>, ys: seq<T>)
    requires NoDuplicates(xs) && multiset(xs) == multiset(ys)
    ensures NoDuplicates(ys)
  {
    PairwiseOfPermutation(xs, ys, (x, y) => x != y);
  }
}
