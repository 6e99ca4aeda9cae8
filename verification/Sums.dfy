/** Finite sums and concatenations over sequences, and the laws the totals rest on. */
module Sums {

  /** Sum of `f` over the elements of `xs`, accumulated from the left as the loops do. */
  function SumBy<T>(xs: seq<T>, f: T -> int): int {
    if xs == [] then 0 else SumBy(xs[..|xs| - 1], f) + f(xs[|xs| - 1])
  }

  lemma {:induction false} SumByAppend<T>(xs: seq<T>, ys: seq<T>, f: T -> int)
    ensures SumBy(xs + ys, f) == SumBy(xs, f) + SumBy(ys, f)
  {
    if ys == [] {
      assert xs + ys == xs;
    } else {
      var zs := xs + ys;
      assert zs[..|zs| - 1] == xs + ys[..|ys| - 1];
      SumByAppend(xs, ys[..|ys| - 1], f);
    }
  }

  lemma SumByStep<T>(xs: seq<T>, i: nat, f: T -> int)
    requires i < |xs|
    ensures SumBy(xs[..i + 1], f) == SumBy(xs[..i], f) + f(xs[i])
  {
    assert xs[..i + 1][..i] == xs[..i];
  }

  lemma SumByOne<T>(x: T, f: T -> int)
    ensures SumBy([x], f) == f(x)
  {
    assert [x][..0] == [];
  }

  /** A sum does not depend on the order of its terms. */
  lemma {:induction false} SumByPermutation<T>(xs: seq<T>, ys: seq<T>, f: T -> int)
    requires multiset(xs) == multiset(ys)
    ensures SumBy(xs, f) == SumBy(ys, f)
    decreases |xs|
  {
    if xs == [] {
      assert |ys| == |multiset(ys)| == 0;
    } else {
      var last := |xs| - 1;
      assert xs[last] in multiset(ys);
      var k :| 0 <= k < |ys| && ys[k] == xs[last];
      TakeOut(xs, last);
      TakeOut(ys, k);
      SumByPermutation(xs[..last] + xs[last + 1..], ys[..k] + ys[k + 1..], f);
      SumByTakeOut(xs, last, f);
      SumByTakeOut(ys, k, f);
    }
  }

  lemma SumByTakeOut<T>(xs: seq<T>, k: nat, f: T -> int)
    requires k < |xs|
    ensures SumBy(xs, f) == SumBy(xs[..k] + xs[k + 1..], f) + f(xs[k])
  {
    assert xs == xs[..k] + ([xs[k]] + xs[k + 1..]);
    SumByAppend(xs[..k], [xs[k]] + xs[k + 1..], f);
    SumByAppend([xs[k]], xs[k + 1..], f);
    SumByOne(xs[k], f);
    SumByAppend(xs[..k], xs[k + 1..], f);
  }

  /** Sums of pointwise equal terms are equal, also across element types. */
  lemma {:induction false} SumByPointwise<T, U>(xs: seq<T>, ys: seq<U>, f: T -> int, g: U -> int)
    requires |xs| == |ys|
    requires forall i :: 0 <= i < |xs| ==> f(xs[i]) == g(ys[i])
    ensures SumBy(xs, f) == SumBy(ys, g)
  {
    if xs != [] {
      SumByPointwise(xs[..|xs| - 1], ys[..|ys| - 1], f, g);
    }
  }

  lemma {:induction false} SumByPlus<T>(xs: seq<T>, f: T -> int, g: T -> int, h: T -> int)
    requires forall x :: x in xs ==> h(x) == f(x) + g(x)
    ensures SumBy(xs, h) == SumBy(xs, f) + SumBy(xs, g)
  {
    if xs != [] {
      SumByPlus(xs[..|xs| - 1], f, g, h);
    }
  }

  lemma {:induction false} SumByZero<T>(xs: seq<T>, f: T -> int)
    requires forall x :: x in xs ==> f(x) == 0
    ensures SumBy(xs, f) == 0
  {
    if xs != [] {
      SumByZero(xs[..|xs| - 1], f);
    }
  }

  lemma {:induction false} SumByNonNegative<T>(xs: seq<T>, f: T -> int)
    requires forall x :: x in xs ==> f(x) >= 0
    ensures SumBy(xs, f) >= 0
  {
    if xs != [] {
      SumByNonNegative(xs[..|xs| - 1], f);
    }
  }

  /** What a loop collects when it pushes `f(x)` for each `x` in turn. */
  function FlatMap<T, U>(xs: seq<T>, f: T -> seq<U>): seq<U> {
    if xs == [] then [] else FlatMap(xs[..|xs| - 1], f) + f(xs[|xs| - 1])
  }

  lemma FlatMapStep<T, U>(xs: seq<T>, i: nat, f: T -> seq<U>)
    requires i < |xs|
    ensures FlatMap(xs[..i + 1], f) == FlatMap(xs[..i], f) + f(xs[i])
  {
    assert xs[..i + 1][..i] == xs[..i];
  }

  lemma {:induction false} FlatMapAppend<T, U>(xs: seq<T>, ys: seq<T>, f: T -> seq<U>)
    ensures FlatMap(xs + ys, f) == FlatMap(xs, f) + FlatMap(ys, f)
  {
    if ys == [] {
      assert xs + ys == xs;
    } else {
      var zs := xs + ys;
      assert zs[..|zs| - 1] == xs + ys[..|ys| - 1];
      FlatMapAppend(xs, ys[..|ys| - 1], f);
    }
  }

  lemma {:induction false} FlatMapMembers<T, U>(xs: seq<T>, f: T -> seq<U>, u: U)
    ensures u in FlatMap(xs, f) <==> exists x :: x in xs && u in f(x)
  {
    if xs != [] {
      var last := |xs| - 1;
      FlatMapMembers(xs[..last], f, u);
      assert xs == xs[..last] + [xs[last]];
    }
  }

  lemma {:induction false} SumOfFlatMap<T, U>(xs: seq<T>, f: T -> seq<U>, g: U -> int, h: T -> int)
    requires forall x :: x in xs ==> SumBy(f(x), g) == h(x)
    ensures SumBy(FlatMap(xs, f), g) == SumBy(xs, h)
  {
    if xs != [] {
      var init, x := xs[..|xs| - 1], xs[|xs| - 1];
      SumOfFlatMap(init, f, g, h);
      SumByAppend(FlatMap(init, f), f(x), g);
    }
  }

  /** Two places count. */
  ghost predicate Twice<T>(xs: seq<T>, f: T -> int) {
    exists i, j :: 0 <= i < j < |xs| && f(xs[i]) == 1 && f(xs[j]) == 1
  }

  lemma OneMorePlace<T>(init: seq<T>, x: T, f: T -> int)
    ensures Twice(init + [x], f) <==> Twice(init, f) || (f(x) == 1 && exists y :: y in init && f(y) == 1)
  {
    var xs := init + [x];
    assert xs[|init|] == x && forall i :: 0 <= i < |init| ==> xs[i] == init[i];
    if i, j :| 0 <= i < j < |xs| && f(xs[i]) == 1 && f(xs[j]) == 1 {
      assert init[i] in init;
    }
    if Twice(init, f) {
      var i, j :| 0 <= i < j < |init| && f(init[i]) == 1 && f(init[j]) == 1;
      assert f(xs[i]) == 1 && f(xs[j]) == 1;
    }
    if f(x) == 1 {
      if y :| y in init && f(y) == 1 {
        var i :| 0 <= i < |init| && init[i] == y;
        assert f(xs[i]) == 1 && f(xs[|init|]) == 1;
      }
    }
  }

  /** A sum of zeros and ones is above one exactly when two places count. */
  lemma {:induction false} TwoCount<T>(xs: seq<T>, f: T -> int)
    requires forall x :: x in xs ==> f(x) == 0 || f(x) == 1
    ensures SumBy(xs, f) >= 0
    ensures SumBy(xs, f) == 0 <==> forall x :: x in xs ==> f(x) == 0
    ensures SumBy(xs, f) > 1 <==> Twice(xs, f)
  {
    if xs != [] {
      var init, last := xs[..|xs| - 1], xs[|xs| - 1];
      assert xs == init + [last];
      TwoCount(init, f);
      OneMorePlace(init, last, f);
      hide Twice;
    }
  }

  lemma FlatMapTakeOut<T, U>(xs: seq<T>, k: nat, f: T -> seq<U>)
    requires k < |xs|
    ensures multiset(FlatMap(xs, f)) == multiset(FlatMap(xs[..k] + xs[k + 1..], f)) + multiset(f(xs[k]))
  {
    assert xs == xs[..k + 1] + xs[k + 1..];
    FlatMapAppend(xs[..k + 1], xs[k + 1..], f);
    FlatMapStep(xs, k, f);
    FlatMapAppend(xs[..k], xs[k + 1..], f);
  }

  lemma TakeOut<T>(xs: seq<T>, k: nat)
    requires k < |xs|
    ensures multiset(xs[..k] + xs[k + 1..]) == multiset(xs) - multiset{xs[k]}
  {
    assert xs == xs[..k] + [xs[k]] + xs[k + 1..];
  }

  /** Reordering the input reorders what is collected, it neither drops nor duplicates anything. */
  lemma {:induction false} FlatMapPermutation<T, U>(xs: seq<T>, ys: seq<T>, f: T -> seq<U>)
    requires multiset(xs) == multiset(ys)
    ensures multiset(FlatMap(xs, f)) == multiset(FlatMap(ys, f))
    decreases |xs|
  {
    if xs == [] {
      assert |ys| == |multiset(ys)| == 0;
    } else {
      var last := |xs| - 1;
      assert xs[last] in multiset(ys);
      var k :| 0 <= k < |ys| && ys[k] == xs[last];
      TakeOut(xs, last);
      TakeOut(ys, k);
      FlatMapPermutation(xs[..last] + xs[last + 1..], ys[..k] + ys[k + 1..], f);
      FlatMapTakeOut(xs, last, f);
      FlatMapTakeOut(ys, k, f);
    }
  }

  lemma FlatMapOne<T, U>(x: T, f: T -> seq<U>)
    ensures FlatMap([x], f) == f(x)
  {
    assert [x][..0] == [];
  }

  lemma FlatMapSnoc<T, U>(xs: seq<T>, x: T, f: T -> seq<U>)
    ensures FlatMap(xs + [x], f) == FlatMap(xs, f) + f(x)
  {
    assert (xs + [x])[..|xs|] == xs;
  }

  lemma SameMembers<T>(xs: seq<T>, ys: seq<T>)
    requires multiset(xs) == multiset(ys)
    ensures forall x :: x in xs <==> x in ys
  {
    assert forall x :: x in xs <==> x in multiset(xs);
    assert forall x :: x in ys <==> x in multiset(ys);
  }

  predicate Distinct<T(==)>(xs: seq<T>) {
    forall i, j :: 0 <= i < j < |xs| ==> xs[i] != xs[j]
  }
}
