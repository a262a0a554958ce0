/**
 * Order-insensitive aggregates over a sequence: how many elements satisfy a
 * predicate, and the exact sum of a real-valued weight. Both are written as
 * left folds over the sequence, the way a loop over input lines builds them.
 */
module Tally {

  /** The number of elements of `xs` that satisfy `p`. */
  function Count<T>(xs: seq<T>, p: T -> bool): (n: nat)
    ensures n <= |xs|
    ensures n > 0 <==> exists i :: 0 <= i < |xs| && p(xs[i])
    decreases |xs|
  {
    if |xs| == 0 then 0
    else
      var init := xs[..|xs| - 1];
      assert forall i :: 0 <= i < |init| ==> init[i] == xs[i];
      Count(init, p) + (if p(xs[|xs| - 1]) then 1 else 0)
  }

  /** The sum of `f` over the elements of `xs`. */
  function Sum<T>(xs: seq<T>, f: T -> real): (r: real)
    ensures (forall i :: 0 <= i < |xs| ==> f(xs[i]) == 0.0) ==> r == 0.0
    decreases |xs|
  {
    if |xs| == 0 then 0.0
    else
      var init := xs[..|xs| - 1];
      assert forall i :: 0 <= i < |init| ==> init[i] == xs[i];
      Sum(init, f) + f(xs[|xs| - 1])
  }

  lemma {:induction false} CountAppend<T>(xs: seq<T>, ys: seq<T>, p: T -> bool)
    ensures Count(xs + ys, p) == Count(xs, p) + Count(ys, p)
    decreases |ys|
  {
    if |ys| == 0 {
      assert xs + ys == xs;
    } else {
      var n := |ys| - 1;
      assert (xs + ys)[..|xs + ys| - 1] == xs + ys[..n];
      CountAppend(xs, ys[..n], p);
    }
  }

  lemma {:induction false} SumAppend<T>(xs: seq<T>, ys: seq<T>, f: T -> real)
    ensures Sum(xs + ys, f) == Sum(xs, f) + Sum(ys, f)
    decreases |ys|
  {
    if |ys| == 0 {
      assert xs + ys == xs;
    } else {
      var n := |ys| - 1;
      assert (xs + ys)[..|xs + ys| - 1] == xs + ys[..n];
      SumAppend(xs, ys[..n], f);
    }
  }

  /**
   * Removing one occurrence of the last element of `xs` from `ys` leaves a
   * permutation of the rest of `xs`; returns where it was in `ys`.
   */
  lemma PickLast<T>(xs: seq<T>, ys: seq<T>) returns (j: nat)
    requires |xs| > 0
    requires multiset(xs) == multiset(ys)
    ensures j < |ys| && ys[j] == xs[|xs| - 1]
    ensures ys == ys[..j] + [ys[j]] + ys[j + 1..]
    ensures multiset(xs[..|xs| - 1]) == multiset(ys[..j] + ys[j + 1..])
  {
    var n := |xs| - 1;
    var x := xs[n];
    assert xs == xs[..n] + [x];
    assert x in multiset(ys);
    j :| 0 <= j < |ys| && ys[j] == x;
    assert ys == ys[..j] + [ys[j]] + ys[j + 1..];
    assert multiset(ys) == multiset(ys[..j]) + multiset{ys[j]} + multiset(ys[j + 1..]);
    calc {
      multiset(xs[..n]);
      multiset(xs) - multiset{x};
      multiset(ys) - multiset{x};
      multiset(ys[..j]) + multiset(ys[j + 1..]);
      multiset(ys[..j] + ys[j + 1..]);
    }
  }

  /** A count depends only on the multiset of elements, not on their order. */
  lemma {:induction false} CountPermutation<T>(xs: seq<T>, ys: seq<T>, p: T -> bool)
    requires multiset(xs) == multiset(ys)
    ensures Count(xs, p) == Count(ys, p)
    decreases |xs|
  {
    if |xs| == 0 {
      assert |ys| == |multiset(ys)| == 0;
    } else {
      var n := |xs| - 1;
      var j := PickLast(xs, ys);
      var rest := ys[..j] + ys[j + 1..];
      CountPermutation(xs[..n], rest, p);
      assert [ys[j]][..0] == [];
      CountAppend(ys[..j] + [ys[j]], ys[j + 1..], p);
      CountAppend(ys[..j], [ys[j]], p);
      CountAppend(ys[..j], ys[j + 1..], p);
    }
  }

  /** An exact sum depends only on the multiset of elements, not on their order. */
  lemma {:induction false} SumPermutation<T>(xs: seq<T>, ys: seq<T>, f: T -> real)
    requires multiset(xs) == multiset(ys)
    ensures Sum(xs, f) == Sum(ys, f)
    decreases |xs|
  {
    if |xs| == 0 {
      assert |ys| == |multiset(ys)| == 0;
    } else {
      var n := |xs| - 1;
      var j := PickLast(xs, ys);
      var rest := ys[..j] + ys[j + 1..];
      SumPermutation(xs[..n], rest, f);
      assert [ys[j]][..0] == [];
      SumAppend(ys[..j] + [ys[j]], ys[j + 1..], f);
      SumAppend(ys[..j], [ys[j]], f);
      SumAppend(ys[..j], ys[j + 1..], f);
    }
  }
}
