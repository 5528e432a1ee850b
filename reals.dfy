/** Reductions over sequences of reals: NumPy's `sum`, `max` and `min`. */
module Reals {

  function Sum(xs: seq<real>): real {
    if xs == [] then 0.0 else xs[0] + Sum(xs[1..])
  }

  predicate AllNonNegative(xs: seq<real>) {
    forall k :: 0 <= k < |xs| ==> xs[k] >= 0.0
  }

  /** The largest element: no element exceeds it and some element equals it. */
  function Max(xs: seq<real>): (m: real)
    requires xs != []
    ensures forall k :: 0 <= k < |xs| ==> xs[k] <= m
    ensures exists k :: 0 <= k < |xs| && xs[k] == m
  {
    if |xs| == 1 then xs[0]
    else
      var rest := Max(xs[1..]);
      assert forall k :: 1 <= k < |xs| ==> xs[k] == xs[1..][k - 1];
      if xs[0] >= rest then xs[0] else rest
  }

  /** The smallest element: no element is below it and some element equals it. */
  function Min(xs: seq<real>): (m: real)
    requires xs != []
    ensures forall k :: 0 <= k < |xs| ==> m <= xs[k]
    ensures exists k :: 0 <= k < |xs| && xs[k] == m
  {
    if |xs| == 1 then xs[0]
    else
      var rest := Min(xs[1..]);
      assert forall k :: 1 <= k < |xs| ==> xs[k] == xs[1..][k - 1];
      if xs[0] <= rest then xs[0] else rest
  }

  /** A sum of non-negative terms is at least each of its terms. */
  lemma {:induction false} SumAtLeastTerm(xs: seq<real>, i: nat)
    requires AllNonNegative(xs)
    requires i < |xs|
    ensures Sum(xs) >= xs[i]
    ensures Sum(xs) >= 0.0
  {
    assert AllNonNegative(xs[1..]) by {
      forall k | 0 <= k < |xs[1..]| ensures xs[1..][k] >= 0.0 {
        assert xs[1..][k] == xs[k + 1];
      }
    }
    if |xs| == 1 {
      assert xs[1..] == [];
    } else if i == 0 {
      SumAtLeastTerm(xs[1..], 0);
    } else {
      SumAtLeastTerm(xs[1..], i - 1);
    }
  }

  /** Overwriting one term moves the sum by exactly the difference. */
  lemma {:induction false} SumUpdate(xs: seq<real>, i: nat, v: real)
    requires i < |xs|
    ensures Sum(xs[i := v]) == Sum(xs) - xs[i] + v
  {
    if i == 0 {
      assert xs[i := v][1..] == xs[1..];
    } else {
      assert xs[i := v][1..] == xs[1..][i - 1 := v];
      SumUpdate(xs[1..], i - 1, v);
    }
  }

  /** Sequence of n zeros. */
  function Zeros(n: nat): (z: seq<real>)
    ensures |z| == n && Sum(z) == 0.0 && AllNonNegative(z)
    ensures forall k :: 0 <= k < n ==> z[k] == 0.0
  {
    if n == 0 then [] else [0.0] + Zeros(n - 1)
  }
}
