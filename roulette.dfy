/**
 * Roulette-wheel selection as both selectors write it: draw `random` in
 * [0, total), subtract the weights one by one and stop at the first index
 * where `random` drops to zero or below.
 */
module Roulette {
  import opened Wrappers

  /** `w[0] + ... + w[n-1]`, summed left to right as `reduce` does. */
  function Prefix(w: seq<real>, n: nat): real
    requires n <= |w|
  {
    if n == 0 then 0.0 else Prefix(w, n - 1) + w[n - 1]
  }

  /** `weights.reduce((sum, w) => sum + w, 0)`. */
  function Total(w: seq<real>): real {
    Prefix(w, |w|)
  }

  /** `Math.random() * totalWeight`: where a draw `u` lands on the wheel. */
  function Spot(w: seq<real>, u: real): real {
    u * Total(w)
  }

  predicate AllAtLeast(w: seq<real>, lo: real) {
    forall i :: 0 <= i < |w| ==> w[i] >= lo
  }

  /** The first index, from `i` on, at which the running sum reaches `target`. */
  function ReachingFrom(w: seq<real>, target: real, i: nat): (r: Option<nat>)
    requires i <= |w|
    ensures r.Some? ==> i <= r.value < |w| && target <= Prefix(w, r.value + 1)
    ensures r.Some? ==> forall n :: i < n <= r.value ==> Prefix(w, n) < target
    ensures r.None? ==> forall n :: i < n <= |w| ==> Prefix(w, n) < target
    decreases |w| - i
  {
    if i == |w| then None
    else if target <= Prefix(w, i + 1) then Some(i)
    else ReachingFrom(w, target, i + 1)
  }

  /**
   * The index the subtraction loop stops at for `random == target`: after
   * subtracting `w[0..i]`, `target - Prefix(w, i+1) <= 0` holds for the first
   * time. `None` when the loop runs off the end.
   */
  function FirstReaching(w: seq<real>, target: real): (r: Option<nat>)
    ensures r.Some? ==> r.value < |w| && target <= Prefix(w, r.value + 1)
    ensures r.Some? ==> forall n :: 0 < n <= r.value ==> Prefix(w, n) < target
    ensures r.None? <==> forall n :: 0 < n <= |w| ==> Prefix(w, n) < target
  {
    ReachingFrom(w, target, 0)
  }

  lemma {:induction false} PrefixMonotone(w: seq<real>, m: nat, n: nat)
    requires AllAtLeast(w, 0.0) && m <= n <= |w|
    ensures Prefix(w, m) <= Prefix(w, n)
  {
    if m < n {
      PrefixMonotone(w, m, n - 1);
    }
  }

  /**
   * With non-negative weights, index `i` is chosen exactly when the target
   * falls in its slot `(Prefix(w, i), Prefix(w, i+1)]` of the wheel.
   */
  lemma ChosenIffInSlot(w: seq<real>, target: real, i: nat)
    requires AllAtLeast(w, 0.0) && 0.0 < target && i < |w|
    ensures FirstReaching(w, target) == Some(i) <==> Prefix(w, i) < target <= Prefix(w, i + 1)
  {
    var r := FirstReaching(w, target);

    if Prefix(w, i) < target <= Prefix(w, i + 1) {
      forall n | 0 < n <= i ensures Prefix(w, n) < target {
        PrefixMonotone(w, n, i);
      }
      assert r.Some?;
    }
  }

  /**
   * When the wheel has positive total weight and the draw is below 1, the
   * subtraction loop stops inside the wheel: the fallback is never taken.
   */
  lemma SpinLands(w: seq<real>, u: real)
    requires AllAtLeast(w, 0.0) && Total(w) > 0.0 && 0.0 <= u < 1.0
    ensures FirstReaching(w, Spot(w, u)).Some?
  {
    DrawBelowTotal(w, u);
    ReachedBelowTotal(w, Spot(w, u));
  }

  /** A target below a positive total is reached by some prefix of the wheel. */
  lemma ReachedBelowTotal(w: seq<real>, target: real)
    requires Total(w) > 0.0 && target < Total(w)
    ensures FirstReaching(w, target).Some?
  {
    assert |w| > 0;
    assert target < Prefix(w, |w|);
  }

  /** A draw below 1 scales a positive total to something below it. */
  lemma DrawBelowTotal(w: seq<real>, u: real)
    requires 0.0 <= u < 1.0 && Total(w) > 0.0
    ensures Spot(w, u) < Total(w)
  {
    assert Total(w) - u * Total(w) == (1.0 - u) * Total(w);
  }

  lemma {:induction false} TotalAtLeastCount(w: seq<real>, lo: real)
    requires AllAtLeast(w, lo) && lo >= 0.0
    ensures Total(w) >= lo * |w| as real
  {
    PrefixAtLeast(w, lo, |w|);
  }

  lemma {:induction false} PrefixAtLeast(w: seq<real>, lo: real, n: nat)
    requires AllAtLeast(w, lo) && n <= |w|
    ensures Prefix(w, n) >= lo * n as real
  {
    if n > 0 {
      PrefixAtLeast(w, lo, n - 1);
    }
  }
}
