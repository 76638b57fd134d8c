/** `Math.random`, injected so that every result can be stated per call. */
module RandomSource {

  /** Every draw lies in [0, 1), as `Math.random` promises. */
  ghost predicate ValidDraws(draw: nat -> real) {
    forall k: nat :: 0.0 <= draw(k) < 1.0
  }

  /**
   * A source of draws in [0, 1): the `k`-th call of `Next` returns `draw(k)`.
   * Nothing is assumed about the draws beyond their range.
   */
  class Random {
    const draw: nat -> real
    var calls: nat

    ghost predicate Valid() {
      ValidDraws(draw)
    }

    constructor (draw: nat -> real)
      requires ValidDraws(draw)
      ensures Valid() && this.draw == draw && calls == 0
    {
      this.draw := draw;
      calls := 0;
    }

    /** `Math.random()`. */
    method Next() returns (u: real)
      requires Valid()
      modifies this
      ensures u == draw(old(calls)) && calls == old(calls) + 1
      ensures 0.0 <= u < 1.0
    {
      u := draw(calls);
      calls := calls + 1;
    }
  }

  /** `Math.floor(u * n)` for a draw `u`: an index below `n`. */
  function ScaledIndex(u: real, n: nat): (j: nat)
    requires 0.0 <= u < 1.0 && n > 0
    ensures j < n
  {
    assert 0.0 <= u * n as real < n as real by {
      assert n as real - u * n as real == (1.0 - u) * n as real;
    }
    (u * n as real).Floor
  }
}
