/** The rounding the application does with `Math.round` and `Math.floor`. */
module JsMath {

  /** `Math.round(x)`: the nearest integer, with halves rounded up. */
  function MathRound(x: real): (r: int)
    ensures r as real - 0.5 <= x < r as real + 0.5
  {
    (x + 0.5).Floor
  }

  lemma DivBounds(n: nat, d: nat)
    requires d > 0
    ensures d * (n / d) <= n < d * (n / d) + d
  {
  }

  lemma MulCancelLess(d: nat, a: int, b: int)
    requires d > 0 && d * a < d * b
    ensures a < b
  {
  }

  /**
   * `Math.round((c / t) * 100)` for a count `c` out of `t > 0`, computed on
   * integers: the nearest whole percentage, halves rounded up.
   */
  function RoundPercent(c: nat, t: nat): (r: nat)
    requires t > 0
    ensures 2 * t * r <= 200 * c + t < 2 * t * r + 2 * t
    ensures c <= t ==> r <= 100
  {
    var n, d := 200 * c + t, 2 * t;
    var r := n / d;
    DivBounds(n, d);
    assert c <= t ==> r <= 100 by {
      if c <= t {
        assert d * r < d * 101;
        MulCancelLess(d, r, 101);
      }
    }
    r
  }

  /** A count over a positive total is a non-negative ratio, at most 1 exactly when the count is at most the total. */
  lemma RatioBounds(i: real, t: real, q: real)
    requires 0.0 <= i && t > 0.0 && q == i / t
    ensures 0.0 <= q && (i <= t <==> q <= 1.0)
    ensures q == 0.0 <==> i == 0.0
    ensures q == 1.0 <==> i == t
  {
    assert q * t == i;
    ProductSigns(q, t, i);
  }

  /** The sign of `q - 1` and of `q` follow those of `i - t` and `i` when `q * t == i` and `t > 0`. */
  lemma ProductSigns(q: real, t: real, i: real)
    requires t > 0.0 && q * t == i
    ensures q < 0.0 ==> i < 0.0
    ensures q > 1.0 ==> i > t
    ensures q <= 1.0 ==> i <= t
    ensures q == 0.0 ==> i == 0.0
  {
    if q < 0.0 {
      PositiveProduct(0.0 - q, t);
    }
    if q > 1.0 {
      PositiveProduct(q - 1.0, t);
    } else {
      NonNegativeProduct(1.0 - q, t);
    }
  }

  lemma PositiveProduct(a: real, b: real)
    requires a > 0.0 && b > 0.0
    ensures a * b > 0.0
  {
  }

  lemma NonNegativeProduct(a: real, b: real)
    requires a >= 0.0 && b >= 0.0
    ensures a * b >= 0.0
  {
  }

  lemma ScaleBelow(y: real, n: real, d: real)
    requires d > 0.0 && y * d <= n
    ensures y <= n / d
  {
  }

  lemma ScaleAtMost(y: real, n: real, d: real)
    requires d > 0.0 && n <= y * d
    ensures n / d <= y
  {
  }

  lemma ScaleAbove(y: real, n: real, d: real)
    requires d > 0.0 && n < y * d
    ensures n / d < y
  {
  }

  lemma QuotientTimesDivisor(c: real, t: real)
    requires t > 0.0
    ensures (c / t * 100.0 + 0.5) * (2.0 * t) == 200.0 * c + t
  {
    var q := c / t;
    assert q * t == c;
    calc {
      (q * 100.0 + 0.5) * (2.0 * t);
      200.0 * (q * t) + t;
      200.0 * c + t;
    }
  }

  /** The integer formula is `Math.round` applied to the exact percentage. */
  lemma RoundPercentIsMathRound(c: nat, t: nat)
    requires t > 0
    ensures RoundPercent(c, t) == MathRound(c as real / t as real * 100.0)
  {
    var r := RoundPercent(c, t);
    var y := c as real / t as real * 100.0 + 0.5;
    var n, d := (200 * c + t) as real, (2 * t) as real;
    QuotientTimesDivisor(c as real, t as real);
    assert y * d == n;
    assert r as real * d <= n by {
      assert (2 * t * r) as real == r as real * d;
    }
    assert n < (r + 1) as real * d by {
      assert (2 * t * r + 2 * t) as real == (r + 1) as real * d;
    }
    ScaleBelow(r as real, n, d);
    ScaleAbove((r + 1) as real, n, d);
    assert y == n / d;
  }
}
