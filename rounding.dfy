/**
 * Math.round applied to a ratio of whole numbers, as the quiz percentage and the
 * grade average use it. The source divides in floating point and rounds half up;
 * the model divides exactly, so a ratio that lies exactly halfway between two
 * whole numbers always rounds up.
 */
module Rounding {
  /** Math.round(n / d): the whole number nearest to n / d, halves rounded up. */
  function RoundDiv(n: int, d: int): (r: int)
    requires d > 0
    ensures d * (2 * r - 1) <= 2 * n < d * (2 * r + 1)
  {
    var q := (2 * n + d) / (2 * d);
    assert 2 * d * q <= 2 * n + d < 2 * d * q + 2 * d by {
      DivBounds(2 * n + d, 2 * d);
    }
    q
  }

  lemma DivBounds(a: int, b: int)
    requires b > 0
    ensures b * (a / b) <= a < b * (a / b) + b
  {
  }

  /** The rounding condition pins down a single whole number. */
  lemma RoundDivUnique(n: int, d: int, r: int)
    requires d > 0
    requires d * (2 * r - 1) <= 2 * n < d * (2 * r + 1)
    ensures RoundDiv(n, d) == r
  {
    var q := RoundDiv(n, d);
    MulCancel(d, 2 * r - 1, 2 * q + 1);
    MulCancel(d, 2 * q - 1, 2 * r + 1);
  }

  lemma MulMonotone(d: int, x: int, y: int)
    requires d > 0 && x <= y
    ensures d * x <= d * y
  {
  }

  /** A whole ratio is its own rounding. */
  lemma RoundDivWhole(k: int, d: int)
    requires d > 0
    ensures RoundDiv(k * d, d) == k
  {
    RoundDivUnique(k * d, d, k);
  }

  /** Rounding keeps a ratio inside whole bounds it already respects. */
  lemma RoundDivBetween(n: int, d: int, lo: int, hi: int)
    requires d > 0
    requires d * lo <= n <= d * hi
    ensures lo <= RoundDiv(n, d) <= hi
  {
    var r := RoundDiv(n, d);
    assert d * (2 * lo) == 2 * (d * lo) && d * (2 * hi) == 2 * (d * hi);
    assert d * (2 * lo) < d * (2 * r + 1);
    MulCancel(d, 2 * lo, 2 * r + 1);
    assert d * (2 * r - 1) <= d * (2 * hi);
    MulCancelLe(d, 2 * r - 1, 2 * hi);
  }

  lemma MulCancel(d: int, x: int, y: int)
    requires d > 0 && d * x < d * y
    ensures x < y
  {
    if x >= y { MulMonotone(d, y, x); }
  }

  lemma MulCancelLe(d: int, x: int, y: int)
    requires d > 0 && d * x <= d * y
    ensures x <= y
  {
    if x > y { MulMonotone(d, y + 1, x); }
  }

  /** A larger numerator never rounds lower. */
  lemma RoundDivMonotone(n: int, m: int, d: int)
    requires d > 0 && n <= m
    ensures RoundDiv(n, d) <= RoundDiv(m, d)
  {
    var a, b := RoundDiv(n, d), RoundDiv(m, d);
    MulCancel(d, 2 * a - 1, 2 * b + 1);
  }
}
