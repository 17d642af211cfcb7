/** Facts about real numbers that several modules share. */
module Arithmetic {
  lemma Scaled(x: real, y: real, n: real)
    requires x < y && n > 0.0
    ensures x * n < y * n
  {
    assert (y - x) * n > 0.0;
  }

  /** A quotient lies between two numbers if the dividend lies between their multiples. */
  lemma QuotientBounds(x: real, n: real, low: real, high: real)
    requires n > 0.0 && low * n <= x <= high * n
    ensures low <= x / n <= high
  {
    var m := x / n;
    assert m * n == x;
    if m < low {
      Scaled(m, low, n);
    } else if m > high {
      Scaled(high, m, n);
    }
  }
}
