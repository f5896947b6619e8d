/** Products of fractions. */
module Reals {

  lemma ProductNonNegative(x: real, y: real)
    requires x >= 0.0 && y >= 0.0
    ensures x * y >= 0.0
  {
  }

  lemma ProductPositive(x: real, y: real)
    requires x > 0.0 && y > 0.0
    ensures x * y > 0.0
  {
  }

  lemma ProperFraction(a: real, b: real)
    requires 0.0 <= a < 1.0 && 0.0 < b
    ensures 0.0 <= a * b < b
  {
    ProductNonNegative(a, b);
    ProductPositive(1.0 - a, b);
    assert (1.0 - a) * b == b - a * b;
  }

  lemma FractionOfFraction(a: real, b: real)
    requires 0.0 <= a < 1.0 && 0.0 <= b <= 1.0
    ensures 0.0 <= a * b <= a
  {
    ProductNonNegative(a, b);
    ProductNonNegative(a, 1.0 - b);
    assert a * (1.0 - b) == a - a * b;
  }

  /** Multiplying by a positive number keeps the order. */
  lemma TimesPositive(x: real, y: real, t: real)
    requires t > 0.0
    ensures x < y <==> x * t < y * t
  {
    if x < y {
      ProductPositive(y - x, t);
      assert (y - x) * t == y * t - x * t;
    } else {
      ProductNonNegative(x - y, t);
      assert (x - y) * t == x * t - y * t;
    }
  }
}
