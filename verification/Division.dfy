/** Quotients and remainders. */
module Division {

  lemma QuotientSteps(x: int, k: int)
    requires k > 0
    ensures (x + 1) / k == x / k + if (x + 1) % k == 0 then 1 else 0
  {
    var q, r := x / k, x % k;
    if r == k - 1 {
      QuotientIs(x + 1, k, q + 1, 0);
    } else {
      QuotientIs(x + 1, k, q, r + 1);
    }
  }

  lemma QuotientIs(x: int, k: int, q: int, r: int)
    requires k > 0 && x == k * q + r && 0 <= r < k
    ensures x / k == q && x % k == r
  {
    var d := x / k - q;
    assert k * d == r - x % k;
    MultipleGrows(k, d);
  }

  lemma MultipleGrows(k: int, d: int)
    requires k > 0
    ensures d >= 1 ==> k * d >= k
    ensures d <= -1 ==> k * d <= -k
  {
  }

  /** Multiples of the divisor leave the remainder as it is. */
  lemma SameRemainder(x: int, d: int, k: int)
    requires d > 0
    ensures (x + d * k) % d == x % d
  {
    assert x + d * k == d * (x / d + k) + x % d;
    QuotientIs(x + d * k, d, x / d + k, x % d);
  }
}
