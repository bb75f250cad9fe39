/** The few nonlinear facts the layout proofs rest on. */
module Arithmetic {

  lemma MulMonotone(a: nat, b: nat, factor: nat)
    requires a <= b
    ensures a * factor <= b * factor
  {
  }

  lemma MulMonotoneBoth(a: nat, b: nat, c: nat, d: nat)
    requires a <= b && c <= d
    ensures a * c <= b * d
  {
    MulMonotone(a, b, c);
    MulMonotone(c, d, b);
    assert b * c == c * b && b * d == d * b;
  }

  /** A quotient reaches `quotient` exactly when the dividend reaches that many divisors. */
  lemma QuotientReaches(dividend: nat, divisor: nat, quotient: nat)
    requires divisor > 0
    ensures dividend / divisor >= quotient <==> dividend >= quotient * divisor
  {
    var q, r := dividend / divisor, dividend % divisor;
    assert dividend == q * divisor + r && r < divisor;
    if q >= quotient {
      MulMonotone(quotient, q, divisor);
    } else {
      MulMonotone(q + 1, quotient, divisor);
      assert (q + 1) * divisor == q * divisor + divisor;
    }
  }

  /** A larger high digit wins whatever the low digits are. */
  lemma HighDigitDominates(high1: nat, low1: nat, high2: nat, low2: nat, base: nat)
    requires low1 < base && high1 < high2
    ensures high1 * base + low1 < high2 * base + low2
  {
    MulMonotone(high1 + 1, high2, base);
    assert (high1 + 1) * base == high1 * base + base;
  }

  /** Base-`base` digits are unique. */
  lemma DigitsUnique(high1: nat, low1: nat, high2: nat, low2: nat, base: nat)
    requires low1 < base && low2 < base
    requires high1 * base + low1 == high2 * base + low2
    ensures high1 == high2 && low1 == low2
  {
    if high1 < high2 {
      HighDigitDominates(high1, low1, high2, low2, base);
    } else if high2 < high1 {
      HighDigitDominates(high2, low2, high1, low1, base);
    }
  }
}
