/**
 * Fixed-point amounts as stored by a decimal field with at most ten digits,
 * two of them after the point. An amount is held as an integer number of
 * cents; a submitted decimal is a sign, a coefficient and a power of ten,
 * and its digits are counted the way such a field counts them: every digit
 * of the written coefficient, trailing zeros included.
 */
module Decimals {

  /** Most digits an amount may have (`max_digits=10`). */
  const MaxDigits: nat := 10
  /** Most digits after the point (`decimal_places=2`). */
  const DecimalPlaces: nat := 2

  function Pow10(n: nat): (p: nat)
    ensures p >= 1
  {
    if n == 0 then 1 else 10 * Pow10(n - 1)
  }

  /** One cent more than the largest amount the field holds: 10^10 cents, 99 999 999.99 units. */
  function CentsLimit(): (c: nat)
    ensures c == 10_000_000_000
  {
    Pow10(MaxDigits)
  }

  /** A stored amount: at most ten digits, two of them decimals. */
  predicate FitsField(cents: int)
  {
    -(CentsLimit() as int) < cents < CentsLimit()
  }

  /** A finite decimal as submitted: (-1)^negative * coefficient * 10^exponent. */
  datatype RawDecimal = RawDecimal(negative: bool, coefficient: nat, exponent: int)

  /** Number of digits written for a coefficient (0 is written with one digit). */
  function DigitCount(n: nat): (d: nat)
    ensures d >= 1
  {
    if n < 10 then 1 else 1 + DigitCount(n / 10)
  }

  /**
   * The total number of digits and the number of digits after the point
   * of a submitted decimal. A positive exponent adds trailing zeros before
   * the point (except for zero itself); a negative exponent larger than the
   * coefficient's digit count adds leading zeros after the point.
   */
  function DigitsAndPlaces(d: RawDecimal): (nat, nat)
  {
    var n := DigitCount(d.coefficient);
    if d.exponent >= 0 then
      (if d.coefficient != 0 then n + d.exponent else n, 0)
    else if -d.exponent > n then
      (-d.exponent, -d.exponent)
    else
      (n, -d.exponent)
  }

  /** The digit limits of the field: ten digits, two decimals, eight before the point. */
  predicate FitsDigits(d: RawDecimal)
  {
    var (digits, places) := DigitsAndPlaces(d);
    digits <= MaxDigits && places <= DecimalPlaces && digits - places <= MaxDigits - DecimalPlaces
  }

  /** The amount in cents; meaningful when it has at most two decimals. */
  function ToCents(d: RawDecimal): int
    requires d.exponent >= -(DecimalPlaces as int)
  {
    (if d.negative then -1 else 1) * d.coefficient * Pow10(d.exponent + DecimalPlaces)
  }

  lemma {:induction false} Pow10Add(a: nat, b: nat)
    ensures Pow10(a + b) == Pow10(a) * Pow10(b)
  {
    if a > 0 {
      Pow10Add(a - 1, b);
      assert Pow10(a + b) == 10 * Pow10(a - 1 + b);
    }
  }

  /** A coefficient has at most k digits exactly when it is below 10^k. */
  lemma {:induction false} DigitCountBelow(n: nat, k: nat)
    requires n >= 1
    ensures DigitCount(n) <= k <==> n < Pow10(k)
  {
    if n < 10 {
      if k >= 1 { assert Pow10(k) == 10 * Pow10(k - 1); }
    } else if k == 0 {
      assert DigitCount(n) >= 2;
    } else {
      DigitCountBelow(n / 10, k - 1);
      assert Pow10(k) == 10 * Pow10(k - 1);
    }
  }

  lemma {:induction false} MulBelow(a: nat, b: nat, p: nat)
    requires p >= 1
    ensures a < b <==> a * p < b * p
  {
    if p > 1 {
      MulBelow(a, b, p - 1);
      assert a * p == a * (p - 1) + a;
      assert b * p == b * (p - 1) + b;
    }
  }

  lemma ScaleBelow(c: nat, m: nat, k: nat)
    ensures c < Pow10(m) <==> c * Pow10(k) < Pow10(m + k)
  {
    Pow10Add(m, k);
    MulBelow(c, Pow10(m), Pow10(k));
  }

  lemma {:induction false} Pow10Monotone(a: nat, b: nat)
    requires a <= b
    ensures Pow10(a) <= Pow10(b)
  {
    if a < b {
      Pow10Monotone(a, b - 1);
    }
  }

  lemma FitsDigitsNonNegativeExponent(d: RawDecimal)
    requires d.exponent >= 0
    ensures FitsDigits(d) <==> d.coefficient * Pow10(d.exponent + DecimalPlaces) < CentsLimit()
  {
    var c, e := d.coefficient, d.exponent;
    if c != 0 {
      assert DigitsAndPlaces(d) == (DigitCount(c) + e, 0);
      if e <= 8 {
        DigitCountBelow(c, 8 - e);
        ScaleBelow(c, 8 - e, e + 2);
      } else {
        ScaleBelow(c, 0, e + 2);
        Pow10Monotone(10, e + 2);
      }
    }
  }

  lemma FitsDigitsNegativeExponent(d: RawDecimal)
    requires -(DecimalPlaces as int) <= d.exponent < 0
    ensures FitsDigits(d) <==> d.coefficient * Pow10(d.exponent + DecimalPlaces) < CentsLimit()
  {
    var c, q, n := d.coefficient, -d.exponent, DigitCount(d.coefficient);
    if c == 0 {
    } else if q > n {
      assert DigitsAndPlaces(d) == (q, q);
      DigitCountBelow(c, 1);
      assert c * Pow10(2 - q) < 100;
    } else {
      assert DigitsAndPlaces(d) == (n, q);
      DigitCountBelow(c, 8 + q);
      ScaleBelow(c, 8 + q, 2 - q);
    }
  }

  /**
   * The digit limits say the same as "at most two decimals and less than
   * 10^10 cents in magnitude".
   */
  lemma FitsDigitsIff(d: RawDecimal)
    ensures FitsDigits(d) <==>
      d.exponent >= -(DecimalPlaces as int) && d.coefficient * Pow10(d.exponent + DecimalPlaces) < CentsLimit()
  {
    if d.exponent >= 0 {
      FitsDigitsNonNegativeExponent(d);
    } else if d.exponent >= -(DecimalPlaces as int) {
      FitsDigitsNegativeExponent(d);
    } else {
      assert DigitsAndPlaces(d).1 == -d.exponent;
    }
  }
}
