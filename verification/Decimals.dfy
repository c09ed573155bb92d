/** Finite decimal numbers, their real values, and directed-rounding subtraction. */
module Decimals {
  import opened Common

  /** (-1)^negative * coefficient * 10^exponent, as Python's finite Decimal. */
  datatype Decimal = Decimal(negative: bool, coefficient: nat, exponent: int)

  /** The length of the digit tuple of a coefficient; zero has one digit. */
  function DigitCount(c: nat): (n: nat)
    ensures n >= 1
  {
    if c < 10 then 1 else 1 + DigitCount(c / 10)
  }

  function Signed(d: Decimal): int {
    if d.negative then -(d.coefficient as int) else d.coefficient
  }

  /** `s * 10^n`. */
  function Shifted(s: int, n: nat): int {
    if n == 0 then s else 10 * Shifted(s, n - 1)
  }

  /** `x * 10^e`, for every integer `e`. */
  function Units(x: real, e: int): real
    decreases if e < 0 then -e else e
  {
    if e == 0 then x else if e > 0 then 10.0 * Units(x, e - 1) else Units(x, e + 1) / 10.0
  }

  function LowerExponent(a: Decimal, b: Decimal): int {
    if a.exponent <= b.exponent then a.exponent else b.exponent
  }

  /** The value in units of 10^base. */
  function Scaled(d: Decimal, base: int): int
    requires base <= d.exponent
  {
    Shifted(Signed(d), d.exponent - base)
  }

  /** The rational number a decimal denotes. */
  function Value(d: Decimal): real {
    Units(Signed(d) as real, d.exponent)
  }

  /** Exact comparison. */
  predicate LessThan(a: Decimal, b: Decimal) {
    var base := LowerExponent(a, b);
    Scaled(a, base) < Scaled(b, base)
  }

  predicate EqualTo(a: Decimal, b: Decimal) {
    var base := LowerExponent(a, b);
    Scaled(a, base) == Scaled(b, base)
  }

  /** The result of a context operation and its Inexact flag. */
  datatype Rounded = Rounded(value: Decimal, inexact: bool)

  function Quotient(n: nat, d: nat): nat
    requires d >= 1
  {
    n / d
  }

  function Remainder(n: nat, d: nat): nat
    requires d >= 1
  {
    n % d
  }

  /** A nonnegative number of units of 10^base, rounded down to `precision` significant digits. */
  function RoundDown(units: nat, base: int, precision: nat): Rounded
    requires precision >= 1
  {
    var digits := DigitCount(units);
    if digits <= precision then Rounded(Decimal(false, units, base), false)
    else
      var drop := digits - precision;
      Rounded(Decimal(false, Quotient(units, Pow10(drop)), base + drop), Remainder(units, Pow10(drop)) != 0)
  }

  /** `high - low` in a context of the given precision rounding toward negative infinity. */
  function SubtractFloor(high: Decimal, low: Decimal, precision: nat): Rounded
    requires precision >= 1 && !LessThan(high, low)
  {
    var base := LowerExponent(high, low);
    RoundDown(Scaled(high, base) - Scaled(low, base), base, precision)
  }

  // ----- powers of ten -----------------------------------------------------------------------

  lemma {:induction false} ShiftedIsProduct(s: int, n: nat)
    ensures Shifted(s, n) == s * Pow10(n)
  {
    if n > 0 {
      ShiftedIsProduct(s, n - 1);
      var p := Pow10(n - 1);
      assert s * (10 * p) == 10 * (s * p);
    }
  }

  lemma {:induction false} ShiftedTwice(s: int, m: nat, n: nat)
    ensures Shifted(Shifted(s, m), n) == Shifted(s, m + n)
  {
    if n > 0 { ShiftedTwice(s, m, n - 1); }
  }

  lemma {:induction false} UnitsOfTenfold(x: real, e: int)
    ensures Units(10.0 * x, e) == Units(x, e + 1)
    decreases if e < 0 then -e else e
  {
    if e > 0 { UnitsOfTenfold(x, e - 1); }
    if e < 0 { UnitsOfTenfold(x, e + 1); }
  }

  lemma {:induction false} UnitsOfShifted(s: int, n: nat, base: int)
    ensures Units(Shifted(s, n) as real, base) == Units(s as real, base + n)
    decreases n
  {
    if n > 0 {
      UnitsOfTenfold(Shifted(s, n - 1) as real, base);
      UnitsOfShifted(s, n - 1, base + 1);
    }
  }

  /** Scaling changes the unit, not the value. */
  lemma {:induction false} ValueIsScaled(d: Decimal, base: int)
    requires base <= d.exponent
    ensures Value(d) == Units(Scaled(d, base) as real, base)
  {
    UnitsOfShifted(Signed(d), d.exponent - base, base);
  }

  /**
   * The value of a decimal, defined by what it is at exponent zero, what the sign does and what
   * one step of the exponent does.
   */
  lemma {:induction false} ValueLaws(c: nat, e: int)
    ensures Value(Decimal(false, c, 0)) == c as real
    ensures Value(Decimal(true, c, e)) == -Value(Decimal(false, c, e))
    ensures Value(Decimal(false, c, e + 1)) == 10.0 * Value(Decimal(false, c, e))
  {
    UnitsOfOpposite(c as real, e);
    UnitsStep(c as real, e);
  }

  lemma {:induction false} UnitsOfOpposite(x: real, e: int)
    ensures Units(-x, e) == -Units(x, e)
    decreases if e < 0 then -e else e
  {
    if e > 0 { UnitsOfOpposite(x, e - 1); }
    if e < 0 { UnitsOfOpposite(x, e + 1); }
  }

  lemma UnitsStep(x: real, e: int)
    ensures Units(x, e + 1) == 10.0 * Units(x, e)
  {
  }

  lemma {:induction false} UnitsOrder(x: real, y: real, e: int)
    ensures x < y <==> Units(x, e) < Units(y, e)
    decreases if e < 0 then -e else e
  {
    if e > 0 { UnitsOrder(x, y, e - 1); }
    if e < 0 { UnitsOrder(x, y, e + 1); }
  }

  lemma {:induction false} UnitsDifference(x: real, y: real, e: int)
    ensures Units(x, e) - Units(y, e) == Units(x - y, e)
    decreases if e < 0 then -e else e
  {
    if e > 0 { UnitsDifference(x, y, e - 1); }
    if e < 0 { UnitsDifference(x, y, e + 1); }
  }

  /** Comparison is comparison of values, for every pair of exponents. */
  lemma ComparisonIsExact(a: Decimal, b: Decimal)
    ensures LessThan(a, b) <==> Value(a) < Value(b)
    ensures EqualTo(a, b) <==> Value(a) == Value(b)
  {
    var base := LowerExponent(a, b);
    ValueIsScaled(a, base);
    ValueIsScaled(b, base);
    UnitsOrder(Scaled(a, base) as real, Scaled(b, base) as real, base);
    UnitsOrder(Scaled(b, base) as real, Scaled(a, base) as real, base);
  }

  // ----- digits ------------------------------------------------------------------------------

  lemma {:induction false} DigitBounds(c: nat)
    ensures c < Pow10(DigitCount(c))
    ensures c > 0 ==> Pow10(DigitCount(c) - 1) <= c
  {
    if c >= 10 {
      DigitBounds(c / 10);
      assert c / 10 + 1 <= Pow10(DigitCount(c / 10));
      assert DigitCount(c) == 1 + DigitCount(c / 10);
    }
  }

  lemma {:induction false} ShiftedMonotone(s: int, t: int, n: nat)
    ensures s <= t <==> Shifted(s, n) <= Shifted(t, n)
  {
    if n > 0 { ShiftedMonotone(s, t, n - 1); }
  }

  lemma {:induction false} PowIsShifted(m: nat, n: nat)
    ensures Shifted(Pow10(m), n) == Pow10(m + n)
  {
    if n > 0 { PowIsShifted(m, n - 1); }
  }

  lemma {:induction false} ShiftedSum(s: int, t: int, n: nat)
    ensures Shifted(s + t, n) == Shifted(s, n) + Shifted(t, n)
  {
    if n > 0 { ShiftedSum(s, t, n - 1); }
  }
}
