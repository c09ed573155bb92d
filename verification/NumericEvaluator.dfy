/**
 * The numeric-tolerance evaluator: number syntax, and the decision |actual - expected| <= tolerance
 * made from one bounded-precision, downward-rounded subtraction and its Inexact flag.
 */
module NumericEvaluator {
  import opened Common
  import opened Decimals

  // ----- number syntax -----------------------------------------------------------------------

  datatype Sign = NoSign | Plus | Minus

  datatype ExponentText = ExponentText(marker: char, sign: Sign, digits: string)

  /** The parts of a number text: minus sign, integer part, fraction and exponent. */
  datatype NumberText = NumberText(negative: bool, whole: string, fraction: Option<string>,
                                   exponent: Option<ExponentText>)

  predicate SomeDigits(s: string) {
    s != [] && AllDigits(s)
  }

  predicate WellFormedExponent(x: ExponentText) {
    && (x.marker == 'e' || x.marker == 'E')
    && SomeDigits(x.digits)
  }

  /** The number grammar of section 6 of RFC 8259. */
  predicate WellFormed(n: NumberText) {
    && SomeDigits(n.whole) && (|n.whole| == 1 || n.whole[0] != '0')
    && (n.fraction.Some? ==> SomeDigits(n.fraction.value))
    && (n.exponent.Some? ==> WellFormedExponent(n.exponent.value))
  }

  function Marked(marker: char, sign: Sign): string {
    match sign
    case NoSign => [marker]
    case Plus => [marker, '+']
    case Minus => [marker, '-']
  }

  function RenderExponent(e: Option<ExponentText>): string {
    if e.None? then [] else Marked(e.value.marker, e.value.sign) + e.value.digits
  }

  function RenderTail(f: Option<string>, e: Option<ExponentText>): string {
    if f.None? then RenderExponent(e) else ['.'] + (f.value + RenderExponent(e))
  }

  function Render(n: NumberText): string {
    (if n.negative then "-" else "") + (n.whole + RenderTail(n.fraction, n.exponent))
  }

  /** The length of the longest prefix of digits. */
  function DigitRun(s: string): (n: nat)
    ensures n <= |s|
    ensures forall i :: 0 <= i < n ==> IsDigit(s[i])
    ensures n < |s| ==> !IsDigit(s[n])
  {
    if s == [] || !IsDigit(s[0]) then 0 else 1 + DigitRun(s[1..])
  }

  function SplitExponent(s: string): Option<Option<ExponentText>> {
    if s == [] then Some(None)
    else if s[0] != 'e' && s[0] != 'E' then None
    else
      var sign := if |s| > 1 && s[1] == '+' then Plus else if |s| > 1 && s[1] == '-' then Minus else NoSign;
      var digits := s[if sign == NoSign then 1 else 2..];
      if digits == [] || DigitRun(digits) < |digits| then None
      else Some(Some(ExponentText(s[0], sign, digits)))
  }

  datatype Tail = Tail(fraction: Option<string>, exponent: Option<ExponentText>)

  /** What may follow the integer part. */
  function SplitTail(rest: string): Option<Tail> {
    if rest != [] && rest[0] == '.' then
      var body := rest[1..];
      var f := DigitRun(body);
      if f == 0 then None
      else match SplitExponent(body[f..])
        case None => None
        case Some(e) => Some(Tail(Some(body[..f]), e))
    else match SplitExponent(rest)
      case None => None
      case Some(e) => Some(Tail(None, e))
  }

  function SplitUnsigned(negative: bool, s: string): Option<NumberText> {
    var w := DigitRun(s);
    if w == 0 || (w > 1 && s[0] == '0') then None
    else match SplitTail(s[w..])
      case None => None
      case Some(t) => Some(NumberText(negative, s[..w], t.fraction, t.exponent))
  }

  function Split(text: string): Option<NumberText> {
    if text != [] && text[0] == '-' then SplitUnsigned(true, text[1..]) else SplitUnsigned(false, text)
  }

  lemma {:induction false} DigitRunOf(digits: string, rest: string)
    requires AllDigits(digits)
    requires rest == [] || !IsDigit(rest[0])
    ensures DigitRun(digits + rest) == |digits|
  {
    if digits == [] {
      assert digits + rest == rest;
    } else {
      assert (digits + rest)[1..] == digits[1..] + rest;
      DigitRunOf(digits[1..], rest);
    }
  }

  lemma ExponentRoundTrip(e: Option<ExponentText>)
    requires e.Some? ==> WellFormedExponent(e.value)
    ensures SplitExponent(RenderExponent(e)) == Some(e)
  {
  }

  lemma TailRoundTrip(f: Option<string>, e: Option<ExponentText>)
    requires f.Some? ==> SomeDigits(f.value)
    requires e.Some? ==> WellFormedExponent(e.value)
    ensures SplitTail(RenderTail(f, e)) == Some(Tail(f, e))
    ensures RenderTail(f, e) != [] ==> !IsDigit(RenderTail(f, e)[0])
  {
    ExponentRoundTrip(e);
    var x := RenderExponent(e);
    assert x == [] || !IsDigit(x[0]);
    if f.Some? { FractionRoundTrip(f.value, x, e); }
  }

  lemma FractionRoundTrip(f: string, x: string, e: Option<ExponentText>)
    requires SomeDigits(f) && SplitExponent(x) == Some(e) && (x == [] || !IsDigit(x[0]))
    ensures SplitTail(['.'] + (f + x)) == Some(Tail(Some(f), e))
  {
    var body := f + x;
    DigitRunOf(f, x);
    assert (['.'] + body)[1..] == body;
    assert body[..|f|] == f && body[|f|..] == x;
  }

  lemma WholeRoundTrip(n: NumberText, tail: string)
    requires WellFormed(n) && SplitTail(tail) == Some(Tail(n.fraction, n.exponent)) && (tail == [] || !IsDigit(tail[0]))
    ensures SplitUnsigned(n.negative, n.whole + tail) == Some(n)
  {
    var s := n.whole + tail;
    DigitRunOf(n.whole, tail);
    assert s[..|n.whole|] == n.whole && s[|n.whole|..] == tail;
  }

  /** Every text of the grammar is accepted and splits into its own parts. */
  lemma GrammarIsAccepted(n: NumberText)
    requires WellFormed(n)
    ensures Split(Render(n)) == Some(n)
  {
    var tail := RenderTail(n.fraction, n.exponent);
    var s := n.whole + tail;
    TailRoundTrip(n.fraction, n.exponent);
    WholeRoundTrip(n, tail);
    if n.negative {
      assert Render(n)[0] == '-' && Render(n)[1..] == s;
    } else {
      assert Render(n) == s && s[0] == n.whole[0];
    }
  }

  /** Only texts of the grammar are accepted, and the parts put together are the text. */
  lemma AcceptedIsGrammar(text: string)
    requires Split(text).Some?
    ensures WellFormed(Split(text).value)
    ensures Render(Split(text).value) == text
  {
    if text != [] && text[0] == '-' {
      AcceptedUnsigned(true, text[1..]);
      assert text == "-" + text[1..];
    } else {
      AcceptedUnsigned(false, text);
      assert text == "" + text;
    }
  }

  lemma AcceptedUnsigned(negative: bool, s: string)
    requires SplitUnsigned(negative, s).Some?
    ensures
      var n := SplitUnsigned(negative, s).value;
      WellFormed(n) && n.negative == negative && n.whole + RenderTail(n.fraction, n.exponent) == s
  {
    AcceptedTail(s[DigitRun(s)..]);
  }

  lemma AcceptedTail(rest: string)
    requires SplitTail(rest).Some?
    ensures
      var t := SplitTail(rest).value;
      && RenderTail(t.fraction, t.exponent) == rest
      && (t.fraction.Some? ==> SomeDigits(t.fraction.value))
      && (t.exponent.Some? ==> WellFormedExponent(t.exponent.value))
  {
    if rest != [] && rest[0] == '.' {
      var body := rest[1..];
      var f := DigitRun(body);
      AcceptedExponent(body[f..]);
      assert body == body[..f] + body[f..];
      assert rest == ['.'] + body;
    } else {
      AcceptedExponent(rest);
    }
  }

  lemma AcceptedExponent(s: string)
    requires SplitExponent(s).Some?
    ensures RenderExponent(SplitExponent(s).value) == s
    ensures SplitExponent(s).value.Some? ==> WellFormedExponent(SplitExponent(s).value.value)
  {
  }

  /** The decimal a number text denotes: all digits as coefficient, shifted by the fraction. */
  function Denoted(n: NumberText): Decimal
    requires WellFormed(n)
  {
    var fraction := if n.fraction.None? then "" else n.fraction.value;
    var shift := if n.exponent.None? then 0
                 else if n.exponent.value.sign == Minus then -(DigitsValue(n.exponent.value.digits) as int)
                 else DigitsValue(n.exponent.value.digits);
    Decimal(n.negative, DigitsValue(n.whole + fraction), shift - |fraction|)
  }

  lemma {:induction false} DigitsConcat(a: string, b: string)
    requires AllDigits(a + b)
    ensures AllDigits(a)
    ensures AllDigits(b)
    ensures DigitsValue(a + b) == Shifted(DigitsValue(a), |b|) + DigitsValue(b)
  {
    forall i | 0 <= i < |a| ensures IsDigit(a[i]) { assert (a + b)[i] == a[i]; }
    forall i | 0 <= i < |b| ensures IsDigit(b[i]) { assert (a + b)[|a| + i] == b[i]; }
    if b == [] {
      assert a + b == a;
    } else {
      var n := |b| - 1;
      assert (a + b)[..|a + b| - 1] == a + b[..n];
      DigitsConcat(a, b[..n]);
    }
  }

  /** The denoted decimal is the fraction appended to the integer part, scaled by the exponent. */
  lemma DenotedMeaning(n: NumberText)
    requires WellFormed(n)
    ensures
      var d, f := Denoted(n), if n.fraction.None? then "" else n.fraction.value;
      && AllDigits(n.whole) && AllDigits(f)
      && d.coefficient == Shifted(DigitsValue(n.whole), |f|) + DigitsValue(f)
      && (d.negative <==> n.negative)
      && (n.exponent.None? ==> d.exponent == -|f|)
      && (n.exponent.Some? ==>
            d.exponent + |f| ==
            (if n.exponent.value.sign == Minus then -1 else 1) * DigitsValue(n.exponent.value.digits))
  {
    var f := if n.fraction.None? then "" else n.fraction.value;
    DigitsConcat(n.whole, f);
  }

  function ParseNumber(text: string): Option<Decimal> {
    if Split(text).None? then None
    else
      AcceptedIsGrammar(text);
      Some(Denoted(Split(text).value))
  }

  // ----- the decision ------------------------------------------------------------------------

  datatype NumericReason = Match | OutsideTolerance | InvalidNumber

  predicate ValidTolerance(t: Decimal) { 0 <= Signed(t) }

  function Larger(a: Decimal, b: Decimal): Decimal { if LessThan(a, b) then b else a }

  function Smaller(a: Decimal, b: Decimal): Decimal { if LessThan(b, a) then b else a }

  function MaxNat(a: nat, b: nat): nat { if a < b then b else a }

  function Precision(a: Decimal, e: Decimal, t: Decimal): nat {
    MaxNat(DigitCount(a.coefficient), MaxNat(DigitCount(e.coefficient), DigitCount(t.coefficient))) + 2
  }

  /** The comparison after the shortcuts, at a given precision. */
  predicate GapWithin(a: Decimal, e: Decimal, t: Decimal, precision: nat)
    requires precision >= 1
  {
    var high, low := Larger(a, e), Smaller(a, e);
    var gap := SubtractFloor(high, low, precision);
    LessThan(gap.value, t) || (EqualTo(gap.value, t) && !gap.inexact)
  }

  function Decide(a: Decimal, e: Decimal, t: Decimal): NumericReason {
    if t.coefficient == 0 || EqualTo(a, e) then
      if EqualTo(a, e) then Match else OutsideTolerance
    else if GapWithin(a, e, t, Precision(a, e, t)) then Match
    else OutsideTolerance
  }

  function NumericReasonOf(text: string, expected: Decimal, tolerance: Decimal): NumericReason {
    match ParseNumber(text)
    case None => InvalidNumber
    case Some(number) => Decide(number, expected, tolerance)
  }

  // ----- why it is exact ---------------------------------------------------------------------

  /**
   * Rounding down to P digits returns the greatest P-digit decimal not above the number: any
   * decimal with at most P digits that is not above the exact number is not above the rounded one.
   */
  lemma {:induction false} RoundDownIsGreatest(units: nat, base: int, precision: nat, t: Decimal, low: int)
    requires precision >= 1 && DigitCount(t.coefficient) <= precision && ValidTolerance(t)
    requires low <= base && low <= t.exponent
    ensures
      var r := RoundDown(units, base, precision);
      && low <= r.value.exponent
      && Scaled(r.value, low) <= Shifted(units, base - low)
      && (r.inexact <==> Scaled(r.value, low) != Shifted(units, base - low))
      && (Scaled(t, low) <= Shifted(units, base - low) ==> Scaled(t, low) <= Scaled(r.value, low))
  {
    var digits := DigitCount(units);
    if digits > precision {
      var drop := digits - precision;
      var q := Quotient(units, Pow10(drop));
      ShiftedIsProduct(q, drop);
      QuotientFacts(units, Pow10(drop));
      ShiftedTwice(q, drop, base - low);
      assert Shifted(q, drop + (base - low)) == Shifted(Shifted(q, drop), base - low);
      ShiftedMonotone(Shifted(q, drop), units, base - low);
      ShiftedMonotone(units, Shifted(q, drop), base - low);
      if base + drop <= t.exponent {
        LongToleranceCase(units, base, drop, t, low);
      } else {
        ShortToleranceCase(units, base, precision, t, low);
      }
    }
  }

  lemma QuotientFacts(n: nat, d: nat)
    requires d >= 1
    ensures Quotient(n, d) * d <= n
    ensures Remainder(n, d) == 0 <==> Quotient(n, d) * d == n
    ensures forall k: int :: k * d <= n ==> k <= Quotient(n, d)
  {
    forall k: int | k * d <= n ensures k <= Quotient(n, d) {
      QuotientIsGreatest(n, d, k);
    }
  }

  lemma QuotientIsGreatest(n: nat, d: nat, k: int)
    requires d >= 1 && k * d <= n
    ensures k <= Quotient(n, d)
  {
    var q := Quotient(n, d);
    assert n < (q + 1) * d;
    ProductOrder(q + 1, k, d);
  }

  lemma LongToleranceCase(units: nat, base: int, drop: nat, t: Decimal, low: int)
    requires low <= base && base + drop <= t.exponent
    ensures Scaled(t, low) <= Shifted(units, base - low) ==>
              Scaled(t, low) <= Shifted(Quotient(units, Pow10(drop)), drop + (base - low))
  {
    var k := Shifted(Signed(t), t.exponent - (base + drop));
    ShiftedTwice(Signed(t), t.exponent - (base + drop), drop + (base - low));
    assert Scaled(t, low) == Shifted(k, drop + (base - low));
    ShiftedTwice(k, drop, base - low);
    ShiftedMonotone(Shifted(k, drop), units, base - low);
    ShiftedIsProduct(k, drop);
    QuotientFacts(units, Pow10(drop));
    ShiftedMonotone(k, Quotient(units, Pow10(drop)), drop + (base - low));
  }

  lemma ShortToleranceCase(units: nat, base: int, precision: nat, t: Decimal, low: int)
    requires precision >= 1 && DigitCount(t.coefficient) <= precision < DigitCount(units) && ValidTolerance(t)
    requires low <= base && low <= t.exponent < base + (DigitCount(units) - precision)
    ensures var drop := DigitCount(units) - precision;
            Scaled(t, low) <= Shifted(Quotient(units, Pow10(drop)), drop + (base - low))
  {
    var drop := DigitCount(units) - precision;
    var q := Quotient(units, Pow10(drop));
    var room := drop + (base - low) - 1 - (t.exponent - low);
    FullQuotient(units, precision);
    ShortTolerance(t, precision, low);
    PowGrows(precision + (t.exponent - low), room);
    PowIsShifted(precision - 1, drop + (base - low));
    assert precision - 1 + (drop + (base - low)) == precision + (t.exponent - low) + room;
    ShiftedMonotone(Pow10(precision - 1), q, drop + (base - low));
  }

  /** The rounded quotient has a full set of digits. */
  lemma FullQuotient(units: nat, precision: nat)
    requires 1 <= precision < DigitCount(units)
    ensures Pow10(precision - 1) <= Quotient(units, Pow10(DigitCount(units) - precision))
  {
    var drop := DigitCount(units) - precision;
    DigitBounds(units);
    PowIsShifted(precision - 1, drop);
    ShiftedIsProduct(Pow10(precision - 1), drop);
    QuotientFacts(units, Pow10(drop));
  }

  /** A tolerance of at most `precision` digits stays below the next power of ten. */
  lemma ShortTolerance(t: Decimal, precision: nat, low: int)
    requires DigitCount(t.coefficient) <= precision && ValidTolerance(t) && low <= t.exponent
    ensures Scaled(t, low) <= Pow10(precision + (t.exponent - low))
  {
    var digits := DigitCount(t.coefficient);
    DigitBounds(t.coefficient);
    PowGrows(digits, precision - digits);
    ShiftedMonotone(Signed(t), Pow10(precision), t.exponent - low);
    PowIsShifted(precision, t.exponent - low);
  }

  lemma {:induction false} PowGrows(m: nat, n: nat)
    ensures Pow10(m) <= Pow10(m + n)
  {
    if n > 0 { PowGrows(m, n - 1); }
  }

  lemma {:induction false} PowOrder(m: nat, n: nat)
    ensures m <= n ==> Pow10(m) <= Pow10(n)
  {
    if m <= n { PowGrows(m, n - m); }
  }

  /**
   * The rounded gap and the flag decide the exact comparison, at any precision that represents
   * the tolerance.
   */
  lemma {:induction false} RoundedGapDecides(units: nat, base: int, precision: nat, t: Decimal)
    requires precision >= 1 && DigitCount(t.coefficient) <= precision && ValidTolerance(t)
    ensures
      var r := RoundDown(units, base, precision);
      (LessThan(r.value, t) || (EqualTo(r.value, t) && !r.inexact)) <==> Units(units as real, base) <= Value(t)
  {
    var r := RoundDown(units, base, precision);
    var low := if base <= t.exponent then base else t.exponent;
    RoundDownIsGreatest(units, base, precision, t, low);
    ComparisonIsExact(r.value, t);
    ValueIsScaled(r.value, low);
    ValueIsScaled(t, low);
    UnitsOfShifted(units, base - low, low);
    var exact, rounded, tol := Shifted(units, base - low), Scaled(r.value, low), Scaled(t, low);
    UnitsOrder(rounded as real, tol as real, low);
    UnitsOrder(tol as real, rounded as real, low);
    UnitsOrder(tol as real, exact as real, low);
  }

  /** The magnitude of a real. */
  function Abs(x: real): real { if x < 0.0 then -x else x }

  lemma GapIsDifference(high: Decimal, low: Decimal)
    requires !LessThan(high, low)
    ensures
      var base := LowerExponent(high, low);
      Units((Scaled(high, base) - Scaled(low, base)) as real, base) == Value(high) - Value(low)
  {
    var base := LowerExponent(high, low);
    ValueIsScaled(high, base);
    ValueIsScaled(low, base);
    UnitsDifference(Scaled(high, base) as real, Scaled(low, base) as real, base);
  }

  /** At any precision that represents the tolerance, the rounded comparison is the exact one. */
  lemma GapWithinIsExact(a: Decimal, e: Decimal, t: Decimal, precision: nat)
    requires ValidTolerance(t) && precision >= 1 && DigitCount(t.coefficient) <= precision
    ensures GapWithin(a, e, t, precision) <==> Abs(Value(a) - Value(e)) <= Value(t)
  {
    var high, low := Larger(a, e), Smaller(a, e);
    var base := LowerExponent(high, low);
    ComparisonIsExact(a, e);
    ComparisonIsExact(e, a);
    ComparisonIsExact(high, low);
    GapIsDifference(high, low);
    RoundedGapDecides(Scaled(high, base) - Scaled(low, base), base, precision, t);
  }

  /**
   * The evaluator is exact: for all decimals of any length and any exponent gap, the answer is
   * Match precisely when the distance of the two rationals is at most the tolerance.
   */
  lemma DecideIsExact(a: Decimal, e: Decimal, t: Decimal)
    requires ValidTolerance(t)
    ensures Decide(a, e, t) == Match <==> Abs(Value(a) - Value(e)) <= Value(t)
    ensures Decide(a, e, t) != InvalidNumber
  {
    ComparisonIsExact(a, e);
    ToleranceValue(t);
    if t.coefficient != 0 && !EqualTo(a, e) {
      GapWithinIsExact(a, e, t, Precision(a, e, t));
    }
  }

  lemma ToleranceValue(t: Decimal)
    requires ValidTolerance(t)
    ensures 0.0 <= Value(t)
    ensures Value(t) == 0.0 <==> t.coefficient == 0
  {
    UnitsOfZero(t.exponent);
    UnitsOrder(Signed(t) as real, 0.0, t.exponent);
    UnitsOrder(0.0, Signed(t) as real, t.exponent);
  }

  lemma {:induction false} UnitsOfZero(e: int)
    ensures Units(0.0, e) == 0.0
    decreases if e < 0 then -e else e
  {
    if e > 0 { UnitsOfZero(e - 1); }
    if e < 0 { UnitsOfZero(e + 1); }
  }

  // ----- which precision is enough -----------------------------------------------------------

  /** The comparison at `precision` is the exact one, for every pair of numbers. */
  ghost predicate ExactAt(t: Decimal, precision: nat)
    requires precision >= 1
  {
    forall a, e :: GapWithin(a, e, t, precision) <==> Abs(Value(a) - Value(e)) <= Value(t)
  }

  /** Some decimal of at most `precision` digits equals the tolerance. */
  ghost predicate Representable(t: Decimal, precision: nat) {
    exists d: Decimal :: DigitCount(d.coefficient) <= precision && Value(d) == Value(t)
  }

  /** Only the value of the tolerance matters, not the way it is written. */
  lemma GapWithinByValue(a: Decimal, e: Decimal, t: Decimal, d: Decimal, precision: nat)
    requires precision >= 1 && Value(d) == Value(t)
    ensures GapWithin(a, e, t, precision) <==> GapWithin(a, e, d, precision)
  {
    var high, low := Larger(a, e), Smaller(a, e);
    var gap := SubtractFloor(high, low, precision);
    ComparisonIsExact(gap.value, t);
    ComparisonIsExact(gap.value, d);
  }

  /** The least decimal above the tolerance that has one digit more. */
  function JustAbove(t: Decimal): Decimal
    requires ValidTolerance(t)
  {
    Decimal(false, 10 * t.coefficient + 1, t.exponent - 1)
  }

  /** Zero, written with the same exponent. */
  function ZeroLike(d: Decimal): Decimal {
    Decimal(false, 0, d.exponent)
  }

  lemma AboveTolerance(t: Decimal)
    requires ValidTolerance(t)
    ensures Value(t) < Value(JustAbove(t)) && Value(ZeroLike(JustAbove(t))) == 0.0
  {
    var a := JustAbove(t);
    ComparisonIsExact(t, a);
    assert Shifted(Signed(t), 1) == 10 * Shifted(Signed(t), 0);
    assert Scaled(t, a.exponent) == 10 * Signed(t) && Scaled(a, a.exponent) == 10 * Signed(t) + 1;
    UnitsOfZero(a.exponent);
  }

  lemma {:induction false} FewDigits(q: nat, precision: nat)
    requires precision >= 1 && q < Pow10(precision)
    ensures DigitCount(q) <= precision
  {
    DigitBounds(q);
    PowOrder(precision, DigitCount(q) - 1);
  }

  /** Dividing a number of `drop` digits too many leaves the right number of digits. */
  lemma {:induction false} QuotientDigits(units: nat, precision: nat, drop: nat)
    requires precision >= 1 && DigitCount(units) == precision + drop
    ensures DigitCount(Quotient(units, Pow10(drop))) <= precision
  {
    var q := Quotient(units, Pow10(drop));
    DigitBounds(units);
    QuotientFacts(units, Pow10(drop));
    PowIsShifted(precision, drop);
    ShiftedIsProduct(Pow10(precision), drop);
    ProductOrder(Pow10(precision), q, Pow10(drop));
    FewDigits(q, precision);
  }

  /** The number just above the tolerance, rounded down, is not above the tolerance. */
  lemma RoundedBelow(t: Decimal, precision: nat)
    requires ValidTolerance(t) && precision >= 1 && DigitCount(t.coefficient) > precision
    ensures
      var a := JustAbove(t);
      var r := RoundDown(a.coefficient, a.exponent, precision).value;
      DigitCount(r.coefficient) <= precision && Value(r) <= Value(t)
  {
    var a := JustAbove(t);
    var units, c := a.coefficient, t.coefficient;
    assert units / 10 == c && DigitCount(units) == 1 + DigitCount(c);
    var drop := DigitCount(units) - precision;
    var q := Quotient(units, Pow10(drop));
    var r := RoundDown(units, a.exponent, precision).value;
    QuotientDigits(units, precision, drop);
    QuotientFacts(units, Pow10(drop));
    ShiftedIsProduct(q, drop);
    ShiftedIsProduct(q, drop - 1);
    assert 10 * Shifted(q, drop - 1) <= units;
    ComparisonIsExact(r, t);
    ComparisonIsExact(t, r);
    assert Scaled(r, t.exponent) == Shifted(q, drop - 1) && Scaled(t, t.exponent) == c;
  }

  /**
   * At a precision that cannot represent the tolerance, a number just above it, rounded down,
   * falls below it and is accepted within it of zero.
   */
  lemma TooShortPrecisionMisjudges(t: Decimal, precision: nat)
    requires ValidTolerance(t) && precision >= 1 && !Representable(t, precision)
    ensures
      var a := JustAbove(t);
      GapWithin(a, ZeroLike(a), t, precision) && Abs(Value(a) - Value(ZeroLike(a))) > Value(t)
  {
    var a, zero := JustAbove(t), ZeroLike(JustAbove(t));
    var r := RoundDown(a.coefficient, a.exponent, precision).value;
    assert DigitCount(t.coefficient) > precision;
    AboveTolerance(t);
    ToleranceValue(t);
    RoundedBelow(t, precision);
    ComparisonIsExact(r, t);
    assert Scaled(a, a.exponent) == a.coefficient && Scaled(zero, a.exponent) == 0;
    assert SubtractFloor(a, zero, precision).value == r;
  }

  /**
   * The threshold, for every tolerance and precision: the comparison is exact for all numbers
   * if and only if the tolerance equals a decimal of at most that many digits.
   */
  lemma PrecisionThreshold(t: Decimal, precision: nat)
    requires ValidTolerance(t) && precision >= 1
    ensures ExactAt(t, precision) <==> Representable(t, precision)
  {
    if Representable(t, precision) {
      var d: Decimal :| DigitCount(d.coefficient) <= precision && Value(d) == Value(t);
      ToleranceSign(t, d);
      forall a, e ensures GapWithin(a, e, t, precision) <==> Abs(Value(a) - Value(e)) <= Value(t) {
        GapWithinByValue(a, e, t, d, precision);
        GapWithinIsExact(a, e, d, precision);
      }
    } else {
      TooShortPrecisionMisjudges(t, precision);
      var a := JustAbove(t);
      assert !(GapWithin(a, ZeroLike(a), t, precision) <==> Abs(Value(a) - Value(ZeroLike(a))) <= Value(t));
    }
  }

  lemma ToleranceSign(t: Decimal, d: Decimal)
    requires ValidTolerance(t) && Value(d) == Value(t)
    ensures ValidTolerance(d)
  {
    ToleranceValue(t);
    UnitsOfZero(d.exponent);
    UnitsOrder(Signed(d) as real, 0.0, d.exponent);
  }

  /** So the digits of the tolerance alone would do; the operands' digits and the two extra ones are not needed. */
  lemma ToleranceDigitsSuffice(a: Decimal, e: Decimal, t: Decimal)
    requires ValidTolerance(t)
    ensures GapWithin(a, e, t, DigitCount(t.coefficient)) <==> GapWithin(a, e, t, Precision(a, e, t))
  {
    GapWithinIsExact(a, e, t, DigitCount(t.coefficient));
    GapWithinIsExact(a, e, t, Precision(a, e, t));
  }
}
