/**
 * UTC date-times and their stored text. Stores compare and sort the text; this module shows
 * that doing so compares and sorts the instants.
 */
module Timestamps {
  import opened Common
  import opened Order

  /** A UTC date-time, microsecond precision, year 1 to 9999. */
  datatype Utc = Utc(year: nat, month: nat, day: nat, hour: nat, minute: nat, second: nat, micro: nat)

  predicate Leap(year: nat) {
    year % 4 == 0 && (year % 100 != 0 || year % 400 == 0)
  }

  function MonthLength(year: nat, month: nat): nat {
    if month == 2 then (if Leap(year) then 29 else 28)
    else if month == 4 || month == 6 || month == 9 || month == 11 then 30
    else 31
  }

  predicate ValidUtc(t: Utc) {
    && 1 <= t.year <= 9999 && 1 <= t.month <= 12 && 1 <= t.day <= MonthLength(t.year, t.month)
    && t.hour < 24 && t.minute < 60 && t.second < 60 && t.micro < 1000000
  }

  /** Field-by-field order, the order of date-time objects of one zone. */
  predicate Earlier(a: Utc, b: Utc) {
    if a.year != b.year then a.year < b.year
    else if a.month != b.month then a.month < b.month
    else if a.day != b.day then a.day < b.day
    else if a.hour != b.hour then a.hour < b.hour
    else if a.minute != b.minute then a.minute < b.minute
    else if a.second != b.second then a.second < b.second
    else a.micro < b.micro
  }

  // ----- elapsed time ------------------------------------------------------------------------

  function DaysBeforeYear(year: nat): int
    requires year >= 1
  {
    var y := year - 1;
    y * 365 + y / 4 - y / 100 + y / 400
  }

  function DaysBeforeMonth(year: nat, month: nat): nat {
    if month <= 1 then 0 else DaysBeforeMonth(year, month - 1) + MonthLength(year, month - 1)
  }

  function Day(t: Utc): int
    requires t.year >= 1
  {
    DaysBeforeYear(t.year) + DaysBeforeMonth(t.year, t.month) + t.day
  }

  /** Microseconds since the start of the proleptic Gregorian calendar. */
  function Elapsed(t: Utc): int
    requires t.year >= 1
  {
    (((Day(t) * 24 + t.hour) * 60 + t.minute) * 60 + t.second) * 1000000 + t.micro
  }

  function YearLength(year: nat): nat { if Leap(year) then 366 else 365 }

  lemma YearStep(year: nat)
    requires year >= 1
    ensures DaysBeforeYear(year + 1) == DaysBeforeYear(year) + YearLength(year)
  {
    QuarterStep(year);
    CenturyStep(year);
    FourCenturiesStep(year);
  }

  /** A quotient grows by one exactly at the multiples of the divisor. */
  lemma QuotientStep(y: nat, d: nat)
    requires y >= 1 && d >= 1
    ensures y / d == (y - 1) / d + if y % d == 0 then 1 else 0
  {
    var q, r := y / d, y % d;
    if r == 0 {
      QuotientIs(y - 1, d, q - 1, d - 1);
    } else {
      QuotientIs(y - 1, d, q, r - 1);
    }
  }

  lemma QuotientIs(n: nat, d: nat, q: int, r: nat)
    requires d >= 1 && n == q * d + r && r < d
    ensures n / d == q
  {
    var p := n / d;
    if p < q { ProductOrder(p + 1, q, d); }
    if p > q { ProductOrder(q + 1, p, d); }
  }

  lemma QuarterStep(y: nat)
    requires y >= 1
    ensures y / 4 == (y - 1) / 4 + if y % 4 == 0 then 1 else 0
  {
    QuotientStep(y, 4);
  }

  lemma CenturyStep(y: nat)
    requires y >= 1
    ensures y / 100 == (y - 1) / 100 + if y % 100 == 0 then 1 else 0
    ensures y % 100 == 0 ==> y % 4 == 0
  {
    QuotientStep(y, 100);
  }

  lemma FourCenturiesStep(y: nat)
    requires y >= 1
    ensures y / 400 == (y - 1) / 400 + if y % 400 == 0 then 1 else 0
    ensures y % 400 == 0 ==> y % 100 == 0
  {
    QuotientStep(y, 400);
  }

  lemma {:induction false} YearsIncrease(a: nat, b: nat)
    requires 1 <= a < b
    ensures DaysBeforeYear(a) + YearLength(a) <= DaysBeforeYear(b)
    decreases b
  {
    YearStep(b - 1);
    if a < b - 1 { YearsIncrease(a, b - 1); }
  }

  lemma {:induction false} MonthsIncrease(year: nat, a: nat, b: nat)
    requires 1 <= a < b
    ensures DaysBeforeMonth(year, a) + MonthLength(year, a) <= DaysBeforeMonth(year, b)
    decreases b
  {
    if a < b - 1 { MonthsIncrease(year, a, b - 1); }
  }

  lemma {:induction false} MonthsFillYear(year: nat)
    ensures DaysBeforeMonth(year, 13) == YearLength(year)
  {
    assert DaysBeforeMonth(year, 2) == 31 + DaysBeforeMonth(year, 1);
    assert DaysBeforeMonth(year, 4) == DaysBeforeMonth(year, 3) + 31;
    assert DaysBeforeMonth(year, 6) == DaysBeforeMonth(year, 5) + 31;
    assert DaysBeforeMonth(year, 8) == DaysBeforeMonth(year, 7) + 31;
    assert DaysBeforeMonth(year, 10) == DaysBeforeMonth(year, 9) + 30;
    assert DaysBeforeMonth(year, 12) == DaysBeforeMonth(year, 11) + 30;
  }

  lemma EarlierDay(a: Utc, b: Utc)
    requires ValidUtc(a) && ValidUtc(b)
    requires a.year < b.year || (a.year == b.year && (a.month < b.month || (a.month == b.month && a.day < b.day)))
    ensures Day(a) < Day(b)
  {
    if a.year < b.year {
      YearsIncrease(a.year, b.year);
      MonthsFillYear(a.year);
      MonthsIncrease(a.year, a.month, 13);
    } else if a.month < b.month {
      MonthsIncrease(a.year, a.month, b.month);
    }
  }

  lemma EarlierElapsed(a: Utc, b: Utc)
    requires ValidUtc(a) && ValidUtc(b) && Earlier(a, b)
    ensures Elapsed(a) < Elapsed(b)
  {
    if a.year != b.year || a.month != b.month || a.day != b.day { EarlierDay(a, b); }
  }

  /** The field order is the order of instants. */
  lemma OrderIsElapsedTime(a: Utc, b: Utc)
    requires ValidUtc(a) && ValidUtc(b)
    ensures Earlier(a, b) <==> Elapsed(a) < Elapsed(b)
    ensures a == b <==> Elapsed(a) == Elapsed(b)
  {
    if Earlier(a, b) { EarlierElapsed(a, b); }
    if Earlier(b, a) { EarlierElapsed(b, a); }
    assert Earlier(a, b) || a == b || Earlier(b, a);
  }

  // ----- stored text -------------------------------------------------------------------------

  function Digit(n: nat): char
    requires n < 10
  {
    '0' + n as char
  }

  /** `n` in `w` decimal digits, zero padded. */
  function Pad(n: nat, w: nat): (s: string)
    ensures |s| == w
  {
    if w == 0 then [] else Pad(n / 10, w - 1) + [Digit(n % 10)]
  }

  lemma {:induction false} PadIsDigits(n: nat, w: nat)
    ensures AllDigits(Pad(n, w))
  {
    if w > 0 { PadIsDigits(n / 10, w - 1); }
  }

  lemma {:induction false} PaddedValue(n: nat, w: nat)
    requires n < Pow10(w)
    ensures AllDigits(Pad(n, w)) && DigitsValue(Pad(n, w)) == n
  {
    PadIsDigits(n, w);
    if w > 0 {
      PaddedValue(n / 10, w - 1);
      assert Pad(n, w)[..w - 1] == Pad(n / 10, w - 1);
    }
  }

  lemma {:induction false} ConcatLess(a: string, b: string, c: string, d: string)
    requires |a| == |b|
    ensures TextLess(a + c, b + d) <==> TextLess(a, b) || (a == b && TextLess(c, d))
  {
    if a == [] {
      assert a + c == c && b + d == d;
    } else {
      assert (a + c)[1..] == a[1..] + c && (b + d)[1..] == b[1..] + d;
      ConcatLess(a[1..], b[1..], c, d);
      assert a == [a[0]] + a[1..] && b == [b[0]] + b[1..];
    }
  }

  lemma {:induction false} SameHeadLess(a: string, c: string, d: string)
    ensures TextLess(a + c, a + d) <==> TextLess(c, d)
  {
    ConcatLess(a, a, c, d);
    TextIrreflexive(a);
  }

  /** Equal-width padded numbers compare as numbers. */
  lemma {:induction false} PadLess(m: nat, n: nat, w: nat)
    requires m < Pow10(w) && n < Pow10(w)
    ensures TextLess(Pad(m, w), Pad(n, w)) <==> m < n
    ensures Pad(m, w) == Pad(n, w) <==> m == n
  {
    PaddedValue(m, w);
    PaddedValue(n, w);
    if w > 0 {
      PadLess(m / 10, n / 10, w - 1);
      ConcatLess(Pad(m / 10, w - 1), Pad(n / 10, w - 1), [Digit(m % 10)], [Digit(n % 10)]);
      DigitLess(m % 10, n % 10);
      assert m == 10 * (m / 10) + m % 10 && n == 10 * (n / 10) + n % 10;
    }
  }

  lemma DigitLess(m: nat, n: nat)
    requires m < 10 && n < 10
    ensures TextLess([Digit(m)], [Digit(n)]) <==> m < n
  {
  }

  /** A fixed-width field followed by `rest`. */
  function Field(n: nat, w: nat, mark: char, rest: string): string {
    Pad(n, w) + ([mark] + rest)
  }

  lemma {:induction false} FieldLess(m: nat, n: nat, w: nat, mark: char, c: string, d: string)
    requires m < Pow10(w) && n < Pow10(w)
    ensures TextLess(Field(m, w, mark, c), Field(n, w, mark, d)) <==> m < n || (m == n && TextLess(c, d))
  {
    ConcatLess(Pad(m, w), Pad(n, w), [mark] + c, [mark] + d);
    PadLess(m, n, w);
    SameHeadLess([mark], c, d);
  }

  const ZONE := "00:00"

  function TimeText(t: Utc): string {
    Field(t.hour, 2, ':', Field(t.minute, 2, ':', Field(t.second, 2, '.', Field(t.micro, 6, '+', ZONE))))
  }

  /** YYYY-MM-DDTHH:MM:SS.ffffff+00:00 */
  function Serialize(t: Utc): string {
    Field(t.year, 4, '-', Field(t.month, 2, '-', Field(t.day, 2, 'T', TimeText(t))))
  }

  lemma Widths()
    ensures Pow10(2) == 100 && Pow10(4) == 10000 && Pow10(6) == 1000000
  {
  }

  lemma TimeTextLess(a: Utc, b: Utc)
    requires ValidUtc(a) && ValidUtc(b)
    requires a.year == b.year && a.month == b.month && a.day == b.day
    ensures TextLess(TimeText(a), TimeText(b)) <==> Earlier(a, b)
  {
    Widths();
    TextIrreflexive(ZONE);
    FieldLess(a.micro, b.micro, 6, '+', ZONE, ZONE);
    var x3, y3 := Field(a.micro, 6, '+', ZONE), Field(b.micro, 6, '+', ZONE);
    FieldLess(a.second, b.second, 2, '.', x3, y3);
    var x2, y2 := Field(a.second, 2, '.', x3), Field(b.second, 2, '.', y3);
    FieldLess(a.minute, b.minute, 2, ':', x2, y2);
    FieldLess(a.hour, b.hour, 2, ':', Field(a.minute, 2, ':', x2), Field(b.minute, 2, ':', y2));
  }

  /** Comparing stored texts is comparing instants: the serialization is strictly order preserving. */
  lemma TextOrderIsTimeOrder(a: Utc, b: Utc)
    requires ValidUtc(a) && ValidUtc(b)
    ensures TextLess(Serialize(a), Serialize(b)) <==> Earlier(a, b)
    ensures TextLess(Serialize(a), Serialize(b)) <==> Elapsed(a) < Elapsed(b)
  {
    Widths();
    OrderIsElapsedTime(a, b);
    var x2, y2 := Field(a.day, 2, 'T', TimeText(a)), Field(b.day, 2, 'T', TimeText(b));
    FieldLess(a.day, b.day, 2, 'T', TimeText(a), TimeText(b));
    FieldLess(a.month, b.month, 2, '-', x2, y2);
    FieldLess(a.year, b.year, 4, '-', Field(a.month, 2, '-', x2), Field(b.month, 2, '-', y2));
    if a.year == b.year && a.month == b.month && a.day == b.day { TimeTextLess(a, b); }
  }

  // ----- reading the text back ---------------------------------------------------------------

  /** A number of `w` digits followed by the given mark, and the text after it. */
  function TakeField(s: string, w: nat, mark: char): Option<(nat, string)> {
    if |s| <= w || s[w] != mark || !AllDigits(s[..w]) then None else Some((DigitsValue(s[..w]), s[w + 1..]))
  }

  lemma {:induction false} DigitsPadded(s: string)
    requires AllDigits(s)
    ensures DigitsValue(s) < Pow10(|s|) && Pad(DigitsValue(s), |s|) == s
  {
    if s != [] {
      var h, c := s[..|s| - 1], s[|s| - 1];
      DigitsPadded(h);
      assert IsDigit(c) && s == h + [c];
    }
  }

  lemma {:induction false} TakeFieldOf(n: nat, w: nat, mark: char, rest: string)
    requires n < Pow10(w)
    ensures TakeField(Field(n, w, mark, rest), w, mark) == Some((n, rest))
  {
    PaddedValue(n, w);
    var s := Field(n, w, mark, rest);
    assert s[..w] == Pad(n, w) && s[w + 1..] == rest;
  }

  /** Whatever is taken for a field is the written form of its number. */
  lemma {:induction false} TakenIsWritten(s: string, w: nat, mark: char)
    ensures
      var r := TakeField(s, w, mark);
      r.Some? ==> r.value.0 < Pow10(w) && s == Field(r.value.0, w, mark, r.value.1)
  {
    if TakeField(s, w, mark).Some? {
      DigitsPadded(s[..w]);
      assert s == s[..w] + ([s[w]] + s[w + 1..]);
    }
  }

  /** The date-time a stored text denotes, field by field. */
  function Deserialize(s: string): Option<Utc> {
    var (year, s1) :- TakeField(s, 4, '-');
    var (month, s2) :- TakeField(s1, 2, '-');
    var (day, s3) :- TakeField(s2, 2, 'T');
    var (hour, s4) :- TakeField(s3, 2, ':');
    var (minute, s5) :- TakeField(s4, 2, ':');
    var (second, s6) :- TakeField(s5, 2, '.');
    var (micro, s7) :- TakeField(s6, 6, '+');
    var t := Utc(year, month, day, hour, minute, second, micro);
    if s7 == ZONE && ValidUtc(t) then Some(t) else None
  }

  /** Nothing is lost in the store: reading a stored text gives back the instant. */
  lemma TextRoundTrip(t: Utc)
    requires ValidUtc(t)
    ensures Deserialize(Serialize(t)) == Some(t)
  {
    Widths();
    var f7 := Field(t.micro, 6, '+', ZONE);
    var f6 := Field(t.second, 2, '.', f7);
    var f5 := Field(t.minute, 2, ':', f6);
    var f4 := Field(t.hour, 2, ':', f5);
    var f3 := Field(t.day, 2, 'T', f4);
    var f2 := Field(t.month, 2, '-', f3);
    TakeFieldOf(t.year, 4, '-', f2);
    TakeFieldOf(t.month, 2, '-', f3);
    TakeFieldOf(t.day, 2, 'T', f4);
    TakeFieldOf(t.hour, 2, ':', f5);
    TakeFieldOf(t.minute, 2, ':', f6);
    TakeFieldOf(t.second, 2, '.', f7);
    TakeFieldOf(t.micro, 6, '+', ZONE);
  }

  /** A text is read exactly when it is the written text of a valid time, and then as that time. */
  lemma ReadsExactlyWrittenText(s: string, t: Utc)
    ensures Deserialize(s) == Some(t) <==> ValidUtc(t) && s == Serialize(t)
  {
    if Deserialize(s) == Some(t) { ReadTextIsWritten(s); }
    if ValidUtc(t) { TextRoundTrip(t); }
  }

  lemma ReadTextIsWritten(s: string)
    requires Deserialize(s).Some?
    ensures ValidUtc(Deserialize(s).value) && s == Serialize(Deserialize(s).value)
  {
    var (year, s1) := TakeField(s, 4, '-').value;
    var (month, s2) := TakeField(s1, 2, '-').value;
    var (day, s3) := TakeField(s2, 2, 'T').value;
    var (hour, s4) := TakeField(s3, 2, ':').value;
    var (minute, s5) := TakeField(s4, 2, ':').value;
    var (second, s6) := TakeField(s5, 2, '.').value;
    var (micro, s7) := TakeField(s6, 6, '+').value;
    TakenIsWritten(s, 4, '-');
    TakenIsWritten(s1, 2, '-');
    TakenIsWritten(s2, 2, 'T');
    TakenIsWritten(s3, 2, ':');
    TakenIsWritten(s4, 2, ':');
    TakenIsWritten(s5, 2, '.');
    TakenIsWritten(s6, 6, '+');
  }

  /** How times become text columns and back. */
  datatype TimeCodec = TimeCodec(write: Utc -> string, read: string -> Option<Utc>)

  /** All a store needs of the text form: reading inverts writing, and text order is time order. */
  ghost predicate Faithful(c: TimeCodec) {
    && (forall t :: ValidUtc(t) ==> c.read(c.write(t)) == Some(t))
    && forall a, b :: ValidUtc(a) && ValidUtc(b) ==> (TextLess(c.write(a), c.write(b)) <==> Earlier(a, b))
  }

  const ISO_TEXT := TimeCodec(Serialize, Deserialize)

  /** The text form in use has both properties. */
  lemma IsoTextIsFaithful()
    ensures Faithful(ISO_TEXT)
  {
    forall t | ValidUtc(t) ensures Deserialize(Serialize(t)) == Some(t) {
      TextRoundTrip(t);
    }
    forall a, b | ValidUtc(a) && ValidUtc(b) ensures TextLess(Serialize(a), Serialize(b)) <==> Earlier(a, b) {
      TextOrderIsTimeOrder(a, b);
    }
  }
}
