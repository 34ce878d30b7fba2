/** Why dates may be compared as texts.

    Today's date is the first ten characters of `toISOString()`, a
    `YYYY-MM-DD` text in the UTC calendar, and the save operation sorts with
    `new Date(a).getTime() - new Date(b).getTime()`. For a date-only text of
    that form `getTime` is the number of milliseconds from 1970-01-01 to
    midnight UTC of that day in the proleptic Gregorian calendar. This module
    defines that time value for valid dates with four-digit years and proves
    that comparing it agrees with comparing the texts, which is the order
    `DateOrder.Before` the rest of the model sorts by. */
module IsoDate {

  import opened DateOrder
  import opened Ledger
  import opened DateSort

  const MillisPerDay: int := 86_400_000

  predicate IsDigit(c: char)
  {
    '0' <= c <= '9'
  }

  predicate AllDigits(s: string)
  {
    forall i :: 0 <= i < |s| ==> IsDigit(s[i])
  }

  function DigitValue(c: char): nat
    requires IsDigit(c)
  {
    (c as int) - ('0' as int)
  }

  function Pow10(n: nat): nat
  {
    if n == 0 then 1 else 10 * Pow10(n - 1)
  }

  /** The number a text of decimal digits spells, most significant first. */
  function DecimalValue(s: string): nat
    requires AllDigits(s)
    decreases |s|
  {
    if |s| == 0 then 0 else DigitValue(s[0]) * Pow10(|s| - 1) + DecimalValue(s[1..])
  }

  lemma {:induction false} DecimalValueBound(s: string)
    requires AllDigits(s)
    ensures DecimalValue(s) < Pow10(|s|)
  {
    if |s| > 0 {
      DecimalValueBound(s[1..]);
      var p := Pow10(|s| - 1);
      assert DigitValue(s[0]) * p <= 9 * p by {
        MulLeftMonotone(DigitValue(s[0]), 9, p);
      }
    }
  }

  lemma MulLeftMonotone(a: nat, b: nat, p: nat)
    requires a <= b
    ensures a * p <= b * p
  {
  }

  /** For digit texts of one length, text order is numeric order. */
  lemma {:induction false} DigitsBefore(a: string, b: string)
    requires AllDigits(a) && AllDigits(b) && |a| == |b|
    ensures Before(a, b) <==> DecimalValue(a) < DecimalValue(b)
  {
    if |a| > 0 {
      assert AllDigits(a[1..]) && AllDigits(b[1..]);
      if a[0] < b[0] {
        LeadingDigitDecides(a, b);
      } else if a[0] == b[0] {
        DigitsBefore(a[1..], b[1..]);
      } else {
        LeadingDigitDecides(b, a);
      }
    }
  }

  /** A smaller leading digit makes a smaller number, whatever follows. */
  lemma LeadingDigitDecides(a: string, b: string)
    requires AllDigits(a) && AllDigits(b) && |a| == |b| > 0 && a[0] < b[0]
    ensures DecimalValue(a) < DecimalValue(b)
  {
    var p := Pow10(|a| - 1);
    var da, db := DigitValue(a[0]), DigitValue(b[0]);
    assert AllDigits(a[1..]) && AllDigits(b[1..]);
    DecimalValueBound(a[1..]);
    MulLeftMonotone(da + 1, db, p);
    assert (da + 1) * p == da * p + p;
    assert DecimalValue(a) == da * p + DecimalValue(a[1..]);
    assert DecimalValue(b) >= db * p;
  }

  /** For digit texts of one length, equal values mean equal texts. */
  lemma DigitsEqual(a: string, b: string)
    requires AllDigits(a) && AllDigits(b) && |a| == |b|
    requires DecimalValue(a) == DecimalValue(b)
    ensures a == b
  {
    DigitsBefore(a, b);
    DigitsBefore(b, a);
    BeforeTrichotomy(a, b);
  }

  /** The `YYYY-MM-DD` layout: four, two and two digits with dashes between. */
  predicate IsIsoShape(s: string)
  {
    && |s| == 10
    && AllDigits(s[..4]) && s[4] == '-'
    && AllDigits(s[5..7]) && s[7] == '-'
    && AllDigits(s[8..])
  }

  function Year(s: string): nat
    requires IsIsoShape(s)
  {
    DecimalValue(s[..4])
  }

  function Month(s: string): nat
    requires IsIsoShape(s)
  {
    DecimalValue(s[5..7])
  }

  function Day(s: string): nat
    requires IsIsoShape(s)
  {
    DecimalValue(s[8..])
  }

  predicate IsLeapYear(y: nat)
  {
    y % 4 == 0 && (y % 100 != 0 || y % 400 == 0)
  }

  function DaysInMonth(y: nat, m: nat): nat
    requires 1 <= m <= 12
  {
    if m == 2 then (if IsLeapYear(y) then 29 else 28)
    else if m == 4 || m == 6 || m == 9 || m == 11 then 30
    else 31
  }

  /** Days of year `y` before the first of month `m`; month 13 gives the
      length of the year. */
  function DaysBeforeMonth(y: nat, m: nat): nat
    requires 1 <= m <= 13
  {
    if m == 1 then 0 else DaysBeforeMonth(y, m - 1) + DaysInMonth(y, m - 1)
  }

  /** Days from 0000-01-01 to the first of January of year `y`. */
  function DaysBeforeYear(y: nat): nat
  {
    if y == 0 then 0 else DaysBeforeYear(y - 1) + DaysBeforeMonth(y - 1, 13)
  }

  /** A well-formed date: the layout, and a day that exists in the calendar. */
  predicate IsIsoDate(s: string)
  {
    && IsIsoShape(s)
    && 1 <= Month(s) <= 12
    && 1 <= Day(s) <= DaysInMonth(Year(s), Month(s))
  }

  function DayNumber(s: string): nat
    requires IsIsoDate(s)
  {
    DaysBeforeYear(Year(s)) + DaysBeforeMonth(Year(s), Month(s)) + Day(s) - 1
  }

  /** `new Date(s).getTime()` for a valid date-only text: milliseconds from
      1970-01-01T00:00:00Z to midnight UTC of that day. */
  function TimeValue(s: string): int
    requires IsIsoDate(s)
  {
    (DayNumber(s) - DaysBeforeYear(1970)) * MillisPerDay
  }

  /** The source's sort comparator; its sign decides the order. */
  function Comparator(a: string, b: string): int
    requires IsIsoDate(a) && IsIsoDate(b)
  {
    TimeValue(a) - TimeValue(b)
  }

  /** The month table adds up to 365 days, 366 in a leap year. */
  lemma YearLength(y: nat)
    ensures DaysBeforeMonth(y, 13) == if IsLeapYear(y) then 366 else 365
  {
    var feb := DaysInMonth(y, 2);
    assert DaysBeforeMonth(y, 2) == 31;
    assert DaysBeforeMonth(y, 3) == 31 + feb;
    assert DaysBeforeMonth(y, 4) == 62 + feb;
    assert DaysBeforeMonth(y, 5) == 92 + feb;
    assert DaysBeforeMonth(y, 6) == 123 + feb;
    assert DaysBeforeMonth(y, 7) == 153 + feb;
    assert DaysBeforeMonth(y, 8) == 184 + feb;
    assert DaysBeforeMonth(y, 9) == 215 + feb;
    assert DaysBeforeMonth(y, 10) == 245 + feb;
    assert DaysBeforeMonth(y, 11) == 276 + feb;
    assert DaysBeforeMonth(y, 12) == 306 + feb;
  }

  /** The value of a two-digit and of a four-digit text, written out. */
  lemma TwoDigits(s: string)
    requires |s| == 2 && AllDigits(s)
    ensures DecimalValue(s) == 10 * DigitValue(s[0]) + DigitValue(s[1])
  {
    var t := s[1..];
    assert AllDigits(t) && t[1..] == [] && t[0] == s[1];
    assert Pow10(1) == 10;
    assert DecimalValue(t) == DigitValue(s[1]) * Pow10(0) + DecimalValue(t[1..]);
    assert DecimalValue(s) == DigitValue(s[0]) * 10 + DecimalValue(t);
  }

  lemma FourDigits(s: string)
    requires |s| == 4 && AllDigits(s)
    ensures DecimalValue(s) ==
              1000 * DigitValue(s[0]) + 100 * DigitValue(s[1]) + 10 * DigitValue(s[2]) + DigitValue(s[3])
  {
    var t := s[1..];
    assert AllDigits(t) && AllDigits(s[2..]) && t[1..] == s[2..];
    assert Pow10(2) == 100;
    assert Pow10(3) == 1000;
    assert DecimalValue(s) == DigitValue(s[0]) * 1000 + DecimalValue(t);
    assert DecimalValue(t) == DigitValue(t[0]) * 100 + DecimalValue(s[2..]);
    TwoDigits(s[2..]);
  }

  /** The epoch day has time value zero and the next day one day's worth. */
  lemma EpochExample()
    ensures IsIsoDate("1970-01-01") && TimeValue("1970-01-01") == 0
    ensures IsIsoDate("1970-01-02") && TimeValue("1970-01-02") == MillisPerDay
  {
    var e, f := "1970-01-01", "1970-01-02";
    assert e[..4] == "1970" && f[..4] == "1970";
    assert e[5..7] == "01" && f[5..7] == "01";
    assert e[8..] == "01" && f[8..] == "02";
    FourDigits("1970");
    TwoDigits("01");
    TwoDigits("02");
    assert IsIsoShape(e) && IsIsoShape(f);
    assert Year(e) == 1970 && Month(e) == 1 && Day(e) == 1;
    assert Year(f) == 1970 && Month(f) == 1 && Day(f) == 2;
  }

  lemma {:induction false} DaysBeforeMonthMonotone(y: nat, m1: nat, m2: nat)
    requires 1 <= m1 < m2 <= 13
    ensures DaysBeforeMonth(y, m1) + DaysInMonth(y, m1) <= DaysBeforeMonth(y, m2)
    decreases m2
  {
    if m2 > m1 + 1 {
      DaysBeforeMonthMonotone(y, m1, m2 - 1);
    }
  }

  lemma {:induction false} DaysBeforeYearMonotone(y1: nat, y2: nat)
    requires y1 < y2
    ensures DaysBeforeYear(y1) + DaysBeforeMonth(y1, 13) <= DaysBeforeYear(y2)
    decreases y2
  {
    if y2 > y1 + 1 {
      DaysBeforeYearMonotone(y1, y2 - 1);
    }
  }

  /** (year, month, day) of `a` comes before that of `b`, field by field. */
  predicate FieldsBefore(a: string, b: string)
    requires IsIsoShape(a) && IsIsoShape(b)
  {
    || Year(a) < Year(b)
    || (Year(a) == Year(b) && Month(a) < Month(b))
    || (Year(a) == Year(b) && Month(a) == Month(b) && Day(a) < Day(b))
  }

  lemma IsoSplit(s: string)
    requires IsIsoShape(s)
    ensures s == s[..4] + ([s[4]] + (s[5..7] + ([s[7]] + s[8..])))
  {
  }

  /** Text order on the layout compares year, then month, then day. */
  lemma TextOrderIsFieldOrder(a: string, b: string)
    requires IsIsoShape(a) && IsIsoShape(b)
    ensures Before(a, b) <==> FieldsBefore(a, b)
  {
    IsoSplit(a);
    IsoSplit(b);
    var a1, a2, a3 := a[..4], a[5..7], a[8..];
    var b1, b2, b3 := b[..4], b[5..7], b[8..];
    BeforeIrreflexive("-");
    // Peel the fields and the dashes off one by one.
    BeforeConcat(a2, [a[7]] + a3, b2, [b[7]] + b3);
    BeforeConcat([a[7]], a3, [b[7]], b3);
    BeforeConcat([a[4]], a2 + ([a[7]] + a3), [b[4]], b2 + ([b[7]] + b3));
    BeforeConcat(a1, [a[4]] + (a2 + ([a[7]] + a3)), b1, [b[4]] + (b2 + ([b[7]] + b3)));
    DigitsBefore(a1, b1);
    DigitsBefore(a2, b2);
    DigitsBefore(a3, b3);
    if Year(a) == Year(b) {
      DigitsEqual(a1, b1);
    }
    if Month(a) == Month(b) {
      DigitsEqual(a2, b2);
    }
    if a1 == b1 {
      assert Year(a) == Year(b);
    }
    if a2 == b2 {
      assert Month(a) == Month(b);
    }
  }

  /** Day numbers grow with (year, month, day) on valid dates. */
  lemma DayNumberMonotone(a: string, b: string)
    requires IsIsoDate(a) && IsIsoDate(b) && FieldsBefore(a, b)
    ensures DayNumber(a) < DayNumber(b)
  {
    var ya, ma := Year(a), Month(a);
    var yb, mb := Year(b), Month(b);
    if ya < yb {
      if ma < 12 {
        DaysBeforeMonthMonotone(ya, ma, 13);
      }
      DaysBeforeYearMonotone(ya, yb);
    } else if ma < mb {
      DaysBeforeMonthMonotone(ya, ma, mb);
    }
  }

  /** Equal fields mean the same text. */
  lemma SameFieldsSameText(a: string, b: string)
    requires IsIsoShape(a) && IsIsoShape(b)
    requires Year(a) == Year(b) && Month(a) == Month(b) && Day(a) == Day(b)
    ensures a == b
  {
    IsoSplit(a);
    IsoSplit(b);
    DigitsEqual(a[..4], b[..4]);
    DigitsEqual(a[5..7], b[5..7]);
    DigitsEqual(a[8..], b[8..]);
  }

  /** The comparator agrees with text order on valid dates, and it is zero
      exactly for the same date text: sorting by `getTime` and sorting by
      the text put valid dates in the same order. */
  lemma ComparatorMatchesTextOrder(a: string, b: string)
    requires IsIsoDate(a) && IsIsoDate(b)
    ensures Comparator(a, b) < 0 <==> Before(a, b)
    ensures Comparator(a, b) == 0 <==> a == b
  {
    TextOrderIsFieldOrder(a, b);
    TextOrderIsFieldOrder(b, a);
    if FieldsBefore(a, b) {
      DayNumberMonotone(a, b);
    } else if FieldsBefore(b, a) {
      DayNumberMonotone(b, a);
    } else {
      SameFieldsSameText(a, b);
    }
  }

  /** On valid dates, a list sorted by the model's text order is exactly a
      list the source's comparator considers sorted. */
  lemma SortedMeansChronological(es: seq<ScoreEntry>)
    requires forall i :: 0 <= i < |es| ==> IsIsoDate(es[i].date)
    ensures Sorted(es) <==>
              forall i, j :: 0 <= i < j < |es| ==> Comparator(es[i].date, es[j].date) <= 0
  {
    forall i, j | 0 <= i < j < |es|
      ensures NotAfter(es[i].date, es[j].date) <==> Comparator(es[i].date, es[j].date) <= 0
    {
      ComparatorMatchesTextOrder(es[j].date, es[i].date);
    }
  }
}
