/**
 * Order dates and the month buckets of the sales-over-time chart:
 * d3.timeParse("%Y-%m-%d") reads order_date, d3.timeMonth floors the date to
 * the first day of its month, and InternMap compares those Date keys by value.
 */
module Dates {
  import opened Options

  /** A calendar date as read from order_date. */
  datatype Date = Date(year: int, month: int, day: int)

  /** The first day of a calendar month, which is all a month key carries. */
  datatype Month = Month(year: int, month: int)

  /** Gregorian leap years, which the JavaScript Date follows for every year. */
  predicate LeapYear(year: int)
  {
    year % 4 == 0 && (year % 100 != 0 || year % 400 == 0)
  }

  /** The number of days of a month, or 0 for a month number out of range. */
  function DaysInMonth(year: int, month: int): (n: nat)
    ensures 1 <= month <= 12 <==> 28 <= n <= 31
    ensures !(1 <= month <= 12) ==> n == 0
    ensures month == 2 ==> n == (if LeapYear(year) then 29 else 28)
    ensures (month == 4 || month == 6 || month == 9 || month == 11) ==> n == 30
    ensures (month == 1 || month == 3 || month == 5 || month == 7 || month == 8 || month == 10 || month == 12) ==> n == 31
  {
    if month == 2 then (if LeapYear(year) then 29 else 28)
    else if month == 4 || month == 6 || month == 9 || month == 11 then 30
    else if 1 <= month <= 12 then 31
    else 0
  }

  /** The days of the months before month m of a year, from January on. */
  function DaysBefore(year: int, m: nat): nat
    requires m <= 13
  {
    if m <= 1 then 0 else DaysBefore(year, m - 1) + DaysInMonth(year, m - 1)
  }

  /** The twelve months make a year of 365 days, or 366 in a leap year. */
  lemma YearLength(year: int)
    ensures DaysBefore(year, 13) == if LeapYear(year) then 366 else 365
  {
    assert DaysBefore(year, 3) == DaysBefore(year, 2) + DaysInMonth(year, 2);
    assert DaysBefore(year, 4) == DaysBefore(year, 3) + DaysInMonth(year, 3);
    assert DaysBefore(year, 5) == DaysBefore(year, 4) + DaysInMonth(year, 4);
    assert DaysBefore(year, 6) == DaysBefore(year, 5) + DaysInMonth(year, 5);
    assert DaysBefore(year, 7) == DaysBefore(year, 6) + DaysInMonth(year, 6);
    assert DaysBefore(year, 8) == DaysBefore(year, 7) + DaysInMonth(year, 7);
    assert DaysBefore(year, 9) == DaysBefore(year, 8) + DaysInMonth(year, 8);
    assert DaysBefore(year, 10) == DaysBefore(year, 9) + DaysInMonth(year, 9);
    assert DaysBefore(year, 11) == DaysBefore(year, 10) + DaysInMonth(year, 10);
    assert DaysBefore(year, 12) == DaysBefore(year, 11) + DaysInMonth(year, 11);
    assert DaysBefore(year, 13) == DaysBefore(year, 12) + DaysInMonth(year, 12);
  }

  /** A day that exists in the calendar: no 31 April, no 29 February outside leap years. */
  predicate ValidDate(d: Date)
  {
    1 <= d.month <= 12 && 1 <= d.day <= DaysInMonth(d.year, d.month)
  }

  predicate ValidMonth(m: Month)
  {
    1 <= m.month <= 12
  }

  /** d3.timeMonth(date): the month the date falls in. */
  function MonthOf(d: Date): (m: Month)
    ensures ValidDate(d) ==> ValidMonth(m)
  {
    Month(d.year, d.month)
  }

  /** Calendar order of months. */
  predicate Earlier(a: Month, b: Month)
  {
    a.year < b.year || (a.year == b.year && a.month < b.month)
  }

  /**
   * The number of months from January of year 0. The first instant of a
   * month grows with this number, so the comparator a.date - b.date that
   * orders month keys has the sign of the difference of their ordinals.
   */
  function MonthOrdinal(m: Month): int
  {
    m.year * 12 + (m.month - 1)
  }

  /** Ordinals order valid months as the calendar does, and tell them apart. */
  lemma MonthOrdinalOrder(a: Month, b: Month)
    requires ValidMonth(a) && ValidMonth(b)
    ensures MonthOrdinal(a) < MonthOrdinal(b) <==> Earlier(a, b)
    ensures MonthOrdinal(a) == MonthOrdinal(b) <==> a == b
  {
  }

  // ---------------------------------------------------------------------------
  // "%Y-%m-%d"
  // ---------------------------------------------------------------------------

  predicate IsDigit(c: char)
  {
    '0' <= c <= '9'
  }

  predicate AllDigits(s: string)
  {
    forall i :: 0 <= i < |s| ==> IsDigit(s[i])
  }

  function Pow10(n: nat): nat
  {
    if n == 0 then 1 else 10 * Pow10(n - 1)
  }

  /** The number a string of decimal digits denotes. */
  function NumberOf(s: string): nat
    requires AllDigits(s)
  {
    if s == [] then 0 else NumberOf(s[..|s| - 1]) * 10 + (s[|s| - 1] as int - '0' as int)
  }

  /** The last width decimal digits of n, zero-padded. */
  function Digits(n: nat, width: nat): (s: string)
    ensures |s| == width && AllDigits(s)
  {
    if width == 0 then [] else Digits(n / 10, width - 1) + [('0' as int + n % 10) as char]
  }

  /** yyyy-mm-dd: four digits, a dash, two digits, a dash, two digits. */
  predicate IsoShaped(s: string)
  {
    && |s| == 10 && s[4] == '-' && s[7] == '-'
    && AllDigits(s[..4]) && AllDigits(s[5..7]) && AllDigits(s[8..])
  }

  /** parseDate(order_date) for the zero-padded form. */
  function ParseIsoDate(s: string): Option<Date>
  {
    if !IsoShaped(s) then None
    else
      var d := Date(NumberOf(s[..4]), NumberOf(s[5..7]), NumberOf(s[8..]));
      if ValidDate(d) then Some(d) else None
  }

  /** The zero-padded form of a date, the inverse of ParseIsoDate. */
  function FormatIsoDate(d: Date): string
    requires 0 <= d.year < 10000 && ValidDate(d)
  {
    Digits(d.year, 4) + "-" + Digits(d.month, 2) + "-" + Digits(d.day, 2)
  }

  lemma {:induction false} NumberOfDigits(n: nat, width: nat)
    requires n < Pow10(width)
    ensures NumberOf(Digits(n, width)) == n
    decreases width
  {
    if width > 0 {
      var s := Digits(n, width);
      assert s[..width - 1] == Digits(n / 10, width - 1);
      NumberOfDigits(n / 10, width - 1);
    }
  }

  lemma {:induction false} DigitsOfNumber(s: string)
    requires AllDigits(s)
    ensures NumberOf(s) < Pow10(|s|)
    ensures Digits(NumberOf(s), |s|) == s
    decreases |s|
  {
    if s != [] {
      var n := |s| - 1;
      var p, d := s[..n], s[n] as int - '0' as int;
      assert AllDigits(p);
      DigitsOfNumber(p);
      var v := NumberOf(s);
      assert v == NumberOf(p) * 10 + d;
      assert v / 10 == NumberOf(p) && v % 10 == d;
      assert s == p + [s[n]];
    }
  }

  /** Formatting a valid date and parsing the text gives the date back. */
  lemma ParseFormat(d: Date)
    requires 0 <= d.year < 10000 && ValidDate(d)
    ensures ParseIsoDate(FormatIsoDate(d)) == Some(d)
  {
    var s := FormatIsoDate(d);
    assert s[..4] == Digits(d.year, 4);
    assert s[5..7] == Digits(d.month, 2);
    assert s[8..] == Digits(d.day, 2);
    NumberOfDigits(d.year, 4);
    NumberOfDigits(d.month, 2);
    NumberOfDigits(d.day, 2);
  }

  /** A text that parses is the formatted form of the date it parses to. */
  lemma FormatParse(s: string)
    requires ParseIsoDate(s).Some?
    ensures var d := ParseIsoDate(s).value;
      0 <= d.year < 10000 && ValidDate(d) && FormatIsoDate(d) == s
  {
    DigitsOfNumber(s[..4]);
    DigitsOfNumber(s[5..7]);
    DigitsOfNumber(s[8..]);
    assert s == s[..4] + "-" + s[5..7] + "-" + s[8..];
  }

  /**
   * Two order dates fall into the same month bucket exactly when their texts
   * share the yyyy-mm prefix.
   */
  lemma SameMonthIffSamePrefix(s: string, t: string)
    requires ParseIsoDate(s).Some? && ParseIsoDate(t).Some?
    ensures MonthOf(ParseIsoDate(s).value) == MonthOf(ParseIsoDate(t).value) <==> s[..7] == t[..7]
  {
    var ds, dt := ParseIsoDate(s).value, ParseIsoDate(t).value;
    FormatParse(s);
    FormatParse(t);
    assert s[..7] == Digits(ds.year, 4) + "-" + Digits(ds.month, 2);
    assert t[..7] == Digits(dt.year, 4) + "-" + Digits(dt.month, 2);
    if s[..7] == t[..7] {
      assert s[..4] == t[..4] && s[5..7] == t[5..7];
    }
  }
}
