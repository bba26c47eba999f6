/**
 * Proleptic Gregorian calendar dates and the one-day step that
 * `Calendar.add(Calendar.DATE, 1)` performs on a `GregorianCalendar`.
 * Years before the 1582 Julian/Gregorian cutover are outside the model.
 */
module Calendar {

  /** The first year the model accepts: the first full Gregorian year. */
  const MinYear: nat := 1583

  /**
   * The last year `GregorianCalendar` holds: a later year overflows its
   * millisecond count. Every year up to it also fits a 32-bit `int` field.
   */
  const MaxYear: nat := 292278994

  /** A calendar day, as the `dd`, `MM` and `yyyy` fields name it. */
  datatype Date = Date(day: nat, month: nat, year: nat)

  /** Gregorian rule: every fourth year, except centuries not divisible by 400. */
  predicate IsLeapYear(y: nat) {
    y % 4 == 0 && (y % 100 != 0 || y % 400 == 0)
  }

  /**
   * The length of month `m` of year `y`. Outside February the lengths follow
   * the knuckle rule: odd months have 31 days up to July, even months from
   * August on.
   */
  function DaysInMonth(y: nat, m: nat): (n: nat)
    requires 1 <= m <= 12
    ensures 28 <= n <= 31
    ensures m == 2 ==> (n == 29 <==> IsLeapYear(y))
    ensures m != 2 ==> n == (if m <= 7 then 30 + m % 2 else 31 - m % 2)
  {
    if m == 2 then (if IsLeapYear(y) then 29 else 28)
    else if m == 4 || m == 6 || m == 9 || m == 11 then 30
    else 31
  }

  function YearLength(y: nat): nat {
    if IsLeapYear(y) then 366 else 365
  }

  /** A day that exists in the calendar, from the model's first year on. */
  predicate ValidDate(d: Date) {
    && d.year >= MinYear
    && 1 <= d.month <= 12
    && 1 <= d.day <= DaysInMonth(d.year, d.month)
  }

  /** Strictly earlier in the calendar: by year, then month, then day. */
  predicate Before(a: Date, b: Date) {
    || a.year < b.year
    || (a.year == b.year && a.month < b.month)
    || (a.year == b.year && a.month == b.month && a.day < b.day)
  }

  /**
   * The day after `d`: the next day of the month, or the first of the next
   * month, or 1 January of the next year.
   */
  function NextDay(d: Date): (r: Date)
    requires ValidDate(d)
    ensures ValidDate(r)
    ensures Before(d, r)
  {
    if d.day < DaysInMonth(d.year, d.month) then Date(d.day + 1, d.month, d.year)
    else if d.month < 12 then Date(1, d.month + 1, d.year)
    else Date(1, 1, d.year + 1)
  }

  // ---------------------------------------------------------------------
  // An independent reference: every date as a count of days.

  /** Days from 1 January `MinYear` to 1 January `y`. */
  function DaysBeforeYear(y: nat): nat
    requires y >= MinYear
  {
    if y == MinYear then 0 else DaysBeforeYear(y - 1) + YearLength(y - 1)
  }

  /** Days from 1 January to the first of month `m` in year `y`. */
  function DaysBeforeMonth(y: nat, m: nat): nat
    requires 1 <= m <= 12
  {
    if m == 1 then 0 else DaysBeforeMonth(y, m - 1) + DaysInMonth(y, m - 1)
  }

  /** The number of days from 1 January `MinYear` to `d`. */
  function Ordinal(d: Date): nat
    requires ValidDate(d)
  {
    DaysBeforeYear(d.year) + DaysBeforeMonth(d.year, d.month) + d.day - 1
  }

  /** December closes the year: its last day is day `YearLength(y)` of the year. */
  lemma DecemberEndsYear(y: nat)
    ensures DaysBeforeMonth(y, 12) + DaysInMonth(y, 12) == YearLength(y)
  {
    assert DaysBeforeMonth(y, 2) == 31;
    assert DaysBeforeMonth(y, 3) == 31 + DaysInMonth(y, 2);
    assert DaysBeforeMonth(y, 4) == 62 + DaysInMonth(y, 2);
    assert DaysBeforeMonth(y, 5) == 92 + DaysInMonth(y, 2);
    assert DaysBeforeMonth(y, 6) == 123 + DaysInMonth(y, 2);
    assert DaysBeforeMonth(y, 7) == 153 + DaysInMonth(y, 2);
    assert DaysBeforeMonth(y, 8) == 184 + DaysInMonth(y, 2);
    assert DaysBeforeMonth(y, 9) == 215 + DaysInMonth(y, 2);
    assert DaysBeforeMonth(y, 10) == 245 + DaysInMonth(y, 2);
    assert DaysBeforeMonth(y, 11) == 276 + DaysInMonth(y, 2);
    assert DaysBeforeMonth(y, 12) == 306 + DaysInMonth(y, 2);
  }

  /** `NextDay` advances the day count by exactly one, across month and year ends. */
  lemma NextDayAddsOneDay(d: Date)
    requires ValidDate(d)
    ensures Ordinal(NextDay(d)) == Ordinal(d) + 1
  {
    if d.day == DaysInMonth(d.year, d.month) && d.month == 12 {
      DecemberEndsYear(d.year);
    }
  }

  /** Every later month starts after the whole of an earlier one. */
  lemma {:induction false} MonthsAreOrdered(y: nat, m: nat, n: nat)
    requires 1 <= m < n <= 12
    ensures DaysBeforeMonth(y, m) + DaysInMonth(y, m) <= DaysBeforeMonth(y, n)
    decreases n - m
  {
    if m + 1 < n {
      MonthsAreOrdered(y, m + 1, n);
    }
  }

  /** Every later year starts after the whole of an earlier one. */
  lemma {:induction false} YearsAreOrdered(x: nat, y: nat)
    requires MinYear <= x < y
    ensures DaysBeforeYear(x) + YearLength(x) <= DaysBeforeYear(y)
    decreases y - x
  {
    if x + 1 < y {
      YearsAreOrdered(x, y - 1);
    }
  }

  /** A valid date's day of the year lies within its year. */
  lemma DayOfYearInRange(d: Date)
    requires ValidDate(d)
    ensures DaysBeforeMonth(d.year, d.month) + d.day <= YearLength(d.year)
  {
    DecemberEndsYear(d.year);
    if d.month < 12 {
      MonthsAreOrdered(d.year, d.month, 12);
    }
  }

  /** The day count respects the calendar order. */
  lemma OrdinalIsMonotone(a: Date, b: Date)
    requires ValidDate(a) && ValidDate(b)
    requires Before(a, b)
    ensures Ordinal(a) < Ordinal(b)
  {
    if a.year < b.year {
      DayOfYearInRange(a);
      YearsAreOrdered(a.year, b.year);
    } else if a.month < b.month {
      MonthsAreOrdered(a.year, a.month, b.month);
    }
  }

  /** Two valid dates are the same day exactly when their day counts agree. */
  lemma OrdinalIsInjective(a: Date, b: Date)
    requires ValidDate(a) && ValidDate(b)
    ensures Ordinal(a) == Ordinal(b) <==> a == b
  {
    if Before(a, b) {
      OrdinalIsMonotone(a, b);
    } else if Before(b, a) {
      OrdinalIsMonotone(b, a);
    }
  }

  /**
   * "Tomorrow" is exactly the day one after today: `NextDay(d)` is the one
   * valid date whose day count is one more than that of `d`.
   */
  lemma NextDayIsSuccessor(d: Date, e: Date)
    requires ValidDate(d) && ValidDate(e)
    ensures e == NextDay(d) <==> Ordinal(e) == Ordinal(d) + 1
  {
    NextDayAddsOneDay(d);
    OrdinalIsInjective(e, NextDay(d));
  }

  /** Month-end cases: February in leap and common years, 30 April and June, 31 July and December. */
  lemma FebruaryRollover()
    ensures NextDay(Date(28, 2, 2024)) == Date(29, 2, 2024)
    ensures NextDay(Date(29, 2, 2024)) == Date(1, 3, 2024)
    ensures NextDay(Date(28, 2, 2023)) == Date(1, 3, 2023)
    ensures NextDay(Date(28, 2, 1900)) == Date(1, 3, 1900)
    ensures NextDay(Date(28, 2, 2000)) == Date(29, 2, 2000)
    ensures NextDay(Date(31, 12, 2023)) == Date(1, 1, 2024)
    ensures NextDay(Date(30, 4, 2024)) == Date(1, 5, 2024)
    ensures NextDay(Date(30, 6, 2024)) == Date(1, 7, 2024)
    ensures NextDay(Date(31, 7, 2024)) == Date(1, 8, 2024)
  {
  }
}
