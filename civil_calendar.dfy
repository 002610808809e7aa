/**
 * The proleptic Gregorian calendar on which `Date.UTC` and the `getUTC*`
 * accessors work: day counts from 1970-01-01 and the day of the week, with
 * Sunday as 0 as `getUTCDay` reports it.
 */
module CivilCalendar {

  datatype Date = Date(year: int, month: int, day: int)

  predicate IsLeapYear(y: int) {
    y % 4 == 0 && (y % 100 != 0 || y % 400 == 0)
  }

  function DaysInMonth(y: int, m: int): (n: int)
    requires 1 <= m <= 12
    ensures 28 <= n <= 31
  {
    if m == 2 then (if IsLeapYear(y) then 29 else 28)
    else if m == 4 || m == 6 || m == 9 || m == 11 then 30
    else 31
  }

  /** A real calendar date: month 1 to 12 and a day that month has. */
  predicate IsValidDate(d: Date) {
    1 <= d.month <= 12 && 1 <= d.day <= DaysInMonth(d.year, d.month)
  }

  /** The calendar day after `d`. */
  function NextDate(d: Date): (n: Date)
    requires IsValidDate(d)
    ensures IsValidDate(n)
  {
    if d.day < DaysInMonth(d.year, d.month) then Date(d.year, d.month, d.day + 1)
    else if d.month < 12 then Date(d.year, d.month + 1, 1)
    else Date(d.year + 1, 1, 1)
  }

  /** Days from 0000-03-01 to March 1st of year `y` (years counted from
      March, so that a leap day ends its year). */
  function DaysBeforeMarchYear(y: int): (n: int) {
    365 * y + y / 4 - y / 100 + y / 400
  }

  /** Days from March 1st to the first day of month `m` of the same
      March-based year (March 0, April 31, ..., February 337). */
  function MonthStart(m: int): (n: int)
    requires 1 <= m <= 12
  {
    (153 * ((m + 9) % 12) + 2) / 5
  }

  /** The March-based year a date belongs to: January and February count
      with the year before. */
  function MarchYear(d: Date): (y: int) {
    if d.month <= 2 then d.year - 1 else d.year
  }

  /** Days since 1970-01-01 (negative before it). */
  function DaysFromCivil(d: Date): (n: int)
    requires IsValidDate(d)
    ensures d.year == 1970 && d.month == 1 ==> n == d.day - 1
  {
    DaysBeforeMarchYear(MarchYear(d)) + MonthStart(d.month) + d.day - 1 - 719468
  }

  /** Within one March-based year, a month starts the day after the previous
      month's last day. */
  lemma MonthStartNext(y: int, m: int)
    requires 1 <= m < 12 && m != 2
    ensures MonthStart(m + 1) == MonthStart(m) + DaysInMonth(y, m)
  {
    if m == 1 {
      assert MonthStart(1) == 306 && MonthStart(2) == 337;
    } else if m == 3 {
      assert MonthStart(3) == 0 && MonthStart(4) == 31;
    } else if m == 4 {
      assert MonthStart(4) == 31 && MonthStart(5) == 61;
    } else if m == 5 {
      assert MonthStart(5) == 61 && MonthStart(6) == 92;
    } else if m == 6 {
      assert MonthStart(6) == 92 && MonthStart(7) == 122;
    } else if m == 7 {
      assert MonthStart(7) == 122 && MonthStart(8) == 153;
    } else if m == 8 {
      assert MonthStart(8) == 153 && MonthStart(9) == 184;
    } else if m == 9 {
      assert MonthStart(9) == 184 && MonthStart(10) == 214;
    } else if m == 10 {
      assert MonthStart(10) == 214 && MonthStart(11) == 245;
    } else {
      assert MonthStart(11) == 245 && MonthStart(12) == 275;
    }
  }

  /** Floor division by `k` steps up by one exactly when `x + 1` is a multiple of `k`. */
  lemma DivStep(x: int, k: int)
    requires k == 4 || k == 100 || k == 400
    ensures (x + 1) / k == x / k + (if (x + 1) % k == 0 then 1 else 0)
  {
    var q, r := x / k, x % k;
    assert x == k * q + r && 0 <= r < k;
    if r + 1 < k {
      assert x + 1 == k * q + (r + 1);
    } else {
      assert x + 1 == k * (q + 1);
    }
  }

  /** A March-based year has 365 days, 366 when the February that ends it is
      a leap February. */
  lemma MarchYearLength(y: int)
    ensures DaysBeforeMarchYear(y + 1) == DaysBeforeMarchYear(y) + 365 + (if IsLeapYear(y + 1) then 1 else 0)
  {
    DivStep(y, 4);
    DivStep(y, 100);
    DivStep(y, 400);
    if (y + 1) % 400 == 0 {
      assert (y + 1) % 4 == 0 && (y + 1) % 100 == 0;
    } else if (y + 1) % 100 == 0 {
      assert (y + 1) % 4 == 0;
    }
  }

  /** The day count is a real count of days: the next date is one more. */
  lemma DaysFromCivilNext(d: Date)
    requires IsValidDate(d)
    ensures DaysFromCivil(NextDate(d)) == DaysFromCivil(d) + 1
  {
    var n := NextDate(d);
    if d.day < DaysInMonth(d.year, d.month) {
      assert n == Date(d.year, d.month, d.day + 1) && MarchYear(n) == MarchYear(d);
    } else if d.month == 2 {
      assert n == Date(d.year, 3, 1) && MarchYear(n) == d.year && MarchYear(d) == d.year - 1;
      assert MonthStart(2) == 337 && MonthStart(3) == 0;
      MarchYearLength(d.year - 1);
    } else if d.month < 12 {
      assert n == Date(d.year, d.month + 1, 1) && MarchYear(n) == MarchYear(d);
      MonthStartNext(d.year, d.month);
    } else {
      assert n == Date(d.year + 1, 1, 1) && MarchYear(n) == MarchYear(d);
      assert MonthStart(12) == 275 && MonthStart(1) == 306;
    }
  }

  /** The count starts at the Unix epoch. */
  lemma EpochIsDayZero()
    ensures DaysFromCivil(Date(1970, 1, 1)) == 0
  {
  }

  /** `getUTCDay`: 0 is Sunday; 1970-01-01 was a Thursday. */
  function Weekday(d: Date): (w: nat)
    requires IsValidDate(d)
    ensures w < 7
  {
    (DaysFromCivil(d) + 4) % 7
  }

  /** Weekdays advance by one, cyclically, from one date to the next. */
  lemma WeekdayNext(d: Date)
    requires IsValidDate(d)
    ensures Weekday(NextDate(d)) == (Weekday(d) + 1) % 7
  {
    DaysFromCivilNext(d);
    WeekStep(DaysFromCivil(d) + 4);
  }

  lemma WeekStep(x: int)
    ensures (x + 1) % 7 == (x % 7 + 1) % 7
  {
    assert x == 7 * (x / 7) + x % 7;
    if x % 7 < 6 {
      assert x + 1 == 7 * (x / 7) + (x % 7 + 1);
    } else {
      assert x + 1 == 7 * (x / 7 + 1);
    }
  }

  /** 17 March 2024 was a Sunday and 1 January 1970 a Thursday. */
  lemma KnownWeekdays()
    ensures Weekday(Date(2024, 3, 17)) == 0
    ensures Weekday(Date(1970, 1, 1)) == 4
  {
  }
}
