/**
 * The date line of the header, `formatGregorianDate`: the response's year,
 * month number and day become a UTC-anchored `Date`, and the label is
 * "<day name>, <day> <month name> <year>" read back through `getUTCDay`,
 * `getUTCDate`, `getUTCMonth` and `getUTCFullYear`.
 */
module DateLabel {
  import opened TimeText
  import opened CivilCalendar

  /** A natural number as JavaScript prints it: decimal, no leading zeros. */
  function NatToDecimal(n: nat): (s: string)
    ensures |s| > 0 && forall i :: 0 <= i < |s| ==> IsDigit(s[i])
    ensures s[0] == '0' ==> n == 0
    decreases n
  {
    if n < 10 then [DigitChar(n)] else NatToDecimal(n / 10) + [DigitChar(n % 10)]
  }

  /** The number a string of decimal digits denotes. */
  function DecimalValue(s: string): (n: nat)
    requires forall i :: 0 <= i < |s| ==> IsDigit(s[i])
    decreases |s|
  {
    if |s| == 0 then 0 else 10 * DecimalValue(s[..|s| - 1]) + DigitValue(s[|s| - 1])
  }

  lemma {:induction false} DecimalRoundTrip(n: nat)
    ensures DecimalValue(NatToDecimal(n)) == n
    decreases n
  {
    if n >= 10 {
      DecimalRoundTrip(n / 10);
      var s := NatToDecimal(n);
      assert s[..|s| - 1] == NatToDecimal(n / 10);
    }
  }

  /** An integer as JavaScript prints it: a minus sign before negatives. */
  function IntToDecimal(i: int): (s: string)
    ensures |s| > 0 && (s[0] == '-' <==> i < 0)
  {
    if i < 0 then "-" + NatToDecimal(-i) else NatToDecimal(i)
  }

  /** Reads back what IntToDecimal prints. */
  function ParseInt(s: string): (i: int)
    requires |s| > 0
    requires forall i :: 0 <= i < |s| ==> IsDigit(s[i]) || (i == 0 && s[0] == '-')
  {
    if s[0] == '-' then -(DecimalValue(s[1..]) as int) else DecimalValue(s)
  }

  lemma IntRoundTrip(i: int)
    ensures ParseInt(IntToDecimal(i)) == i
  {
    var s := IntToDecimal(i);
    if i < 0 {
      DecimalRoundTrip(-i);
      assert s[1..] == NatToDecimal(-i);
    } else {
      DecimalRoundTrip(i);
    }
  }

  /** `Date.UTC` reads a year from 0 to 99 as 1900 to 1999. */
  function FullYear(y: int): (r: int)
    ensures 0 <= y <= 99 ==> 1900 <= r <= 1999 && r % 100 == y
    ensures (y < 0 || 99 < y) ==> r == y
  {
    if 0 <= y <= 99 then 1900 + y else y
  }

  /** `Date` values are limited to 100,000,000 days either side of the epoch;
      `Date.UTC` beyond that gives an invalid date. */
  const MaxTimeDays: int := 100000000

  /** What the template prints for an invalid date: the name lookups give
      `undefined` and the numeric accessors `NaN`. */
  const InvalidLabel: string := "undefined, NaN undefined NaN"

  /** The calendar date `Date.UTC(year, month - 1, day)` denotes. */
  function UtcDate(year: int, month: int, day: int): (d: Date) {
    Date(FullYear(year), month, day)
  }

  predicate InTimeRange(d: Date)
    requires IsValidDate(d)
  {
    -MaxTimeDays <= DaysFromCivil(d) <= MaxTimeDays
  }

  /** `formatGregorianDate`, with the weekday and month name tables passed in.
      Its whole text is stated by LabelShowsDate and OutOfRangeLabel. */
  function GregorianLabel(year: int, month: int, day: int, dayNames: seq<string>, monthNames: seq<string>): (text: string)
    requires |dayNames| == 7 && |monthNames| == 12
    requires IsValidDate(UtcDate(year, month, day))
    ensures !InTimeRange(UtcDate(year, month, day)) ==> text == InvalidLabel
    ensures InTimeRange(UtcDate(year, month, day)) ==>
      var name := dayNames[Weekday(UtcDate(year, month, day))];
      |text| > |name| + 2 && text[..|name| + 2] == name + ", "
    ensures InTimeRange(UtcDate(year, month, day)) ==>
      var yearText := IntToDecimal(FullYear(year));
      |text| > |yearText| && text[|text| - |yearText|..] == yearText
  {
    var date := UtcDate(year, month, day);
    if InTimeRange(date) then
      dayNames[Weekday(date)] + ", " + NatToDecimal(day) + " " + monthNames[month - 1] + " " + IntToDecimal(date.year)
    else
      InvalidLabel
  }

  /** The label shows the weekday of the UTC calendar date, the day of the
      month and the full year, each recoverable from its text, and the month
      name at `month - 1`. The first conjunct is the in-range text itself; what
      it means rests on the weekday being a true calendar weekday
      (`DaysFromCivilNext`, `EpochIsDayZero`, `WeekdayNext`) and on the two
      round trips stated here (`DecimalRoundTrip`, `IntRoundTrip`). */
  lemma LabelShowsDate(year: int, month: int, day: int, dayNames: seq<string>, monthNames: seq<string>)
    requires |dayNames| == 7 && |monthNames| == 12
    requires IsValidDate(UtcDate(year, month, day)) && InTimeRange(UtcDate(year, month, day))
    ensures var dayText, yearText := NatToDecimal(day), IntToDecimal(FullYear(year));
      GregorianLabel(year, month, day, dayNames, monthNames)
        == dayNames[Weekday(UtcDate(year, month, day))] + ", " + dayText + " " + monthNames[month - 1] + " " + yearText
      && DecimalValue(dayText) == day && ParseInt(yearText) == FullYear(year)
  {
    DecimalRoundTrip(day);
    IntRoundTrip(FullYear(year));
  }

  /** A date beyond the range of `Date` values prints the invalid-date text. */
  lemma OutOfRangeLabel(year: int, month: int, day: int, dayNames: seq<string>, monthNames: seq<string>)
    requires |dayNames| == 7 && |monthNames| == 12
    requires IsValidDate(UtcDate(year, month, day)) && !InTimeRange(UtcDate(year, month, day))
    ensures GregorianLabel(year, month, day, dayNames, monthNames) == InvalidLabel
  {
  }

  /** The first day `Date` cannot represent, 100,000,001 days after the epoch,
      is such a date. */
  lemma FirstDayOutOfRange()
    ensures IsValidDate(Date(275760, 9, 14)) && !InTimeRange(Date(275760, 9, 14))
    ensures IsValidDate(Date(275760, 9, 13)) && InTimeRange(Date(275760, 9, 13))
  {
  }

  function EnglishDayNames(): (names: seq<string>) {
    ["Sunday", "Monday", "Tuesday", "Wednesday", "Thursday", "Friday", "Saturday"]
  }

  function EnglishMonthNames(): (names: seq<string>) {
    ["January", "February", "March", "April", "May", "June",
     "July", "August", "September", "October", "November", "December"]
  }

  /** 17 March 2024 is labelled as a Sunday. */
  lemma KnownSundayLabel()
    ensures GregorianLabel(2024, 3, 17, EnglishDayNames(), EnglishMonthNames()) == "Sunday, 17 March 2024"
  {
    var date := UtcDate(2024, 3, 17);
    assert date == Date(2024, 3, 17);
    KnownWeekdays();
    assert DaysFromCivil(date) == 19799;
    assert NatToDecimal(17) == "17";
    assert NatToDecimal(2024) == "2024" by {
      assert NatToDecimal(20) == "20";
      assert NatToDecimal(202) == "202";
    }
  }

  /** `Date.UTC` reads the year 24 as 1924, and 17 March 1924 was a Monday. */
  lemma TwoDigitYearLabel()
    ensures GregorianLabel(24, 3, 17, EnglishDayNames(), EnglishMonthNames()) == "Monday, 17 March 1924"
  {
    var date := UtcDate(24, 3, 17);
    assert date == Date(1924, 3, 17);
    assert DaysFromCivil(date) == -16726;
    assert Weekday(date) == 1;
    assert NatToDecimal(17) == "17";
    assert NatToDecimal(1924) == "1924" by {
      assert NatToDecimal(19) == "19";
      assert NatToDecimal(192) == "192";
    }
  }
}
