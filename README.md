# Prayer schedule core of "Jadwal Sholat Semarang"

A Dafny model of the logic inside `App.tsx` of a one-page prayer-time viewer
for Semarang. The page fetches the day's timings once from the Aladhan
service, ticks a clock every second, and highlights the *next* prayer:
the first prayer, in the canonical daily order, whose "HH:MM" time is
strictly later than the current time in the `Asia/Jakarta` zone, wrapping
around to the first prayer of the day once all have passed.

Modules:

- `Wrappers`: the `Option` used for JavaScript's `null`/`undefined`.
- `TimeText`: JavaScript's string `<` (`StrLess`) with its order laws, and the
  zero-padded "HH:MM" clock format; proves that on clock strings string order
  is minute order (`ClockOrder`), and that `ClockText`/`Minutes` are inverse.
- `Resolver`: the next-prayer scan. `FirstUpcoming` specifies the first
  upcoming prayer, `NextPrayer` adds the wraparound, and the method
  `FindNextPrayer` is the `for`/`continue`/`break` loop of the effect, proved
  equal to `NextPrayer`. Lemmas give the boundary rule, wraparound,
  monotonicity, and agreement with a reference scan on minutes.
- `CivilCalendar`: the proleptic Gregorian day count behind `Date.UTC` and
  `getUTCDay`, proved to be a real day count (`DaysFromCivilNext`, epoch 0).
- `DateLabel`: `formatGregorianDate`, including the way `Date.UTC` reads years
  0 to 99 as 1900 to 1999 and the text an out-of-range date prints
  (`DateLabel.OutOfRangeLabel`).
- `ExpandedItem`: the toggle expression of `handlePrayerClick`.
- `FetchOutcome`: the outcome of the single fetch (HTTP failure, thrown error,
  payload with code 200 or another code, and a code-200 payload whose date
  cannot be read, which stores the timings and then fails) and
  `renderContent`'s precedence.
- `PrayerApp`: class `App` holding the component's `useState` fields, with one
  method per state transition.

The prayer order (`PRAYER_TIMES_DATA`) and the day and month name tables
(`GREGORIAN_DAY_MAP`, `GREGORIAN_MONTH_MAP`) come from `constants.ts`, which
is not part of this model; they are constructor parameters of `App`. The
current target-zone time is a parameter of `App.Tick`, and the HTTP response
is a parameter of `App.FinishFetch`.

With no prayer time defined at all, the code (App.tsx:89-91) still reports
the first prayer of the order and never reports an absent result;
`Resolver.NextPrayer` does the same (`Resolver.WrapsAround`).

## Model

| member | source | states |
|---|---|---|
| `TimeText.StrLess` | App.tsx:82 | JavaScript's string comparison used by `prayerTimeStr > jakartaTimeString`: lexicographic by character, a proper prefix smaller; a string is never smaller than itself |
| `TimeText.StrLessTransitive` | App.tsx:82 | the string `<` used by the scan is transitive |
| `TimeText.StrLessTotal` | App.tsx:82 | any two strings are equal or one is smaller, so "not later than now" means "at or before now" |
| `TimeText.StrLessAsymmetric` | App.tsx:82 | `a < b` excludes `b < a` |
| `TimeText.ClockText` | App.tsx:67-72 | every minute of the day has an "HH:MM" text that is a clock string and denotes that minute |
| `TimeText.ClockTextOfMinutes` | App.tsx:67-72 | every clock string is the text of its minute count, so the two representations are inverse |
| `TimeText.ClockEquality` | App.tsx:82 | clock strings are equal exactly when they denote the same minute |
| `TimeText.ClockOrder` | App.tsx:82 | on zero-padded "HH:MM" strings, string `<` holds exactly when the first denotes an earlier minute |
| `Resolver.HasTime` | App.tsx:79-80 | the `!prayerTimeStr` test: a prayer is considered only when its key is present and its time is not the empty string |
| `Resolver.Upcoming` | App.tsx:80-82 | the loop's selection test: the prayer has a truthy time that compares greater than now |
| `Resolver.FirstUpcoming` | App.tsx:78-86 | the position found has a truthy time later than now and none before it does; no position is found exactly when no prayer has a later time |
| `Resolver.NextPrayer` | App.tsx:74-91 | the reported prayer is always one of the order |
| `Resolver.FindNextPrayer` | App.tsx:74-91 | the loop with `continue`, `break` and the fallback to `prayerOrder[0]` returns exactly `NextPrayer` |
| `Resolver.SelectedIsFirstLater` | App.tsx:78-86 | a selected prayer has a time later than now and every earlier prayer has no time or a time at or before now |
| `Resolver.ExactTimeNotSelected` | App.tsx:82 | a prayer whose time equals now is never the one selected by the scan |
| `Resolver.ExactTimeGivesFollowing` | App.tsx:78-86 | in a full increasing schedule, at the exact time of a prayer the following prayer is next |
| `Resolver.ExactTimeGivesFollowingDefined` | App.tsx:78-86 | when the defined times increase along the order, at the exact time of a prayer the next prayer after it that has a time is reported, skipping prayers without a time |
| `Resolver.WrapsAround` | App.tsx:88-91 | when no truthy time is later than now, including when no prayer has a time, the first prayer is reported |
| `Resolver.PastLastPrayer` | App.tsx:88-91 | in a full increasing schedule, at or after the last prayer's time the first prayer is next |
| `Resolver.Monotone` | App.tsx:78-86 | for now1 <= now2 with some prayer still after now2, the position selected at now1 is at most the one at now2 |
| `Resolver.MonotoneKeys` | App.tsx:78-86 | the same on reported keys, by their index in a duplicate-free order |
| `Resolver.StringScanMatchesClock` | App.tsx:77-86 | for clock strings, the string scan selects the same position as a scan comparing minutes since midnight |
| `Resolver.SampleIsDaySchedule` | App.tsx:74 | the sample day (Fajr 04:30 to Isha 19:15) is a full increasing schedule |
| `Resolver.SampleScenarios` | App.tsx:74-91 | on the sample day: 13:00 gives Asr, 23:59 wraps to Fajr, 12:05 (Dhuhr's time) gives Asr |
| `CivilCalendar.NextDate` | App.tsx:45 | the day after a valid date is a valid date |
| `CivilCalendar.DaysFromCivil` | App.tsx:45 | the day number behind `Date.UTC`: January 1970 counts from day 0; `DaysFromCivilNext` and `EpochIsDayZero` make it a true day count |
| `CivilCalendar.MarchYearLength` | App.tsx:45 | a March-to-February year has 365 days, 366 when its February is a leap February |
| `CivilCalendar.DaysFromCivilNext` | App.tsx:45 | the day count of the next date is one more, so the count is a true day count |
| `CivilCalendar.EpochIsDayZero` | App.tsx:45 | 1970-01-01 is day 0 |
| `CivilCalendar.Weekday` | App.tsx:47 | the weekday is in 0..6 |
| `CivilCalendar.WeekdayNext` | App.tsx:47 | the weekday of the next date is the following weekday, cyclically |
| `CivilCalendar.KnownWeekdays` | App.tsx:47 | 17 March 2024 is weekday 0 (Sunday) and 1 January 1970 weekday 4 (Thursday) |
| `DateLabel.FullYear` | App.tsx:45 | `Date.UTC` reads a year from 0 to 99 as 1900 to 1999 and any other year as written |
| `DateLabel.InTimeRange` | App.tsx:45 | a date is representable when its day count is within 100,000,000 days of the epoch; beyond that `Date.UTC` gives NaN |
| `DateLabel.UtcDate` | App.tsx:45 | the calendar date `Date.UTC` denotes: the year after the 0-99 mapping of `FullYear`, month (kept 1-based here) and day as given |
| `DateLabel.NatToDecimal` | App.tsx:51 | a number prints as a non-empty run of digits without a leading zero |
| `DateLabel.IntToDecimal` | App.tsx:51 | `${year}` prints a non-empty text that starts with a minus sign exactly for negative years; `IntRoundTrip` reads it back |
| `DateLabel.DecimalRoundTrip` | App.tsx:51 | reading back the printed digits gives the number |
| `DateLabel.IntRoundTrip` | App.tsx:50-51 | reading back a printed year, with its sign, gives the year |
| `DateLabel.GregorianLabel` | App.tsx:43-52 | `formatGregorianDate`: out of range it is the invalid-date text; in range it starts with the weekday name and ", " and ends with the full year; the whole text is stated by `LabelShowsDate` and `OutOfRangeLabel` |
| `DateLabel.LabelShowsDate` | App.tsx:43-52 | for an in-range date the label is the weekday name of the UTC calendar date, ", ", the day, the month name at month - 1 and the full year, each number recoverable from its text |
| `DateLabel.OutOfRangeLabel` | App.tsx:45-51 | a date beyond the range of `Date` values prints "undefined, NaN undefined NaN" |
| `DateLabel.FirstDayOutOfRange` | App.tsx:45 | 275760-09-13 is the last date in range and 275760-09-14 the first beyond it |
| `DateLabel.KnownSundayLabel` | App.tsx:43-52 | with English tables, 2024-03-17 is labelled "Sunday, 17 March 2024" |
| `DateLabel.TwoDigitYearLabel` | App.tsx:45 | a year of 24 is read by `Date.UTC` as 1924, giving "Monday, 17 March 1924" |
| `ExpandedItem.Toggle` | App.tsx:22 | clicking the expanded prayer collapses to none; clicking any other prayer expands exactly that one |
| `ExpandedItem.ToggleTwice` | App.tsx:22 | two clicks on a prayer leave it closed, unless it was open before the first |
| `ExpandedItem.ClickOpensOnlyClicked` | App.tsx:22 | after a click at most the clicked prayer is open, and it is open exactly when it was not before |
| `FetchOutcome.Settle` | App.tsx:102-124 | the timings as received (possibly absent) and the date label are loaded exactly for a code-200 payload with a readable date; a code-200 payload whose date cannot be read keeps its timings and fails with the thrown message; every other response fails with "Failed to fetch data: " and the status text, the thrown message or the payload status |
| `FetchOutcome.Render` | App.tsx:133-218 | loading wins over an error, a truthy error over the data, data over nothing; the focus view shows the expanded prayer when the order has it |
| `FetchOutcome.HasError` | App.tsx:138 | the `if (error)` test: an error is set and is not the empty string |
| `FetchOutcome.FailureIsShown` | App.tsx:119-140 | once loading ends, any outcome with an error shows its message, whatever data is held |
| `FetchOutcome.SuccessShowsSchedule` | App.tsx:110-145 | a code-200 response with the error cleared shows the schedule it carried, and a blank content area when it carried no `timings` object |
| `PrayerApp.App.constructor` | App.tsx:10-16 | initial state: no data, loading, no error, nothing next or expanded; the loader shows |
| `PrayerApp.App.HandlePrayerClick` | App.tsx:20-23 | the expanded prayer becomes `Toggle` of the old one |
| `PrayerApp.App.MouseDown` | App.tsx:26-40 | with a prayer expanded and the schedule shown, a click outside the content collapses it; otherwise nothing changes |
| `PrayerApp.App.CloseDetails` | App.tsx:170-171 | the close button collapses the details |
| `PrayerApp.App.Tick` | App.tsx:62-95 | without data the next prayer keeps its old value; with data it becomes `NextPrayer` of the order, the data and now |
| `PrayerApp.App.View` | App.tsx:231 | the content area for the current state: `renderContent` applied to the component's fields |
| `PrayerApp.App.StartFetch` | App.tsx:99-101 | loading starts and the error is cleared, so the loader shows |
| `PrayerApp.SettledPageContent` | App.tsx:125-142 | once loading is over the content area is blank exactly when there is neither an error nor data; otherwise the error banner or the schedule shows |
| `PrayerApp.App.FinishFetch` | App.tsx:102-127 | loading ends on every outcome; code 200 stores the timings as received (absent when the payload has none) and the date label, with no error; a code-200 payload with an unreadable date stores the timings and the error; anything else stores the error message and keeps the rest; the content area is then blank exactly for a code-200 payload without timings |

## Left out

- The request itself (`fetch` of the Aladhan URL, `response.json()`): a response is an input, reduced to HTTP failure, thrown error, payload, or code-200 payload with an unreadable date. A missing and a null `timings` object are both absent timings; a non-object value there is not modelled.
- The `'An unknown error occurred.'` branch: every failure the fetch path raises is an `Error`, so that branch is not modelled.
- The one-second `setInterval` ticker and its `clearInterval`, and the registration and removal of the `mousedown` listener: React lifecycle plumbing. `App.Tick` is the effect body and `App.MouseDown` the listener body.
- `toLocaleTimeString` with `timeZone: 'Asia/Jakarta'`: a host library call; its "HH:MM" result is the `now` parameter of `App.Tick`.
- `Date.UTC` normalisation of out-of-range months and days: `formatGregorianDate` and `App.FinishFetch` require a real calendar date (after the 0-99 year mapping).
- String comparison is on Dafny characters; JavaScript compares UTF-16 code units. They agree on the ASCII "HH:MM" strings at stake.
- `constants.ts` (prayer order, name tables), `RealTimeClock`, `Loader`, `PrayerTimeRow` and `PrayerDetail` are not part of this model; the view is reduced to which of the loader, error banner, schedule or nothing shows, with the focus, expanded and next prayer.
