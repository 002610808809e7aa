/**
 * The one fetch of the day's schedule, reduced to its outcome, and the
 * choice `renderContent` makes between the loader, the error banner and the
 * schedule.
 */
module FetchOutcome {
  import opened Wrappers
  import opened Resolver
  import opened CivilCalendar
  import opened DateLabel

  /** The response's `data.date.gregorian`: year, month number, day. */
  datatype GregorianDate = GregorianDate(year: int, month: int, day: int)

  /** What the request can come back with. */
  datatype Response =
    | HttpFailure(statusText: string)      // `response.ok` is false
    | TransportFailure(message: string)    // an Error thrown before the timings are stored
    /** A parsed payload; `timings` is `None` when `data.data.timings` is
        missing or null, which the code stores as it is. */
    | Payload(code: int, status: string, timings: Option<Timings>, date: GregorianDate)
    /** A code-200 payload whose `date.gregorian` cannot be read: the timings
        are stored first, then formatting the date throws `message`. */
    | UndatedPayload(timings: Option<Timings>, message: string)

  /** The state the fetch leaves behind (apart from `loading`): data (possibly
      absent) and a date label, an error, or data stored before an error was
      thrown. */
  datatype Outcome =
    | Loaded(timings: Option<Timings>, dateLabel: string)
    | Failed(message: string)
    | LoadedThenFailed(timings: Option<Timings>, message: string)

  const ErrorPrefix: string := "Failed to fetch data: "
  const NotOkPrefix: string := "Network response was not ok: "

  /** A code-200 payload carries a real calendar date. */
  predicate WellDated(resp: Response) {
    resp.Payload? && resp.code == 200 ==>
      IsValidDate(UtcDate(resp.date.year, resp.date.month, resp.date.day))
  }

  /** The `try`/`catch` of `fetchPrayerTimes`: which outcome a response leads to. */
  function Settle(resp: Response, dayNames: seq<string>, monthNames: seq<string>): (o: Outcome)
    requires |dayNames| == 7 && |monthNames| == 12
    requires WellDated(resp)
    ensures o.Loaded? <==> resp.Payload? && resp.code == 200
    ensures o.Loaded? ==> o.timings == resp.timings
    ensures o.Loaded? ==> o.dateLabel == GregorianLabel(resp.date.year, resp.date.month, resp.date.day, dayNames, monthNames)
    ensures !o.Loaded? ==> |o.message| >= |ErrorPrefix| && o.message[..|ErrorPrefix|] == ErrorPrefix
    ensures o.LoadedThenFailed? <==> resp.UndatedPayload?
    ensures resp.UndatedPayload? ==> o == LoadedThenFailed(resp.timings, ErrorPrefix + resp.message)
    ensures resp.HttpFailure? ==> o == Failed(ErrorPrefix + NotOkPrefix + resp.statusText)
    ensures resp.TransportFailure? ==> o == Failed(ErrorPrefix + resp.message)
    ensures resp.Payload? && resp.code != 200 ==> o == Failed(ErrorPrefix + resp.status)
  {
    match resp
    case HttpFailure(text) => Failed(ErrorPrefix + NotOkPrefix + text)
    case TransportFailure(msg) => Failed(ErrorPrefix + msg)
    case Payload(code, status, timings, date) =>
      if code == 200 then Loaded(timings, GregorianLabel(date.year, date.month, date.day, dayNames, monthNames))
      else Failed(ErrorPrefix + status)
    case UndatedPayload(timings, msg) => LoadedThenFailed(timings, ErrorPrefix + msg)
  }

  /** What `renderContent` shows. */
  datatype View =
    | Spinner
    | ErrorBanner(message: string)
    | Schedule(timings: Timings, focus: Option<Key>, expanded: Option<Key>, next: Option<Key>)
    | Blank

  /** `error` is truthy. */
  predicate HasError(error: Option<string>) {
    error.Some? && error.value != ""
  }

  /** `renderContent`: loading wins over an error, an error over the data.
      The desktop focus view shows the expanded prayer when the order has it. */
  function Render(loading: bool, error: Option<string>, data: Option<Timings>,
                  expanded: Option<Key>, next: Option<Key>, order: seq<Key>): (v: View)
    ensures v.Spinner? <==> loading
    ensures v.ErrorBanner? <==> !loading && HasError(error)
    ensures v.ErrorBanner? ==> v.message == error.value
    ensures v.Schedule? <==> !loading && !HasError(error) && data.Some?
    ensures v.Schedule? ==> v.timings == data.value && v.expanded == expanded && v.next == next
    ensures v.Schedule? ==> (v.focus.Some? <==> expanded.Some? && expanded.value in order)
    ensures v.Schedule? && v.focus.Some? ==> v.focus == expanded
  {
    if loading then Spinner
    else if HasError(error) then ErrorBanner(error.value)
    else if data.Some? then
      Schedule(data.value, if expanded.Some? && expanded.value in order then expanded else None, expanded, next)
    else Blank
  }

  /** A failed fetch is never silent: once loading is over, its message is
      what the page shows, whatever data is still held (also when the timings
      were stored before the error was thrown). */
  lemma FailureIsShown(resp: Response, dayNames: seq<string>, monthNames: seq<string>,
                       data: Option<Timings>, expanded: Option<Key>, next: Option<Key>, order: seq<Key>)
    requires |dayNames| == 7 && |monthNames| == 12 && WellDated(resp)
    requires !Settle(resp, dayNames, monthNames).Loaded?
    ensures Render(false, Some(Settle(resp, dayNames, monthNames).message), data, expanded, next, order)
      == ErrorBanner(Settle(resp, dayNames, monthNames).message)
  {
  }

  /** A code-200 response, with the error cleared when the fetch began, shows
      the schedule it carried; one without a `timings` object leaves the
      content area blank. */
  lemma SuccessShowsSchedule(resp: Response, dayNames: seq<string>, monthNames: seq<string>,
                             expanded: Option<Key>, next: Option<Key>, order: seq<Key>)
    requires |dayNames| == 7 && |monthNames| == 12 && WellDated(resp)
    requires resp.Payload? && resp.code == 200
    ensures Render(false, None, Settle(resp, dayNames, monthNames).timings, expanded, next, order).Schedule?
      <==> resp.timings.Some?
    ensures resp.timings.Some? ==>
      Render(false, None, Settle(resp, dayNames, monthNames).timings, expanded, next, order).timings
        == resp.timings.value
    ensures resp.timings.None? ==>
      Render(false, None, Settle(resp, dayNames, monthNames).timings, expanded, next, order) == Blank
  {
  }
}
