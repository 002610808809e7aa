/**
 * The `App` component's state: the `useState` fields, changed only through
 * the component's transitions (fetch start and finish, clock tick, clicks).
 */
module PrayerApp {
  import opened Wrappers
  import opened Resolver
  import opened ExpandedItem
  import opened FetchOutcome

  class App {
    /** `PRAYER_TIMES_DATA.map(p => p.key)`, the canonical daily order. */
    const order: seq<Key>
    /** `GREGORIAN_DAY_MAP` (Sunday first) and `GREGORIAN_MONTH_MAP`. */
    const dayNames: seq<string>
    const monthNames: seq<string>

    var prayerData: Option<Timings>
    var gregorianDate: string
    var loading: bool
    var error: Option<string>
    var nextPrayer: Option<Key>
    var expandedPrayer: Option<Key>

    /** The tables have their sizes; a next prayer is only ever chosen from
        the order; and an error, once set, is truthy. */
    ghost predicate Valid()
      reads this
    {
      |order| > 0 && |dayNames| == 7 && |monthNames| == 12
      && (nextPrayer.Some? ==> nextPrayer.value in order)
      && (error.Some? ==> HasError(error))
    }

    /** What `renderContent` shows for the current state. */
    function View(): (v: View)
      reads this
    {
      Render(loading, error, prayerData, expandedPrayer, nextPrayer, order)
    }

    /** The initial `useState` values: no data, loading, nothing chosen. */
    constructor (order: seq<Key>, dayNames: seq<string>, monthNames: seq<string>)
      requires |order| > 0 && |dayNames| == 7 && |monthNames| == 12
      ensures Valid()
      ensures this.order == order && this.dayNames == dayNames && this.monthNames == monthNames
      ensures prayerData == None && gregorianDate == "" && loading && error == None
      ensures nextPrayer == None && expandedPrayer == None
      ensures View() == Spinner
    {
      this.order := order;
      this.dayNames := dayNames;
      this.monthNames := monthNames;
      prayerData := None;
      gregorianDate := "";
      loading := true;
      error := None;
      nextPrayer := None;
      expandedPrayer := None;
    }

    /** `handlePrayerClick`. */
    method HandlePrayerClick(k: Option<Key>)
      requires Valid()
      modifies this`expandedPrayer
      ensures Valid()
      ensures expandedPrayer == Toggle(old(expandedPrayer), k)
    {
      expandedPrayer := Toggle(expandedPrayer, k);
    }

    /** The `mousedown` listener: it is installed only while a prayer is
        expanded, and it closes the details when the click lands outside the
        schedule content (which is mounted only while the schedule shows). */
    method MouseDown(insideContent: bool)
      requires Valid()
      modifies this`expandedPrayer
      ensures Valid()
      ensures expandedPrayer == (if old(expandedPrayer).Some? && old(View()).Schedule? && !insideContent
                                 then None else old(expandedPrayer))
    {
      if expandedPrayer.Some? && View().Schedule? && !insideContent {
        expandedPrayer := None;
      }
    }

    /** The close button of the focus view. */
    method CloseDetails()
      requires Valid()
      modifies this`expandedPrayer
      ensures Valid()
      ensures expandedPrayer == None
    {
      expandedPrayer := None;
    }

    /** The next-prayer effect, run on each clock tick and data change with
        the current "HH:MM" time in the target zone: without data it does
        nothing, otherwise it stores the resolved prayer. */
    method Tick(now: string)
      requires Valid()
      modifies this`nextPrayer
      ensures Valid()
      ensures prayerData.None? ==> nextPrayer == old(nextPrayer)
      ensures prayerData.Some? ==> nextPrayer == Some(NextPrayer(order, prayerData.value, now))
    {
      if prayerData.None? {
        return;
      }
      var next := FindNextPrayer(order, prayerData.value, now);
      nextPrayer := Some(next);
    }

    /** Start of `fetchPrayerTimes`: the loader shows and any error is cleared. */
    method StartFetch()
      requires Valid()
      modifies this`loading, this`error
      ensures Valid()
      ensures loading && error == None
      ensures View() == Spinner
    {
      loading := true;
      error := None;
    }

    /** End of `fetchPrayerTimes`, after its request settled: the outcome is
        stored and, in the `finally`, loading ends. A code-200 payload without
        a readable date leaves both the data and the error set. */
    method FinishFetch(resp: Response)
      requires Valid() && loading && error == None
      requires WellDated(resp)
      modifies this`prayerData, this`gregorianDate, this`error, this`loading
      ensures Valid()
      ensures !loading
      ensures match Settle(resp, dayNames, monthNames)
        case Loaded(timings, dateLabel) =>
          prayerData == timings && gregorianDate == dateLabel && error == None
        case Failed(message) =>
          error == Some(message) && prayerData == old(prayerData) && gregorianDate == old(gregorianDate)
        case LoadedThenFailed(timings, message) =>
          prayerData == timings && error == Some(message) && gregorianDate == old(gregorianDate)
      ensures View().Blank? <==> resp.Payload? && resp.code == 200 && resp.timings.None?
    {
      match Settle(resp, dayNames, monthNames) {
        case Loaded(timings, dateLabel) =>
          prayerData := timings;
          gregorianDate := dateLabel;
        case Failed(message) =>
          error := Some(message);
        case LoadedThenFailed(timings, message) =>
          prayerData := timings;
          error := Some(message);
      }
      loading := false;
    }
  }

  /** Once loading is over the content area is blank exactly when there is
      neither an error nor data; otherwise it shows the error banner or the
      schedule. */
  lemma SettledPageContent(a: App)
    requires a.Valid() && !a.loading
    ensures a.View().Blank? <==> a.error.None? && a.prayerData.None?
    ensures !a.View().Blank? ==> a.View().ErrorBanner? || a.View().Schedule?
  {
  }
}
