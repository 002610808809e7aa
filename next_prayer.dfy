/**
 * The next-prayer resolver: the effect that scans the canonical prayer order
 * and picks the first prayer whose time today is still ahead of the current
 * target-zone time, wrapping around to the first prayer of the day.
 */
module Resolver {
  import opened Wrappers
  import opened TimeText

  /** A prayer name as the timings object keys it ("Fajr", "Dhuhr", ...);
      every such name is a non-empty, hence truthy, string. */
  type Key = s: string | s != "" witness "Fajr"

  /** The `timings` object of the response: prayer names to "HH:MM" strings. */
  type Timings = map<string, string>

  /** `prayerData[k]` is truthy: present and not the empty string. */
  predicate HasTime(data: Timings, k: Key) {
    k in data && data[k] != ""
  }

  /** The prayer `k` has a time today that is strictly after `now`. */
  predicate Upcoming(data: Timings, k: Key, now: string) {
    HasTime(data, k) && StrLess(now, data[k])
  }

  /** Position in `order` of the first upcoming prayer, if any. */
  function FirstUpcoming(order: seq<Key>, data: Timings, now: string): (r: Option<nat>)
    ensures r.Some? ==> r.value < |order| && Upcoming(data, order[r.value], now)
    ensures r.Some? ==> forall i :: 0 <= i < r.value ==> !Upcoming(data, order[i], now)
    ensures r.None? <==> forall i :: 0 <= i < |order| ==> !Upcoming(data, order[i], now)
    decreases |order|
  {
    if |order| == 0 then None
    else if Upcoming(data, order[0], now) then Some(0)
    else match FirstUpcoming(order[1..], data, now)
      case None => None
      case Some(j) => Some(j + 1)
  }

  /** The prayer the resolver reports: the first upcoming one, or the first
      prayer of the order when none is upcoming (no absence is ever reported). */
  function NextPrayer(order: seq<Key>, data: Timings, now: string): (k: Key)
    requires |order| > 0
    ensures k in order
  {
    match FirstUpcoming(order, data, now)
    case Some(j) => order[j]
    case None => order[0]
  }

  /** The loop of the effect: walk the order, skip prayers without a time,
      stop at the first time greater than `now`, else fall back to the first. */
  method FindNextPrayer(order: seq<Key>, data: Timings, now: string) returns (next: Key)
    requires |order| > 0
    ensures next == NextPrayer(order, data, now)
  {
    var found: Option<Key> := None;
    for i := 0 to |order|
      invariant found == None
      invariant forall j :: 0 <= j < i ==> !Upcoming(data, order[j], now)
    {
      var name := order[i];
      if !HasTime(data, name) {
        continue;
      }
      if StrLess(now, data[name]) {
        found := Some(name);
        FirstUpcomingAt(order, data, now, i);
        break;
      }
    }
    if found == None {
      next := order[0];
    } else {
      next := found.value;
    }
  }

  /** An upcoming prayer with nothing upcoming before it is the one found. */
  lemma FirstUpcomingAt(order: seq<Key>, data: Timings, now: string, i: nat)
    requires i < |order| && Upcoming(data, order[i], now)
    requires forall j :: 0 <= j < i ==> !Upcoming(data, order[j], now)
    ensures FirstUpcoming(order, data, now) == Some(i)
  {
  }

  /** When the scan selects a prayer, that prayer has a time later than now,
      and every earlier prayer has no time or a time at or before now. */
  lemma SelectedIsFirstLater(order: seq<Key>, data: Timings, now: string)
    requires FirstUpcoming(order, data, now).Some?
    ensures var j := FirstUpcoming(order, data, now).value;
      var k := NextPrayer(order, data, now);
      k == order[j] && HasTime(data, k) && StrLess(now, data[k])
      && forall i :: 0 <= i < j ==> !HasTime(data, order[i]) || StrLessEq(data[order[i]], now)
  {
    var j := FirstUpcoming(order, data, now).value;
    forall i | 0 <= i < j && HasTime(data, order[i])
      ensures StrLessEq(data[order[i]], now)
    {
      NotLessIsLessEq(data[order[i]], now);
    }
  }

  /** Boundary rule: a prayer whose time equals `now` is never the one the
      scan selects; only the wraparound can report it. */
  lemma {:induction false} ExactTimeNotSelected(order: seq<Key>, data: Timings, now: string, i: nat)
    requires i < |order| && HasTime(data, order[i]) && data[order[i]] == now
    requires FirstUpcoming(order, data, now).Some?
    ensures NextPrayer(order, data, now) != order[i]
  {
    StrLessIrreflexive(now);
  }

  /** Wraparound: when no defined time is after `now` (in particular when no
      prayer has a time at all) the result is the first prayer of the order. */
  lemma WrapsAround(order: seq<Key>, data: Timings, now: string)
    requires |order| > 0
    requires forall i :: 0 <= i < |order| && HasTime(data, order[i]) ==> StrLessEq(data[order[i]], now)
    ensures NextPrayer(order, data, now) == order[0]
  {
    forall i | 0 <= i < |order| && HasTime(data, order[i])
      ensures !StrLess(now, data[order[i]])
    {
      if data[order[i]] == now {
        StrLessIrreflexive(now);
      } else {
        StrLessAsymmetric(data[order[i]], now);
      }
    }
  }

  /** Monotonicity: as the clock advances (`now1 <= now2`), while some prayer is
      still ahead of `now2`, the selected position never moves backwards. */
  lemma Monotone(order: seq<Key>, data: Timings, now1: string, now2: string)
    requires StrLessEq(now1, now2)
    requires FirstUpcoming(order, data, now2).Some?
    ensures FirstUpcoming(order, data, now1).Some?
    ensures FirstUpcoming(order, data, now1).value <= FirstUpcoming(order, data, now2).value
    ensures |order| > 0 && NextPrayer(order, data, now1) == order[FirstUpcoming(order, data, now1).value]
  {
    var j2 := FirstUpcoming(order, data, now2).value;
    LessEqThenLess(now1, now2, data[order[j2]]);
    assert Upcoming(data, order[j2], now1);
  }

  /** Position of a key in an order without repetitions. */
  function IndexOf(order: seq<Key>, k: Key): (i: nat)
    requires k in order
    ensures i < |order| && order[i] == k
    ensures forall j :: 0 <= j < i ==> order[j] != k
  {
    if order[0] == k then 0 else 1 + IndexOf(order[1..], k)
  }

  predicate Distinct(order: seq<Key>) {
    forall i, j :: 0 <= i < j < |order| ==> order[i] != order[j]
  }

  /** Monotonicity stated on the reported keys: with distinct keys, the key
      reported at `now1` does not come after the one reported at `now2`. */
  lemma MonotoneKeys(order: seq<Key>, data: Timings, now1: string, now2: string)
    requires Distinct(order)
    requires StrLessEq(now1, now2)
    requires FirstUpcoming(order, data, now2).Some?
    ensures |order| > 0
    ensures IndexOf(order, NextPrayer(order, data, now1)) <= IndexOf(order, NextPrayer(order, data, now2))
  {
    Monotone(order, data, now1, now2);
  }

  /** A full day's schedule: every prayer has a time and the times strictly
      increase along the order. */
  predicate DaySchedule(order: seq<Key>, data: Timings) {
    (forall i :: 0 <= i < |order| ==> HasTime(data, order[i]))
    && forall i, j :: 0 <= i < j < |order| && order[i] in data && order[j] in data ==>
         StrLess(data[order[i]], data[order[j]])
  }

  /** Boundary rule on a day's schedule: at the exact minute of a prayer the
      following prayer is reported as next. */
  lemma ExactTimeGivesFollowing(order: seq<Key>, data: Timings, now: string, i: nat)
    requires DaySchedule(order, data)
    requires i + 1 < |order| && data[order[i]] == now
    ensures NextPrayer(order, data, now) == order[i + 1]
  {
    forall j | 0 <= j <= i
      ensures !Upcoming(data, order[j], now)
    {
      if j == i {
        StrLessIrreflexive(now);
      } else {
        StrLessAsymmetric(data[order[j]], now);
      }
    }
    FirstUpcomingAt(order, data, now, i + 1);
  }

  /** The prayers that have a time have strictly increasing times along the
      order; prayers without a time may sit anywhere. */
  predicate DefinedTimesIncrease(order: seq<Key>, data: Timings) {
    forall i, j :: 0 <= i < j < |order| && HasTime(data, order[i]) && HasTime(data, order[j]) ==>
      StrLess(data[order[i]], data[order[j]])
  }

  /** Boundary rule with missing times: at the exact minute of a prayer, the
      next prayer after it that has a time is reported, skipping those without. */
  lemma ExactTimeGivesFollowingDefined(order: seq<Key>, data: Timings, now: string, i: nat, j: nat)
    requires DefinedTimesIncrease(order, data)
    requires i < j < |order| && HasTime(data, order[i]) && data[order[i]] == now
    requires HasTime(data, order[j])
    requires forall k :: i < k < j ==> !HasTime(data, order[k])
    ensures NextPrayer(order, data, now) == order[j]
  {
    forall k | 0 <= k < j
      ensures !Upcoming(data, order[k], now)
    {
      if k == i {
        StrLessIrreflexive(now);
      } else if k < i && HasTime(data, order[k]) {
        StrLessAsymmetric(data[order[k]], now);
      }
    }
    FirstUpcomingAt(order, data, now, j);
  }

  /** Wraparound on a day's schedule: at or after the last prayer of the day
      the first prayer of the order is next. */
  lemma PastLastPrayer(order: seq<Key>, data: Timings, now: string)
    requires DaySchedule(order, data) && |order| > 0
    requires StrLessEq(data[order[|order| - 1]], now)
    ensures NextPrayer(order, data, now) == order[0]
  {
    var last := data[order[|order| - 1]];
    forall i | 0 <= i < |order| && HasTime(data, order[i])
      ensures StrLessEq(data[order[i]], now)
    {
      if i < |order| - 1 {
        LessEqThenLess(data[order[i]], data[order[i]], last);
        if last != now {
          StrLessTransitive(data[order[i]], last, now);
        }
      }
    }
    WrapsAround(order, data, now);
  }

  /** Every defined time of the order is a clock string. */
  predicate ClockSchedule(order: seq<Key>, data: Timings) {
    forall i :: 0 <= i < |order| && HasTime(data, order[i]) ==> IsClockTime(data[order[i]])
  }

  /** Reference resolver on minutes since midnight: the first prayer whose
      time is later on the clock than `nowMinutes`. */
  function FirstLaterOnClock(order: seq<Key>, data: Timings, nowMinutes: nat): (r: Option<nat>)
    requires ClockSchedule(order, data)
    decreases |order|
  {
    if |order| == 0 then None
    else if HasTime(data, order[0]) && Minutes(data[order[0]]) > nowMinutes then Some(0)
    else
      assert ClockSchedule(order[1..], data) by {
        forall i | 0 <= i < |order[1..]| && HasTime(data, order[1..][i])
          ensures IsClockTime(data[order[1..][i]])
        {
          assert order[1..][i] == order[i + 1];
        }
      }
      match FirstLaterOnClock(order[1..], data, nowMinutes)
      case None => None
      case Some(j) => Some(j + 1)
  }

  /** Comparing the strings selects exactly the prayer that comparing the
      clock minutes selects, for a clock-string `now` and schedule. */
  lemma {:induction false} StringScanMatchesClock(order: seq<Key>, data: Timings, now: string)
    requires IsClockTime(now) && ClockSchedule(order, data)
    ensures FirstUpcoming(order, data, now) == FirstLaterOnClock(order, data, Minutes(now))
    decreases |order|
  {
    if |order| > 0 {
      if HasTime(data, order[0]) {
        ClockOrder(now, data[order[0]]);
      }
      assert ClockSchedule(order[1..], data) by {
        forall i | 0 <= i < |order[1..]| && HasTime(data, order[1..][i])
          ensures IsClockTime(data[order[1..][i]])
        {
          assert order[1..][i] == order[i + 1];
        }
      }
      StringScanMatchesClock(order[1..], data, now);
    }
  }

  // A sample day: Fajr 04:30 to Isha 19:15, plus a non-canonical Sunrise time that the scan ignores.

  function SampleOrder(): (o: seq<Key>)
    ensures |o| == 5
  {
    ["Fajr", "Dhuhr", "Asr", "Maghrib", "Isha"]
  }

  function SampleTimes(): (t: Timings) {
    map["Fajr" := "04:30", "Dhuhr" := "12:05", "Asr" := "15:20", "Maghrib" := "18:02", "Isha" := "19:15",
        "Sunrise" := "05:45"]
  }

  lemma SampleIsDaySchedule()
    ensures DaySchedule(SampleOrder(), SampleTimes())
  {
    var o, t := SampleOrder(), SampleTimes();
    forall i, j | 0 <= i < j < 5
      ensures StrLess(t[o[i]], t[o[j]])
    {
      ClockOrder(t[o[i]], t[o[j]]);
    }
  }

  /** At 13:00 the next prayer is Asr; at 23:59 it wraps to Fajr; at exactly
      12:05 (Dhuhr) it is already Asr. */
  lemma SampleScenarios()
    ensures NextPrayer(SampleOrder(), SampleTimes(), "13:00") == "Asr"
    ensures NextPrayer(SampleOrder(), SampleTimes(), "23:59") == "Fajr"
    ensures NextPrayer(SampleOrder(), SampleTimes(), "12:05") == "Asr"
  {
    var o, t := SampleOrder(), SampleTimes();
    SampleIsDaySchedule();
    ClockOrder("13:00", t["Dhuhr"]);
    ClockOrder("13:00", t["Asr"]);
    ClockOrder("13:00", t["Fajr"]);
    FirstUpcomingAt(o, t, "13:00", 2);
    ClockOrder(t["Isha"], "23:59");
    PastLastPrayer(o, t, "23:59");
    ExactTimeGivesFollowing(o, t, "12:05", 1);
  }
}
