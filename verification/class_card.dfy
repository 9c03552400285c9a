/**
 * ClassCard.tsx: `getNextSchedule`, the schedule a class card shows as
 * "next". The card's `totalStudents` is `Prototype.CountDistinctStudents`
 * and its `formatTime` is `TimeFormat.FormatClock`.
 *
 * The browser clock is an input: the weekday and the time of day.
 */
module ClassCard {
  import opened Wrappers
  import opened Clock
  import opened Scheduling
  import opened ClassDetailView

  /** The returned schedule and its `isToday` flag (absent, so falsy, on the last fallback). */
  datatype Upcoming = Upcoming(schedule: Schedule, isToday: bool)

  /** `schedules.filter(s => s.day === currentDay)`. */
  function OnDay(schedules: seq<Schedule>, d: Day): (r: seq<Schedule>)
    ensures |r| <= |schedules|
  {
    if schedules == [] then []
    else (if schedules[0].day == d then [schedules[0]] else []) + OnDay(schedules[1..], d)
  }

  /** The first schedule of the list that starts strictly after minute `m`. */
  function FirstStartingAfter(schedules: seq<Schedule>, m: nat): Option<Schedule> {
    if schedules == [] then None
    else if schedules[0].start.Minutes() > m then Some(schedules[0])
    else FirstStartingAfter(schedules[1..], m)
  }

  predicate LaterToday(s: Schedule, today: Day, m: nat) {
    s.day == today && s.start.Minutes() > m
  }

  /** The first schedule, in list order, that is on `today` and starts after minute `m`. */
  function FirstLaterToday(schedules: seq<Schedule>, today: Day, m: nat): (r: Option<Schedule>)
    ensures r.None? <==> forall i :: 0 <= i < |schedules| ==> !LaterToday(schedules[i], today, m)
    ensures r.Some? ==> exists i :: 0 <= i < |schedules| && schedules[i] == r.value && LaterToday(r.value, today, m) &&
                                    forall j :: 0 <= j < i ==> !LaterToday(schedules[j], today, m)
  {
    if schedules == [] then None
    else if LaterToday(schedules[0], today, m) then Some(schedules[0])
    else FirstLaterToday(schedules[1..], today, m)
  }

  /** Scanning today's schedules for one starting after `m` is scanning the whole list for one today and later. */
  lemma {:induction false} FilterThenSearch(schedules: seq<Schedule>, today: Day, m: nat)
    ensures FirstStartingAfter(OnDay(schedules, today), m) == FirstLaterToday(schedules, today, m)
  {
    if schedules != [] {
      FilterThenSearch(schedules[1..], today, m);
      if schedules[0].day == today {
        assert OnDay(schedules, today)[1..] == OnDay(schedules[1..], today);
      } else {
        assert OnDay(schedules, today) == [] + OnDay(schedules[1..], today);
        assert [] + OnDay(schedules[1..], today) == OnDay(schedules[1..], today);
      }
    }
  }

  /** `schedules.find(s => s.day === d)`: the first schedule on day `d` in list order, if any. */
  function FirstOnDay(schedules: seq<Schedule>, d: Day): (r: Option<Schedule>)
    ensures r.Some? ==> r.value.day == d && r.value in schedules
  {
    if schedules == [] then None
    else if schedules[0].day == d then Some(schedules[0])
    else FirstOnDay(schedules[1..], d)
  }

  /** `find` answers none iff no schedule is on day `d`, and otherwise the first one in list order. */
  lemma {:induction false} FirstOnDayIsFind(schedules: seq<Schedule>, d: Day)
    ensures FirstOnDay(schedules, d).None? <==> forall i :: 0 <= i < |schedules| ==> schedules[i].day != d
    ensures FirstOnDay(schedules, d).Some? ==>
              exists i :: 0 <= i < |schedules| && schedules[i] == FirstOnDay(schedules, d).value &&
                          forall j :: 0 <= j < i ==> schedules[j].day != d
  {
    if schedules != [] && schedules[0].day != d {
      var rest := schedules[1..];
      FirstOnDayIsFind(rest, d);
      assert forall i :: 0 <= i < |rest| ==> rest[i] == schedules[i + 1];
      if FirstOnDay(rest, d).Some? {
        var i :| 0 <= i < |rest| && rest[i] == FirstOnDay(rest, d).value &&
                 forall j :: 0 <= j < i ==> rest[j].day != d;
        assert schedules[i + 1] == FirstOnDay(schedules, d).value;
      }
    }
  }

  /** `daysOfWeek[(currentDayIndex + i) % 7]` with the Sunday-first list. */
  function DayAt(today: Day, offset: nat): Day {
    JsDay((JsIndex(today) + offset) % 7)
  }

  /** The days the loop `for (let i = 1; i <= 7; i++)` visits, in order: tomorrow first, today last. */
  function WeekAhead(today: Day): (days: seq<Day>)
    ensures |days| == 7 && forall k :: 0 <= k < 7 ==> days[k] == DayAt(today, k + 1)
  {
    seq(7, k requires 0 <= k < 7 => DayAt(today, k + 1))
  }

  /** The first schedule of the first day in `days` that has one (`find` on each day in turn). */
  function ScanDays(schedules: seq<Schedule>, days: seq<Day>): Option<Schedule> {
    if days == [] then None
    else match FirstOnDay(schedules, days[0])
      case Some(s) => Some(s)
      case None => ScanDays(schedules, days[1..])
  }

  /** `getNextSchedule()` with the clock read as `today` and `now`. */
  function NextSchedule(schedules: seq<Schedule>, today: Day, now: ClockTime): Option<Upcoming> {
    if |schedules| == 0 then None
    else match FirstStartingAfter(OnDay(schedules, today), MinuteOfDay(now))
      case Some(s) => Some(Upcoming(s, true))
      case None =>
        match ScanDays(schedules, WeekAhead(today))
        case Some(s) => Some(Upcoming(s, false))
        case None => Some(Upcoming(schedules[0], false))
  }

  /** The component's loops, returning at the first hit. */
  method GetNextSchedule(schedules: seq<Schedule>, today: Day, now: ClockTime) returns (r: Option<Upcoming>)
    ensures r == NextSchedule(schedules, today, now)
  {
    if |schedules| == 0 {
      return None;
    }
    var currentTime := now.hour * 60 + now.minute;
    var todaySchedules := OnDay(schedules, today);
    for k := 0 to |todaySchedules|
      invariant FirstStartingAfter(todaySchedules, currentTime) == FirstStartingAfter(todaySchedules[k..], currentTime)
    {
      var schedule := todaySchedules[k];
      if schedule.start.hour * 60 + schedule.start.minute > currentTime {
        return Some(Upcoming(schedule, true));
      }
      assert todaySchedules[k..][1..] == todaySchedules[k + 1..];
    }
    var nextSchedule := ScanWeek(schedules, today);
    if nextSchedule.Some? {
      return Some(Upcoming(nextSchedule.value, false));
    }
    return Some(Upcoming(schedules[0], false));
  }

  /** The `for (let i = 1; i <= 7; i++)` loop of `getNextSchedule`. */
  method ScanWeek(schedules: seq<Schedule>, today: Day) returns (r: Option<Schedule>)
    ensures r == ScanDays(schedules, WeekAhead(today))
  {
    ghost var week := WeekAhead(today);
    for i := 1 to 8
      invariant ScanDays(schedules, week) == ScanDays(schedules, week[i - 1..])
    {
      var nextDay := DayAt(today, i);
      var nextSchedule := FirstOnDay(schedules, nextDay);
      ScanStep(schedules, week, i - 1);
      if nextSchedule.Some? {
        return nextSchedule;
      }
    }
    return None;
  }

  /** One step of the scan: the day at position `k` either answers or hands on to the next day. */
  lemma ScanStep(schedules: seq<Schedule>, days: seq<Day>, k: nat)
    requires k < |days|
    ensures ScanDays(schedules, days[k..]) ==
              if FirstOnDay(schedules, days[k]).Some? then FirstOnDay(schedules, days[k]) else ScanDays(schedules, days[k + 1..])
  {
    assert days[k..][0] == days[k];
    assert days[k..][1..] == days[k + 1..];
  }

  /** The offset at which the scan reaches day `d`: today itself is seven days ahead. */
  function OffsetOf(today: Day, d: Day): nat {
    if JsIndex(d) > JsIndex(today) then JsIndex(d) - JsIndex(today) else JsIndex(d) + 7 - JsIndex(today)
  }

  /** Every weekday is reached by one of the offsets 1..7. */
  lemma DayReached(today: Day, d: Day)
    ensures 1 <= OffsetOf(today, d) <= 7 && DayAt(today, OffsetOf(today, d)) == d
  {
    var t, x := JsIndex(today), JsIndex(d);
    if x > t {
      assert (t + (x - t)) % 7 == x;
    } else {
      assert (t + (x + 7 - t)) % 7 == x;
    }
    JsDayIndex(d);
  }

  /** Offsets 1..6 name the other six days; offset 7 wraps back to today. */
  lemma OffsetsAroundTheWeek(today: Day, k: nat)
    requires 1 <= k <= 7
    ensures DayAt(today, k) == today <==> k == 7
  {
    JsDayIndex(today);
  }

  /** A day of the list that has a schedule makes the scan succeed. */
  lemma {:induction false} ScanReaches(schedules: seq<Schedule>, days: seq<Day>, k: nat)
    requires k < |days| && FirstOnDay(schedules, days[k]).Some?
    ensures ScanDays(schedules, days).Some?
  {
    if k > 0 && FirstOnDay(schedules, days[0]).None? {
      assert days[1..][k - 1] == days[k];
      ScanReaches(schedules, days[1..], k - 1);
    }
  }

  /** `days[k]` is the first day of the list that has a schedule. */
  predicate NearestDay(schedules: seq<Schedule>, days: seq<Day>, k: int) {
    0 <= k < |days| && FirstOnDay(schedules, days[k]).Some? &&
    forall p :: 0 <= p < k ==> FirstOnDay(schedules, days[p]).None?
  }

  /** The scan returns the first schedule, in list order, of the first day that has one. */
  lemma {:induction false} ScanIsNearest(schedules: seq<Schedule>, days: seq<Day>)
    ensures var r := ScanDays(schedules, days);
            r.Some? ==> exists k :: NearestDay(schedules, days, k) && r == FirstOnDay(schedules, days[k])
  {
    var r := ScanDays(schedules, days);
    if r.Some? {
      if FirstOnDay(schedules, days[0]).Some? {
        assert NearestDay(schedules, days, 0);
      } else {
        var rest := days[1..];
        ScanIsNearest(schedules, rest);
        var k :| NearestDay(schedules, rest, k) && r == FirstOnDay(schedules, rest[k]);
        assert forall p :: 0 <= p < k ==> rest[p] == days[p + 1];
        assert NearestDay(schedules, days, k + 1);
      }
    }
  }

  /** A card with schedules always gets one from the first two searches; the last fallback is never used. */
  lemma NeverFallsBack(schedules: seq<Schedule>, today: Day)
    requires schedules != []
    ensures ScanDays(schedules, WeekAhead(today)).Some?
  {
    var d := schedules[0].day;
    assert FirstOnDay(schedules, d) == Some(schedules[0]);
    DayReached(today, d);
    ScanReaches(schedules, WeekAhead(today), OffsetOf(today, d) - 1);
  }

  /** The card shows no next schedule exactly when the class has none. */
  lemma NextAbsentOnlyWithoutSchedules(schedules: seq<Schedule>, today: Day, now: ClockTime)
    ensures NextSchedule(schedules, today, now).None? <==> schedules == []
  {
  }

  /**
   * The result is flagged as today exactly when some schedule today starts
   * after the current minute, and then it is the first such in list order.
   */
  lemma NextTodayMeaning(schedules: seq<Schedule>, today: Day, now: ClockTime)
    requires schedules != []
    ensures var r := NextSchedule(schedules, today, now);
            var m := MinuteOfDay(now);
            r.Some? &&
            (r.value.isToday <==> exists i :: 0 <= i < |schedules| && LaterToday(schedules[i], today, m)) &&
            (r.value.isToday ==> FirstLaterToday(schedules, today, m) == Some(r.value.schedule))
  {
    FilterThenSearch(schedules, today, MinuteOfDay(now));
    NeverFallsBack(schedules, today);
  }

  /**
   * Otherwise the result is the first schedule, in list order, of the
   * nearest following day that has one, today counting as seven days ahead.
   */
  lemma NextOtherDayMeaning(schedules: seq<Schedule>, today: Day, now: ClockTime)
    requires schedules != []
    requires forall i :: 0 <= i < |schedules| ==> !LaterToday(schedules[i], today, MinuteOfDay(now))
    ensures var r := NextSchedule(schedules, today, now);
            r.Some? && !r.value.isToday &&
            exists k :: NearestDay(schedules, WeekAhead(today), k) &&
                        Some(r.value.schedule) == FirstOnDay(schedules, WeekAhead(today)[k])
  {
    FilterThenSearch(schedules, today, MinuteOfDay(now));
    NeverFallsBack(schedules, today);
    ScanIsNearest(schedules, WeekAhead(today));
  }

  /**
   * With only today's schedules, all already started, the card wraps round
   * to the first of them a week ahead, flagged as not today.
   */
  lemma WrapsToToday(schedules: seq<Schedule>, today: Day, now: ClockTime)
    requires schedules != []
    requires forall i :: 0 <= i < |schedules| ==> schedules[i].day == today && schedules[i].start.Minutes() <= MinuteOfDay(now)
    ensures NextSchedule(schedules, today, now) == Some(Upcoming(schedules[0], false))
  {
    FilterThenSearch(schedules, today, MinuteOfDay(now));
    var week := WeekAhead(today);
    ScanIsNearest(schedules, week);
    NeverFallsBack(schedules, today);
    var k: int :| NearestDay(schedules, week, k) && ScanDays(schedules, week) == FirstOnDay(schedules, week[k]);
    OffsetsAroundTheWeek(today, k + 1);
  }
}
