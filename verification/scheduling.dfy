/**
 * The schedule engine shared by the views: the three-clause conflict test of
 * `add_schedule`, the active-window resolver `get_active_schedule`, and the
 * `"HH:MM - HH:MM"` label that names a session.
 */
module Scheduling {
  import opened Wrappers
  import opened Text
  import opened Clock

  /** A weekly `Schedule` row (its class is kept by the database rows). */
  datatype Schedule = Schedule(day: Day, start: Time, end: Time)

  predicate ValidRange(s: Schedule) {
    s.start.Minutes() < s.end.Minutes()
  }

  predicate AllValid(ss: seq<Schedule>) {
    forall i :: 0 <= i < |ss| ==> ValidRange(ss[i])
  }

  // ---------------------------------------------------------------------------
  // Conflict check
  // ---------------------------------------------------------------------------

  /** The test written in the views, new range [s, e] against an existing [es, ee], in minutes. */
  predicate ThreeClause(s: int, e: int, es: int, ee: int) {
    (s >= es && s < ee) || (e > es && e <= ee) || (s <= es && e >= ee)
  }

  /** Half-open overlap of [s, e) and [es, ee). */
  predicate Overlaps(s: int, e: int, es: int, ee: int) {
    s < ee && e > es
  }

  /** On non-empty ranges the three clauses say exactly "the half-open ranges overlap". */
  lemma ThreeClauseIsOverlap(s: int, e: int, es: int, ee: int)
    requires s < e && es < ee
    ensures ThreeClause(s, e, es, ee) <==> Overlaps(s, e, es, ee)
  {
  }

  /** Ranges that only touch (one ends where the other starts) are not a conflict. */
  lemma TouchingAccepted(s: int, e: int, es: int, ee: int)
    requires s < e && es < ee
    requires e == es || s == ee
    ensures !ThreeClause(s, e, es, ee)
  {
  }

  /** The candidate conflicts with an existing schedule: same day and the three clauses. */
  predicate Conflicts(cand: Schedule, existing: Schedule) {
    cand.day == existing.day &&
    ThreeClause(cand.start.Minutes(), cand.end.Minutes(), existing.start.Minutes(), existing.end.Minutes())
  }

  predicate SameDayOverlap(a: Schedule, b: Schedule) {
    a.day == b.day && Overlaps(a.start.Minutes(), a.end.Minutes(), b.start.Minutes(), b.end.Minutes())
  }

  /** Some schedule of the list conflicts with the candidate (the prototype's `schedules.some(...)`). */
  predicate ConflictsWithSome(existing: seq<Schedule>, cand: Schedule) {
    exists i :: 0 <= i < |existing| && Conflicts(cand, existing[i])
  }

  /** The conflict loop of `add_schedule`: scan the class's schedules, return at the first same-day hit. */
  method FindConflict(existing: seq<Schedule>, cand: Schedule) returns (conflict: bool)
    ensures conflict <==> ConflictsWithSome(existing, cand)
  {
    for i := 0 to |existing|
      invariant forall j :: 0 <= j < i ==> !Conflicts(cand, existing[j])
    {
      var other := existing[i];
      if other.day == cand.day {
        var s, e := cand.start.Minutes(), cand.end.Minutes();
        var es, ee := other.start.Minutes(), other.end.Minutes();
        if (s >= es && s < ee) || (e > es && e <= ee) || (s <= es && e >= ee) {
          return true;
        }
      }
    }
    return false;
  }

  /** Schedules on other days are never consulted: adding them to the list does not change the verdict. */
  lemma {:induction false} OtherDaysIgnored(existing: seq<Schedule>, others: seq<Schedule>, cand: Schedule)
    requires forall i :: 0 <= i < |others| ==> others[i].day != cand.day
    ensures ConflictsWithSome(existing + others, cand) <==> ConflictsWithSome(existing, cand)
  {
    var all := existing + others;
    if ConflictsWithSome(all, cand) {
      var i :| 0 <= i < |all| && Conflicts(cand, all[i]);
      assert i < |existing| && all[i] == existing[i];
    }
    if ConflictsWithSome(existing, cand) {
      var i :| 0 <= i < |existing| && Conflicts(cand, existing[i]);
      assert all[i] == existing[i];
    }
  }

  /** With valid ranges, passing the check means no same-day schedule overlaps the candidate. */
  lemma {:induction false} NoConflictMeansDisjoint(existing: seq<Schedule>, cand: Schedule)
    requires AllValid(existing) && ValidRange(cand)
    ensures !ConflictsWithSome(existing, cand) <==>
            forall i :: 0 <= i < |existing| ==> !SameDayOverlap(cand, existing[i])
  {
    forall i | 0 <= i < |existing|
      ensures Conflicts(cand, existing[i]) <==> SameDayOverlap(cand, existing[i])
    {
      ThreeClauseIsOverlap(cand.start.Minutes(), cand.end.Minutes(), existing[i].start.Minutes(), existing[i].end.Minutes());
    }
  }

  /** No two same-day schedules of the list overlap. */
  predicate ConflictFree(ss: seq<Schedule>) {
    forall i, j :: 0 <= i < |ss| && 0 <= j < |ss| && i != j ==> !SameDayOverlap(ss[i], ss[j])
  }

  /** A schedule accepted by the check keeps the class's schedules free of same-day overlaps. */
  lemma {:induction false} AcceptedKeepsConflictFree(ss: seq<Schedule>, cand: Schedule)
    requires AllValid(ss) && ConflictFree(ss) && ValidRange(cand)
    requires !ConflictsWithSome(ss, cand)
    ensures AllValid(ss + [cand]) && ConflictFree(ss + [cand])
  {
    NoConflictMeansDisjoint(ss, cand);
    var all := ss + [cand];
    forall i, j | 0 <= i < |all| && 0 <= j < |all| && i != j
      ensures !SameDayOverlap(all[i], all[j])
    {
      if i == |ss| {
        assert !SameDayOverlap(cand, ss[j]);
      } else if j == |ss| {
        assert !SameDayOverlap(cand, ss[i]);
      } else {
        assert all[i] == ss[i] && all[j] == ss[j];
      }
    }
  }

  /** An accepted schedule is never a second copy of an existing (day, start, end). */
  lemma AcceptedIsNotDuplicate(ss: seq<Schedule>, cand: Schedule)
    requires ValidRange(cand)
    requires !ConflictsWithSome(ss, cand)
    ensures cand !in ss
  {
    assert Conflicts(cand, cand);
    forall i | 0 <= i < |ss|
      ensures ss[i] != cand
    {
      assert !Conflicts(cand, ss[i]);
    }
  }

  // ---------------------------------------------------------------------------
  // Active-window resolver
  // ---------------------------------------------------------------------------

  /** `schedule.day == current_day and schedule.start_time <= now <= schedule.end_time`. */
  predicate Within(s: Schedule, today: Day, now: ClockTime) {
    s.day == today && AsClock(s.start).Micros() <= now.Micros() <= AsClock(s.end).Micros()
  }

  /** Index of the schedule `get_active_schedule` returns: the first one, in iteration order, containing `now`. */
  function ActiveIndex(ss: seq<Schedule>, today: Day, now: ClockTime): (r: Option<nat>)
    ensures r.None? <==> forall i :: 0 <= i < |ss| ==> !Within(ss[i], today, now)
    ensures r.Some? ==> r.value < |ss| && Within(ss[r.value], today, now) &&
                        forall j :: 0 <= j < r.value ==> !Within(ss[j], today, now)
  {
    if ss == [] then None
    else if Within(ss[0], today, now) then Some(0)
    else match ActiveIndex(ss[1..], today, now)
      case None => None
      case Some(k) => Some(k + 1)
  }

  /** `get_active_schedule(class_obj, now)` over the class's schedules in query order. */
  method GetActiveSchedule(ss: seq<Schedule>, today: Day, now: ClockTime) returns (r: Option<Schedule>)
    ensures r.None? <==> ActiveIndex(ss, today, now).None?
    ensures r.Some? ==> r.value == ss[ActiveIndex(ss, today, now).value]
  {
    for i := 0 to |ss|
      invariant forall j :: 0 <= j < i ==> !Within(ss[j], today, now)
    {
      var s := ss[i];
      if s.day == today && AsClock(s.start).Micros() <= now.Micros() <= AsClock(s.end).Micros() {
        FirstWithinIsActive(ss, today, now, i);
        return Some(s);
      }
    }
    return None;
  }

  /** The first schedule containing `now` is the one `ActiveIndex` names. */
  lemma FirstWithinIsActive(ss: seq<Schedule>, today: Day, now: ClockTime, i: nat)
    requires i < |ss| && Within(ss[i], today, now)
    requires forall j :: 0 <= j < i ==> !Within(ss[j], today, now)
    ensures ActiveIndex(ss, today, now) == Some(i)
  {
    var r := ActiveIndex(ss, today, now);
    assert r.value <= i;
  }

  /** Both ends of the window are inclusive. */
  lemma BoundariesInclusive(s: Schedule)
    requires ValidRange(s)
    ensures Within(s, s.day, AsClock(s.start)) && Within(s, s.day, AsClock(s.end))
  {
  }

  /** In the end minute only the exact instant `HH:MM:00.000000` is inside the window. */
  lemma EndBoundaryExact(s: Schedule, now: ClockTime)
    requires ValidRange(s)
    requires now.hour == s.end.hour && now.minute == s.end.minute
    ensures Within(s, s.day, now) <==> now.second == 0 && now.micro == 0
  {
  }

  /** A schedule on another day never matches, whatever the time. */
  lemma OtherDayNeverActive(s: Schedule, today: Day, now: ClockTime)
    requires s.day != today
    ensures !Within(s, today, now)
  {
  }

  // ---------------------------------------------------------------------------
  // Session label
  // ---------------------------------------------------------------------------

  /** `strftime('%H:%M')`. */
  function HourMinute(t: Time): string {
    TwoDigits(t.hour) + ":" + TwoDigits(t.minute)
  }

  /** `f"{start:%H:%M} - {end:%H:%M}"`, the label naming a session. */
  function Label(s: Schedule): (r: string)
    ensures |r| == 13
  {
    HourMinute(s.start) + " - " + HourMinute(s.end)
  }

  function TwoDigitValue(a: char, b: char): nat
    requires IsDigit(a) && IsDigit(b)
  {
    DigitValue(a) * 10 + DigitValue(b)
  }

  /** Reads a label back into its start and end times. */
  function ParseLabel(l: string): Option<(Time, Time)> {
    if |l| == 13 && l[2] == ':' && l[5..8] == " - " && l[10] == ':' &&
       IsDigit(l[0]) && IsDigit(l[1]) && IsDigit(l[3]) && IsDigit(l[4]) &&
       IsDigit(l[8]) && IsDigit(l[9]) && IsDigit(l[11]) && IsDigit(l[12])
    then
      var sh, sm := TwoDigitValue(l[0], l[1]), TwoDigitValue(l[3], l[4]);
      var eh, em := TwoDigitValue(l[8], l[9]), TwoDigitValue(l[11], l[12]);
      if sh < 24 && sm < 60 && eh < 24 && em < 60 then Some((Time(sh, sm), Time(eh, em))) else None
    else None
  }

  /** The label carries the schedule's start and end exactly. */
  lemma LabelRoundTrip(s: Schedule)
    ensures ParseLabel(Label(s)) == Some((s.start, s.end))
  {
    var l := Label(s);
    var a, b := TwoDigits(s.start.hour), TwoDigits(s.start.minute);
    var c, d := TwoDigits(s.end.hour), TwoDigits(s.end.minute);
    assert l == (a + ":" + b) + " - " + (c + ":" + d);
    assert l[0] == a[0] && l[1] == a[1] && l[2] == ':' && l[3] == b[0] && l[4] == b[1];
    assert l[5..8] == " - ";
    assert l[8] == c[0] && l[9] == c[1] && l[10] == ':' && l[11] == d[0] && l[12] == d[1];
  }

  /** Two schedules share a label exactly when they share start and end times. */
  lemma LabelInjective(a: Schedule, b: Schedule)
    ensures Label(a) == Label(b) <==> (a.start == b.start && a.end == b.end)
  {
    LabelRoundTrip(a);
    LabelRoundTrip(b);
  }
}
