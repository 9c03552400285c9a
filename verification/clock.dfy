/**
 * Days of the week, times of day and local date-times.
 *
 * A schedule's `TimeField` is modelled at minute precision, as the
 * `type: 'time'` inputs post it; the "now" the views read from the clock
 * carries seconds and microseconds, which matter at the end boundary of a
 * schedule. Dates are day numbers counted from 1970-01-01.
 * The server runs with `USE_TZ = True` and `TIME_ZONE = 'Asia/Manila'`:
 * `timezone.now()` is a UTC date-time, and `localtime` and `__date` lookups
 * see it shifted to Manila time, eight hours ahead all year.
 */
module Clock {

  datatype Day = Monday | Tuesday | Wednesday | Thursday | Friday | Saturday | Sunday

  type Hour = h: int | 0 <= h < 24
  type Minute = m: int | 0 <= m < 60
  type Second = s: int | 0 <= s < 60
  type Micro = u: int | 0 <= u < 1000000

  /** A schedule's start or end time (minute precision). */
  datatype Time = Time(hour: Hour, minute: Minute) {
    /** `t.hour * 60 + t.minute`, the form every comparison in the views uses. */
    function Minutes(): (m: nat)
      ensures m < 24 * 60
    {
      hour * 60 + minute
    }
  }

  /** Python's `datetime.time` as returned by `now.time()`. */
  datatype ClockTime = ClockTime(hour: Hour, minute: Minute, second: Second, micro: Micro) {
    /** Position within the day; ordering by it is Python's ordering of `time` values. */
    function Micros(): (u: nat)
      ensures u < 24 * 60 * 60 * 1000000
    {
      ((hour * 60 + minute) * 60 + second) * 1000000 + micro
    }
  }

  /** A stored `time` value, which has zero seconds and microseconds. */
  function AsClock(t: Time): (c: ClockTime)
    ensures c.Micros() == t.Minutes() * 60 * 1000000
  {
    ClockTime(t.hour, t.minute, 0, 0)
  }

  /** A local date-time: the day number (0 is 1970-01-01) and the time of day. */
  datatype DateTime = DateTime(date: nat, time: ClockTime) {
    /** Position on the time line, used by `order_by('-date')`. */
    function Stamp(): nat {
      date * (24 * 60 * 60 * 1000000) + time.Micros()
    }
  }

  const DayMicros: nat := 24 * 60 * 60 * 1000000

  /** Asia/Manila is UTC+08:00 and keeps no daylight-saving time. */
  const ManilaOffset: nat := 8 * 60 * 60 * 1000000

  /** `timezone.localtime(now)`: the Manila wall-clock reading of the UTC date-time `utc`. */
  function Manila(utc: DateTime): (local: DateTime)
    ensures local.Stamp() == utc.Stamp() + ManilaOffset
    ensures local.date == utc.date || local.date == utc.date + 1
  {
    var t := utc.time;
    if t.hour < 16 then DateTime(utc.date, t.(hour := t.hour + 8))
    else DateTime(utc.date + 1, t.(hour := t.hour - 16))
  }

  /** The UTC calendar date of the instant whose Manila wall-clock reading is `local` (day -1 is 1969-12-31). */
  function UtcDate(local: DateTime): (d: int)
    ensures d * DayMicros + ManilaOffset <= local.Stamp() < (d + 1) * DayMicros + ManilaOffset
  {
    if local.time.hour < 8 then local.date - 1 else local.date
  }

  /** Reading a Manila wall clock back in UTC gives the UTC date the clock started from. */
  lemma UtcDateOfManila(utc: DateTime)
    ensures UtcDate(Manila(utc)) == utc.date
  {
    var local := Manila(utc);
    var d := UtcDate(local);
    assert utc.date * DayMicros <= utc.Stamp() < (utc.date + 1) * DayMicros;
    assert d * DayMicros <= utc.Stamp() < (d + 1) * DayMicros;
  }

  /** The Manila date runs one day ahead of the UTC date exactly from 16:00 UTC to midnight UTC. */
  lemma ManilaDateAhead(utc: DateTime)
    ensures Manila(utc).date == utc.date + 1 <==> utc.time.hour >= 16
    ensures Manila(utc).date == utc.date <==> utc.time.hour < 16
  {
  }

  /** `strftime('%A')`: 1970-01-01 was a Thursday. */
  function Weekday(date: nat): Day {
    match (date + 3) % 7
    case 0 => Monday
    case 1 => Tuesday
    case 2 => Wednesday
    case 3 => Thursday
    case 4 => Friday
    case 5 => Saturday
    case _ => Sunday
  }

  /** The day name stored in `Schedule.day`. */
  function DayName(d: Day): string {
    match d
    case Monday => "Monday"
    case Tuesday => "Tuesday"
    case Wednesday => "Wednesday"
    case Thursday => "Thursday"
    case Friday => "Friday"
    case Saturday => "Saturday"
    case Sunday => "Sunday"
  }

  /** Position of a day when `Schedule.day` values are sorted as strings. */
  function DayRank(d: Day): nat {
    match d
    case Friday => 0
    case Monday => 1
    case Saturday => 2
    case Sunday => 3
    case Thursday => 4
    case Tuesday => 5
    case Wednesday => 6
  }

  /** Lexicographic order on strings, as the database compares `CharField` values. */
  predicate LexLess(a: string, b: string) {
    if a == [] then b != []
    else if b == [] then false
    else a[0] < b[0] || (a[0] == b[0] && LexLess(a[1..], b[1..]))
  }

  /** `DayRank` orders days exactly as their names sort, so it is the `ordering = ['day', ...]` key. */
  lemma DayRankIsNameOrder(a: Day, b: Day)
    ensures DayRank(a) < DayRank(b) <==> LexLess(DayName(a), DayName(b))
  {
    var x, y := DayName(a), DayName(b);
    if a == b {
      LexIrreflexive(x);
    } else {
      assert x[0] == y[0] ==> x[1] != y[1];
      assert LexLess(x, y) == (x[0] < y[0] || (x[0] == y[0] && LexLess(x[1..], y[1..])));
      assert x[0] == y[0] ==> LexLess(x[1..], y[1..]) == (x[1] < y[1]);
    }
  }

  lemma {:induction false} LexIrreflexive(s: string)
    ensures !LexLess(s, s)
  {
    if s != [] {
      LexIrreflexive(s[1..]);
    }
  }

  /** JavaScript's `["Sunday", "Monday", ...]` indexing used by the prototype. */
  function JsIndex(d: Day): (i: nat)
    ensures i < 7
  {
    match d
    case Sunday => 0
    case Monday => 1
    case Tuesday => 2
    case Wednesday => 3
    case Thursday => 4
    case Friday => 5
    case Saturday => 6
  }

  function JsDay(i: nat): (d: Day)
    requires i < 7
    ensures JsIndex(d) == i
  {
    [Sunday, Monday, Tuesday, Wednesday, Thursday, Friday, Saturday][i]
  }

  lemma JsDayIndex(d: Day)
    ensures JsDay(JsIndex(d)) == d
  {
  }
}
