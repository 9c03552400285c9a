/**
 * 12-hour rendering of times: the `format_time` template filter (identical in
 * the student and professor template tags) and the prototype's `formatTime`
 * (identical in ScheduleManager and ClassCard).
 */
module TimeFormat {
  import opened Wrappers
  import opened Text
  import opened Clock

  /** What a template passes to the filter: a `time` or any other value. */
  datatype TemplateValue = TimeValue(t: Time) | OtherValue(text: string)

  /** The hour shown on a 12-hour clock. */
  function DisplayHour(h: Hour): (d: nat)
    ensures 1 <= d <= 12
    ensures h == 0 ==> d == 12
    ensures 1 <= h <= 12 ==> d == h
    ensures 13 <= h ==> d == h - 12
  {
    var d := if h <= 12 then h else h - 12;
    if d == 0 then 12 else d
  }

  function Meridiem(h: Hour): string {
    if h < 12 then "AM" else "PM"
  }

  /** The inverse of `DisplayHour`, given whether the suffix is PM. */
  function Hour24(display: nat, pm: bool): int {
    if pm then (if display == 12 then 12 else display + 12)
    else (if display == 12 then 0 else display)
  }

  /** `format_time(value)`: a time becomes `"H:MM AM"`/`"H:MM PM"`, anything else is returned unchanged. */
  function FormatTime(v: TemplateValue): (r: TemplateValue)
    ensures v.OtherValue? ==> r == v
    ensures v.TimeValue? ==> r.OtherValue? && 7 <= |r.text| <= 8
  {
    match v
    case TimeValue(t) =>
      DecimalBelow100(DisplayHour(t.hour));
      OtherValue(Decimal(DisplayHour(t.hour)) + ":" + TwoDigits(t.minute) + " " + Meridiem(t.hour))
    case OtherValue(_) => v
  }

  /** Reads a `"H:MM AM"` string back into a time. */
  function ParseTwelveHour(s: string): Option<Time> {
    if 7 <= |s| <= 8 then ReadTwelveHour(s[..|s| - 6], s[|s| - 6..]) else None
  }

  /** Reads the hour digits and the six characters `":MM AM"` after them. */
  function ReadTwelveHour(hs: string, tail: string): Option<Time> {
    if |tail| == 6 && tail[0] == ':' && tail[3] == ' ' && (tail[4..] == "AM" || tail[4..] == "PM") &&
       (forall i :: 0 <= i < |hs| ==> IsDigit(hs[i])) && IsDigit(tail[1]) && IsDigit(tail[2])
    then
      var h := Hour24(DecimalValue(hs), tail[4..] == "PM");
      var m := DigitValue(tail[1]) * 10 + DigitValue(tail[2]);
      if 0 <= h < 24 && m < 60 then Some(Time(h, m)) else None
    else None
  }

  /** The displayed hour and the suffix together give back the 24-hour hour. */
  lemma HourRoundTrip(h: Hour)
    ensures Hour24(DisplayHour(h), Meridiem(h) == "PM") == h
  {
  }

  /** The hour digits and the tail of a formatted time read back as that time. */
  lemma ReadTwelveHourOf(t: Time)
    ensures ReadTwelveHour(Decimal(DisplayHour(t.hour)), ":" + TwoDigits(t.minute) + " " + Meridiem(t.hour)) == Some(t)
  {
    var tail := ":" + TwoDigits(t.minute) + " " + Meridiem(t.hour);
    assert tail[4..] == Meridiem(t.hour);
    DecimalRoundTrip(DisplayHour(t.hour));
    HourRoundTrip(t.hour);
  }

  /** The 12-hour text loses nothing: reading it back gives the original time. */
  lemma FormatRoundTrip(t: Time)
    ensures FormatTime(TimeValue(t)).OtherValue?
    ensures ParseTwelveHour(FormatTime(TimeValue(t)).text) == Some(t)
  {
    var hs := Decimal(DisplayHour(t.hour));
    var tail := ":" + TwoDigits(t.minute) + " " + Meridiem(t.hour);
    var s := FormatTime(TimeValue(t)).text;
    DecimalBelow100(DisplayHour(t.hour));
    assert s == hs + tail;
    assert s[..|s| - 6] == hs && s[|s| - 6..] == tail;
    ReadTwelveHourOf(t);
  }

  /** The prototype's `formatTime(time)` after `time.split(':')`: the parsed hour and the minutes text. */
  function FormatClock(hour: Hour, minutesText: string): (r: string)
    ensures IsSubstring(":" + minutesText + " ", r)
  {
    var ampm := if hour >= 12 then "PM" else "AM";
    var displayHour := if hour == 0 then 12 else if hour > 12 then hour - 12 else hour;
    var r := Decimal(displayHour) + ":" + minutesText + " " + ampm;
    assert OccursAt(":" + minutesText + " ", r, |Decimal(displayHour)|);
    r
  }

  /** The prototype shows 0 as 12 AM, 12 as 12 PM and 13-23 as the hour less 12, PM, like the filter. */
  lemma FormatClockIsTwelveHour(hour: Hour, minutesText: string)
    ensures FormatClock(hour, minutesText) == Decimal(DisplayHour(hour)) + ":" + minutesText + " " + Meridiem(hour)
  {
  }

  /** For a well-formed `"HH:MM"` the prototype and the template filter print the same text. */
  lemma ClockAgreesWithTemplate(t: Time)
    ensures FormatTime(TimeValue(t)) == OtherValue(FormatClock(t.hour, TwoDigits(t.minute)))
  {
  }
}
