/** Rendering an event boundary for display: a date-time shows its wall-clock
    time as "HH:MM", a bare date shows the caller's default time. */
module Clock {
  import opened Wrappers
  import opened Decimal
  import opened Time

  /** A calendar boundary: a date-time in seconds of local wall-clock time, or a
      date given as a day number. */
  datatype EventTime = DateTime(seconds: int) | Date(day: int)

  /** The hour of the day and minute of the hour of a local time in seconds. */
  function HourOf(seconds: int): nat {
    seconds % SecondsPerDay / 3600
  }

  function MinuteOf(seconds: int): nat {
    seconds % SecondsPerDay % 3600 / 60
  }

  /** A five-character "HH:MM" clock reading. */
  predicate IsClock(s: string) {
    |s| == 5 && AllDigits(s[..2]) && s[2] == ':' && AllDigits(s[3..])
  }

  /** `s` is the clock reading of the local time `seconds`. */
  predicate ShowsTimeOf(s: string, seconds: int) {
    IsClock(s) && DigitsValue(s[..2]) == HourOf(seconds) && DigitsValue(s[3..]) == MinuteOf(seconds)
  }

  /** Time of day as `strftime("%H:%M")` writes it: zero-padded hour and
      minute; reading the digits back gives the hour and minute. */
  function FormatClock(seconds: int): (r: string)
    ensures IsClock(r)
    ensures DigitsValue(r[..2]) == HourOf(seconds) < 24
    ensures DigitsValue(r[3..]) == MinuteOf(seconds) < 60
  {
    var r := Pad2(HourOf(seconds)) + ":" + Pad2(MinuteOf(seconds));
    assert r[..2] == Pad2(HourOf(seconds));
    assert r[3..] == Pad2(MinuteOf(seconds));
    r
  }

  /** Missing boundaries give no text, date-times their clock reading, and
      dates the supplied default ("00:00" for starts, "23:59" for ends). */
  function FormatEventTime(t: Option<EventTime>, defaultTime: string): (r: Option<string>)
    ensures t.None? <==> r.None?
    ensures t.Some? && t.value.Date? ==> r == Some(defaultTime)
    ensures t.Some? && t.value.DateTime? ==> r.Some? && ShowsTimeOf(r.value, t.value.seconds)
  {
    match t
    case None => None
    case Some(DateTime(seconds)) => Some(FormatClock(seconds))
    case Some(Date(_)) => Some(defaultTime)
  }

  /** A clock reading identifies the minute of the day it was taken at. */
  lemma ClockDeterminesMinuteOfDay(a: int, b: int)
    requires FormatClock(a) == FormatClock(b)
    ensures a % SecondsPerDay / 60 == b % SecondsPerDay / 60
  {
    assert HourOf(a) == HourOf(b) && MinuteOf(a) == MinuteOf(b);
    MinuteOfDay(a % SecondsPerDay);
    MinuteOfDay(b % SecondsPerDay);
  }

  lemma MinuteOfDay(x: nat)
    ensures x / 60 == (x / 3600) * 60 + x % 3600 / 60
  {
  }
}
