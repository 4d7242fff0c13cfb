/** Units of wall-clock time in seconds, shared by the countdown, the clock
    reading and the calendar day. */
module Time {
  const SecondsPerMinute: nat := 60
  const SecondsPerHour: nat := 3600
  const SecondsPerDay: nat := 24 * 3600
}
