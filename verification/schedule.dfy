/** The group data the store hands to the coordinator: a keyed collection of
    day records plus an `updatedOn` stamp, iterated in insertion order. */
module Schedule {
  import opened Wrappers
  import opened Time

  /** A record's "date" field: absent, present but not a date-time, or parsed
      to the calendar date of the parsed value. */
  datatype DateField = NoDate | Unparsable | Parsed(day: int)

  /** A value in the group data: a day record (a dict) or anything else. */
  datatype DayValue = NotARecord | DayRecord(date: DateField, status: Option<string>)

  datatype GroupEntry = GroupEntry(key: string, value: DayValue)

  datatype GroupData = GroupData(entries: seq<GroupEntry>)

  const UpdatedOnKey: string := "updatedOn"

  /** The local calendar day of a local time in seconds (floor division, so
      instants before the epoch fall on negative days). */
  function DayOf(now: int): int {
    now / SecondsPerDay
  }

  /** Python truthiness of the group data: present and non-empty. */
  predicate HasData(g: Option<GroupData>) {
    g.Some? && |g.value.entries| > 0
  }

  /** An entry the day-status scan accepts for `today`: not the `updatedOn`
      stamp, a record, with a date that parses to today. */
  predicate IsDayFor(e: GroupEntry, today: int) {
    e.key != UpdatedOnKey && e.value.DayRecord? && e.value.date.Parsed? && e.value.date.day == today
  }

  /** The position of the first entry for `today`, if any. */
  function FirstDayIndex(entries: seq<GroupEntry>, today: int): (r: Option<nat>)
    ensures r.Some? ==> r.value < |entries| && IsDayFor(entries[r.value], today)
    ensures r.Some? ==> forall j :: 0 <= j < r.value ==> !IsDayFor(entries[j], today)
    ensures r.None? <==> forall j :: 0 <= j < |entries| ==> !IsDayFor(entries[j], today)
    decreases |entries|
  {
    if |entries| == 0 then None
    else if IsDayFor(entries[0], today) then Some(0)
    else match FirstDayIndex(entries[1..], today)
      case None => None
      case Some(i) => Some(i + 1)
  }
}
