/** The display facts the coordinator derives at one instant from the events
    overlapping the next 24 hours, the event under way now, and the group data
    read through the cache. */
module Facts {
  import opened Wrappers
  import opened Events
  import opened Selection
  import opened Schedule
  import opened Countdown
  import opened Clock

  /** Everything one fact reads, taken at a single instant `now`. */
  datatype View = View(
    now: int,
    upcoming: seq<Event>,
    current: Option<Event>,
    group: Option<GroupData>,
    tr: Translations)

  /** The inputs agree with each other as the store produces them: every
      interval is non-empty and the current event covers now. */
  predicate Consistent(v: View) {
    && (forall i :: 0 <= i < |v.upcoming| ==> WellFormed(v.upcoming[i]))
    && (v.current.Some? ==> v.current.value.start <= v.now < v.current.value.end)
  }

  /** Some planned outage in the window starts strictly after now. */
  predicate PlannedAhead(v: View) {
    exists i :: 0 <= i < |v.upcoming| && IsCandidate(v.upcoming[i], PlannedOutage, v.now)
  }

  /** The earliest-starting planned outage that starts strictly after now. */
  function NextPlanned(v: View): Option<Event> {
    NextEventOfType(v.upcoming, PlannedOutage, v.now)
  }

  /** The state of the event under way now: planned or emergency outage by
      its kind, normal without an event or with an unrecognised kind. */
  function CurrentState(v: View): (s: ConnectivityState)
    ensures s == PlannedOutage <==> v.current.Some? && v.current.value.uid == Definite
    ensures s == EmergencyOutage <==> v.current.Some? && v.current.value.uid == Emergency
    ensures s == Normal <==> v.current.None? || v.current.value.uid.Unrecognised?
  {
    EventToState(v.current)
  }

  /** Outages count as planned only when there is group data at all. */
  function HasOutagesPlanned(v: View): (b: bool)
    ensures b <==> HasData(v.group) && PlannedAhead(v)
  {
    HasData(v.group) && NextPlanned(v).Some?
  }

  /** Start of the next planned outage: the smallest start among the planned
      outages ahead, and none without group data. */
  function NextPlannedOutage(v: View): (r: Option<int>)
    ensures r.Some? <==> HasData(v.group) && PlannedAhead(v)
    ensures r.Some? ==> r.value > v.now
    ensures r.Some? ==> exists i :: 0 <= i < |v.upcoming| && v.upcoming[i].uid == Definite && v.upcoming[i].start == r.value
    ensures r.Some? ==> forall i :: 0 <= i < |v.upcoming| && IsCandidate(v.upcoming[i], PlannedOutage, v.now) ==>
                          r.value <= v.upcoming[i].start
    ensures r.Some? && WithinHorizon(v.upcoming, v.now) ==> r.value < v.now + TimeframeToCheck
  {
    if !HasOutagesPlanned(v) then None
    else match NextPlanned(v)
      case Some(e) => Some(e.start)
      case None => None
  }

  /** Python's `int(seconds / 60)`: whole minutes, truncated toward zero. */
  function TruncatedMinutes(seconds: int): (m: int)
    ensures seconds >= 0 ==> 0 <= m * 60 <= seconds < m * 60 + 60
    ensures seconds < 0 ==> m * 60 - 60 < seconds <= m * 60 <= 0
  {
    if seconds >= 0 then seconds / 60 else -((-seconds) / 60)
  }

  /** Three-valued duration of the next planned outage: unknown without group
      data, zero when data confirms nothing is planned, else its length in
      whole minutes. */
  function NextPlannedOutageDuration(v: View): (r: Option<int>)
    ensures r.None? <==> !HasData(v.group)
    ensures HasData(v.group) && !PlannedAhead(v) ==> r == Some(0)
    ensures HasData(v.group) && PlannedAhead(v) ==>
              NextPlanned(v).Some? &&
              r == Some(TruncatedMinutes(NextPlanned(v).value.end - NextPlanned(v).value.start))
    ensures Consistent(v) && r.Some? ==> r.value >= 0
  {
    if !HasData(v.group) then None
    else if !HasOutagesPlanned(v) then Some(0)
    else match NextPlanned(v)
      case Some(e) => Some(TruncatedMinutes(e.end - e.start))
      case None => None
  }

  const EmergencyShutdowns: string := "EmergencyShutdowns"

  /** Today's status from the first record dated today (skipping the
      `updatedOn` stamp, non-records and undated or unparsable records); with
      no such record, "EmergencyShutdowns" while an outage of any kind is
      under way, else nothing. */
  function CurrentDayStatus(v: View): (r: Option<string>)
    ensures !HasData(v.group) ==> r.None?
    ensures HasData(v.group) && (exists i :: 0 <= i < |v.group.value.entries| && IsDayFor(v.group.value.entries[i], DayOf(v.now))) ==>
              exists i :: 0 <= i < |v.group.value.entries| && IsDayFor(v.group.value.entries[i], DayOf(v.now)) &&
                (forall j :: 0 <= j < i ==> !IsDayFor(v.group.value.entries[j], DayOf(v.now))) &&
                r == v.group.value.entries[i].value.status
    ensures HasData(v.group) && (forall i :: 0 <= i < |v.group.value.entries| ==> !IsDayFor(v.group.value.entries[i], DayOf(v.now))) ==>
              (r.Some? <==> CurrentState(v) != Normal) && (r.Some? ==> r.value == EmergencyShutdowns)
  {
    if !HasData(v.group) then None
    else match FirstDayIndex(v.group.value.entries, DayOf(v.now))
      case Some(i) => v.group.value.entries[i].value.status
      case None => if CurrentState(v) != Normal then Some(EmergencyShutdowns) else None
  }

  /** The kind reported as the next outage type, or the "NotPlanned" marker. */
  datatype OutageType = OfUid(uid: Uid) | NotPlanned

  /** Unknown without data; otherwise the next planned outage's kind, which is
      always the planned kind, or "NotPlanned". */
  function NextOutageType(v: View): (r: Option<OutageType>)
    ensures !HasData(v.group) ==> r.None?
    ensures HasData(v.group) && PlannedAhead(v) ==> r == Some(OfUid(Definite))
    ensures HasData(v.group) && !PlannedAhead(v) ==> r == Some(NotPlanned)
  {
    if !HasData(v.group) then None
    else match NextPlanned(v)
      case Some(e) => Some(OfUid(e.uid))
      case None => Some(NotPlanned)
  }

  /** The tail both countdowns share: nothing without a target instant or
      once it is no longer ahead of now; otherwise a countdown that reads back
      as the days, hours and minutes from now to the target. */
  function CountdownTo(target: Option<int>, now: int, tr: Translations): (r: Option<string>)
    ensures r.Some? <==> target.Some? && target.value > now
    ensures r.Some? ==> CountsDown(r.value, target.value - now)
  {
    match target
    case None => None
    case Some(t) =>
      var delta := t - now;
      if !IsTimeDeltaPositive(delta) then None
      else
        FormatReadsBack(delta, tr);
        Some(FormatTimeDelta(delta, tr))
  }

  /** Countdown to power coming back: to the end of the current planned
      outage while in one, else to the end of the next planned outage. Nothing
      without a planned outage ahead, even while one is under way. */
  function TimeUntilConnectivity(v: View): (r: Option<string>)
    ensures !HasOutagesPlanned(v) ==> r.None?
    ensures HasOutagesPlanned(v) && CurrentState(v) == PlannedOutage ==>
              (r.Some? <==> v.current.value.end > v.now) &&
              (r.Some? ==> CountsDown(r.value, v.current.value.end - v.now))
    ensures HasOutagesPlanned(v) && CurrentState(v) != PlannedOutage ==>
              (r.Some? <==> NextPlanned(v).value.end > v.now) &&
              (r.Some? ==> CountsDown(r.value, NextPlanned(v).value.end - v.now))
  {
    if !HasOutagesPlanned(v) then None
    else if CurrentState(v) == PlannedOutage then
      CountdownTo(Some(v.current.value.end), v.now, v.tr)
    else
      CountdownTo(Some(NextPlanned(v).value.end), v.now, v.tr)
  }

  /** Countdown to the next planned outage: present exactly when one is ahead
      and none is under way, since its start lies strictly after now. */
  function TimeUntilOutage(v: View): (r: Option<string>)
    ensures r.Some? <==> HasOutagesPlanned(v) && CurrentState(v) != PlannedOutage
    ensures r.Some? ==> CountsDown(r.value, NextPlanned(v).value.start - v.now)
  {
    if !HasOutagesPlanned(v) || CurrentState(v) == PlannedOutage then None
    else
      var e := NextPlanned(v).value;
      assert IsCandidate(e, PlannedOutage, v.now);
      var r := CountdownTo(Some(e.start), v.now, v.tr);
      assert r.Some? && CountsDown(r.value, e.start - v.now);
      r
  }

  /** With consistent inputs the connectivity countdown is shown exactly when
      a planned outage lies ahead: the positivity guard never fires. */
  lemma ConnectivityCountdownWhenPlanned(v: View)
    requires Consistent(v)
    ensures TimeUntilConnectivity(v).Some? <==> HasOutagesPlanned(v)
  {
    if HasOutagesPlanned(v) && CurrentState(v) != PlannedOutage {
      var e := NextPlanned(v).value;
      var i :| 0 <= i < |v.upcoming| && v.upcoming[i] == e;
      assert WellFormed(v.upcoming[i]);
    }
  }

  /** "HH:MM" of the next planned outage's start. */
  function NextPlannedOutageStartTime(v: View): (r: Option<string>)
    ensures r.Some? <==> HasOutagesPlanned(v)
    ensures r.Some? ==> ShowsTimeOf(r.value, NextPlanned(v).value.start)
  {
    if !HasOutagesPlanned(v) then None
    else match NextPlanned(v)
      case Some(e) => FormatEventTime(Some(DateTime(e.start)), "00:00")
      case None => None
  }

  /** "HH:MM" of the end of the current planned outage while in one, else of
      the next planned outage's end. */
  function NextPlannedOutageEndTime(v: View): (r: Option<string>)
    ensures r.Some? <==> HasOutagesPlanned(v)
    ensures r.Some? && CurrentState(v) == PlannedOutage ==> ShowsTimeOf(r.value, v.current.value.end)
    ensures r.Some? && CurrentState(v) != PlannedOutage ==> ShowsTimeOf(r.value, NextPlanned(v).value.end)
  {
    if !HasOutagesPlanned(v) then None
    else
      var chosen := if CurrentState(v) == PlannedOutage then v.current else NextPlanned(v);
      match chosen
      case Some(e) => FormatEventTime(Some(DateTime(e.end)), "23:59")
      case None => None
  }

  /** When power returns: the end of the current planned outage while in one,
      else the end of the next planned outage. It does not consult the group
      data. */
  function NextConnectivity(v: View): (r: Option<int>)
    ensures CurrentState(v) == PlannedOutage ==> r == Some(v.current.value.end)
    ensures CurrentState(v) != PlannedOutage ==> (r.Some? <==> PlannedAhead(v))
    ensures CurrentState(v) != PlannedOutage && r.Some? ==> r == Some(NextPlanned(v).value.end)
  {
    if CurrentState(v) == PlannedOutage then
      match v.current case Some(e) => Some(e.end) case None => None
    else
      match NextPlanned(v) case Some(e) => Some(e.end) case None => None
  }

  /** End of the next planned outage, when group data shows one ahead; with
      consistent inputs it lies after now. */
  function NextPlannedReconnection(v: View): (r: Option<int>)
    ensures r.Some? <==> HasOutagesPlanned(v)
    ensures r.Some? ==> r == Some(NextPlanned(v).value.end)
    ensures r.Some? && Consistent(v) ==> r.value > v.now
  {
    if !HasOutagesPlanned(v) then None
    else match NextPlanned(v)
      case Some(e) =>
        ghost var i :| 0 <= i < |v.upcoming| && v.upcoming[i] == e;
        assert Consistent(v) ==> WellFormed(v.upcoming[i]);
        Some(e.end)
      case None => None
  }

  /** With power on, the two "power returns" facts agree whenever group data
      is present; the reconnection fact alone goes blank without data. */
  lemma ReconnectionMatchesConnectivity(v: View)
    requires CurrentState(v) != PlannedOutage
    ensures HasData(v.group) ==> NextPlannedReconnection(v) == NextConnectivity(v)
    ensures !HasData(v.group) ==> NextPlannedReconnection(v).None?
  {
  }

  /** During a planned outage with no further planned outage ahead, the
      countdown and end-time facts go blank through their early return, while
      the connectivity fact still reports the current outage's end. */
  lemma BlankDuringLastPlannedOutage(v: View)
    requires CurrentState(v) == PlannedOutage && !PlannedAhead(v)
    ensures TimeUntilConnectivity(v).None? && NextPlannedOutageEndTime(v).None?
    ensures NextConnectivity(v) == Some(v.current.value.end)
  {
  }

  /** An outage shorter than a minute reports a zero duration, the same value
      that means "nothing planned". */
  lemma ShortOutageReadsAsZero(v: View)
    requires HasData(v.group) && PlannedAhead(v)
    requires 0 <= NextPlanned(v).value.end - NextPlanned(v).value.start < 60
    ensures NextPlannedOutageDuration(v) == Some(0)
  {
    var e := NextPlanned(v).value;
    assert TruncatedMinutes(e.end - e.start) == 0;
  }
}
