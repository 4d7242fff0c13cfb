/** Calendar events as the coordinator sees them, and the three-valued
    connectivity state derived from an optional event. */
module Events {
  import opened Wrappers

  /** The kind tag an event carries in its `uid` field. The two recognised
      values are the planned-outage type and the emergency type; anything else
      the store might produce is kept as an unrecognised tag. A uid equal to
      the text of a recognised type is always read as that constructor, so
      `tag` never holds either recognised value. */
  datatype Uid = Definite | Emergency | Unrecognised(tag: string)

  /** An outage interval `[start, end)`, in integer seconds of local wall-clock
      time, tagged with its kind. */
  datatype Event = Event(start: int, end: int, uid: Uid)

  datatype ConnectivityState = Normal | PlannedOutage | EmergencyOutage

  /** The store only produces intervals whose end lies after their start. */
  predicate WellFormed(e: Event) {
    e.start < e.end
  }

  /** The classifier: no event means power is on, the two recognised kinds map
      to their outage states, and an unrecognised kind falls back to normal
      instead of failing. */
  function EventToState(e: Option<Event>): (s: ConnectivityState)
    ensures s == PlannedOutage <==> e.Some? && e.value.uid == Definite
    ensures s == EmergencyOutage <==> e.Some? && e.value.uid == Emergency
    ensures s == Normal <==> e.None? || e.value.uid.Unrecognised?
  {
    match e
    case None => Normal
    case Some(ev) =>
      if ev.uid == Definite then PlannedOutage
      else if ev.uid == Emergency then EmergencyOutage
      else Normal
  }

  /** The kind an outage state comes from; `None` for the normal state, which
      is not tied to any one kind. */
  function UidOfState(s: ConnectivityState): Option<Uid> {
    match s
    case Normal => None
    case PlannedOutage => Some(Definite)
    case EmergencyOutage => Some(Emergency)
  }

  /** Every outage state reported for an event names that event's own kind:
      the classifier loses no information about recognised kinds. */
  lemma OutageStateRecoversKind(e: Event)
    ensures EventToState(Some(e)) != Normal ==> UidOfState(EventToState(Some(e))) == Some(e.uid)
    ensures EventToState(Some(e)) == Normal ==> e.uid.Unrecognised?
  {
  }
}
