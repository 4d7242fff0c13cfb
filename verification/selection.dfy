/** Choosing the next event of a given state: the events overlapping the next
    24 hours are sorted stably by start time, and the first one of the wanted
    state that starts strictly after now is taken. */
module Selection {
  import opened Wrappers
  import opened Events
  import opened Time

  /** The forward search horizon, 24 hours in seconds. */
  const TimeframeToCheck: int := SecondsPerDay

  /** An event the search may return: of the wanted state, starting strictly
      after now (an event already under way is current, not next). */
  predicate IsCandidate(e: Event, state: ConnectivityState, now: int) {
    EventToState(Some(e)) == state && e.start > now
  }

  predicate SortedByStart(s: seq<Event>) {
    forall i, j :: 0 <= i < j < |s| ==> s[i].start <= s[j].start
  }

  /** Every event overlaps the window `[now, now + 24h)`, as the store's range
      query guarantees. */
  predicate WithinHorizon(events: seq<Event>, now: int) {
    forall i :: 0 <= i < |events| ==> events[i].start < now + TimeframeToCheck && events[i].end > now
  }

  /** Places `e` in front of the first element that does not start earlier, so
      that `e` precedes every element with the same start. */
  function Insert(e: Event, s: seq<Event>): (r: seq<Event>)
    ensures multiset(r) == multiset(s) + multiset{e}
  {
    if |s| == 0 then [e]
    else if e.start <= s[0].start then [e] + s
    else
      assert s == [s[0]] + s[1..];
      [s[0]] + Insert(e, s[1..])
  }

  /** A lower bound on every start survives insertion of an event above it. */
  lemma {:induction false} InsertKeepsLowerBound(e: Event, s: seq<Event>, b: int)
    requires b <= e.start
    requires forall i :: 0 <= i < |s| ==> b <= s[i].start
    ensures forall i :: 0 <= i < |Insert(e, s)| ==> b <= Insert(e, s)[i].start
    decreases |s|
  {
    if |s| > 0 && e.start > s[0].start {
      InsertKeepsLowerBound(e, s[1..], b);
    }
  }

  lemma {:induction false} InsertKeepsSorted(e: Event, s: seq<Event>)
    requires SortedByStart(s)
    ensures SortedByStart(Insert(e, s))
    decreases |s|
  {
    if |s| > 0 && e.start > s[0].start {
      InsertKeepsSorted(e, s[1..]);
      InsertKeepsLowerBound(e, s[1..], s[0].start);
    }
  }

  /** Insertion sort by start time. Earlier input elements are inserted in
      front of equal-start later ones, so the order is stable, as Python's
      `sorted` is. */
  function SortByStart(events: seq<Event>): (r: seq<Event>)
    ensures multiset(r) == multiset(events)
    ensures SortedByStart(r)
  {
    if |events| == 0 then []
    else
      assert events == [events[0]] + events[1..];
      InsertKeepsSorted(events[0], SortByStart(events[1..]));
      Insert(events[0], SortByStart(events[1..]))
  }

  /** The first candidate in sequence order. */
  function FirstCandidate(s: seq<Event>, state: ConnectivityState, now: int): Option<Event> {
    if |s| == 0 then None
    else if IsCandidate(s[0], state, now) then Some(s[0])
    else FirstCandidate(s[1..], state, now)
  }

  /** Reference definition of the selection, independent of sorting: the index
      of the candidate with the smallest start, the earliest such index on a
      tie. */
  function EarliestCandidateIndex(events: seq<Event>, state: ConnectivityState, now: int): (r: Option<nat>)
    ensures r.Some? ==> r.value < |events| && IsCandidate(events[r.value], state, now)
    ensures r.Some? ==> forall j :: 0 <= j < |events| && IsCandidate(events[j], state, now) ==>
                          events[r.value].start <= events[j].start
    ensures r.Some? ==> forall j :: 0 <= j < r.value && IsCandidate(events[j], state, now) ==>
                          events[j].start > events[r.value].start
    ensures r.None? <==> forall j :: 0 <= j < |events| ==> !IsCandidate(events[j], state, now)
    decreases |events|
  {
    if |events| == 0 then None
    else
      var rest := EarliestCandidateIndex(events[1..], state, now);
      if IsCandidate(events[0], state, now) && (rest.None? || events[0].start <= events[1 + rest.value].start)
      then Some(0)
      else if rest.None? then None
      else Some(1 + rest.value)
  }

  /** The selection as the coordinator performs it: sort, then take the first
      candidate. */
  function NextEventOfType(events: seq<Event>, state: ConnectivityState, now: int): (r: Option<Event>)
    ensures r.Some? ==> IsCandidate(r.value, state, now) && r.value in events
    ensures r.None? <==> forall j :: 0 <= j < |events| ==> !IsCandidate(events[j], state, now)
    ensures r.Some? ==> exists i :: 0 <= i < |events| && events[i] == r.value &&
                          (forall j :: 0 <= j < i && IsCandidate(events[j], state, now) ==> events[j].start > r.value.start)
    ensures r.Some? ==> forall j :: 0 <= j < |events| && IsCandidate(events[j], state, now) ==>
                          r.value.start <= events[j].start
    ensures r.Some? && WithinHorizon(events, now) ==> now < r.value.start < now + TimeframeToCheck
  {
    SortedSelectionIsEarliest(events, state, now);
    FirstCandidate(SortByStart(events), state, now)
  }

  /** Inserting one event into a sorted sequence changes the first candidate
      only if the inserted event is a candidate that starts no later. */
  lemma {:induction false} FirstCandidateOfInsert(x: Event, s: seq<Event>, state: ConnectivityState, now: int)
    requires SortedByStart(s)
    ensures FirstCandidate(Insert(x, s), state, now) ==
            (var f := FirstCandidate(s, state, now);
             if IsCandidate(x, state, now) && (f.None? || x.start <= f.value.start) then Some(x) else f)
    decreases |s|
  {
    if |s| == 0 {
    } else if x.start <= s[0].start {
      var r := [x] + s;
      assert r[1..] == s;
      FirstCandidateStartsNoEarlier(s, state, now);
    } else {
      var tail := Insert(x, s[1..]);
      assert ([s[0]] + tail)[1..] == tail;
      FirstCandidateOfInsert(x, s[1..], state, now);
    }
  }

  /** In a sorted sequence the first candidate starts no later than the head. */
  lemma FirstCandidateStartsNoEarlier(s: seq<Event>, state: ConnectivityState, now: int)
    requires SortedByStart(s)
    ensures FirstCandidate(s, state, now).Some? ==>
              |s| > 0 && FirstCandidate(s, state, now).value.start >= s[0].start
    decreases |s|
  {
    if |s| > 1 && !IsCandidate(s[0], state, now) {
      FirstCandidateStartsNoEarlier(s[1..], state, now);
    }
  }

  /** Sorting stably and taking the first candidate selects exactly the event
      the reference definition picks. */
  lemma {:induction false} SortedSelectionIsEarliest(events: seq<Event>, state: ConnectivityState, now: int)
    ensures FirstCandidate(SortByStart(events), state, now) ==
            (match EarliestCandidateIndex(events, state, now)
             case None => None
             case Some(i) => Some(events[i]))
    decreases |events|
  {
    if |events| > 0 {
      SortedSelectionIsEarliest(events[1..], state, now);
      FirstCandidateOfInsert(events[0], SortByStart(events[1..]), state, now);
    }
  }

  /** An event that began at or before now (one spanning now, say) is never
      the next event, whatever else the window holds. */
  lemma SpanningEventIsNeverNext(events: seq<Event>, e: Event, state: ConnectivityState, now: int)
    requires e.start <= now
    ensures NextEventOfType(events, state, now) != Some(e)
  {
  }
}
