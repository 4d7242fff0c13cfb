/** The short-lived memo in front of the store's group-data read. It holds the
    last value read and when it was read; a value is reused while younger than
    `min(60 s, update interval / 2)`, and a successful refresh clears it. */
module GroupCache {
  import opened Wrappers
  import opened Schedule
  import Config

  const MaxCacheSeconds: int := 60

  datatype Cache = Cache(data: Option<GroupData>, cachedAt: Option<int>)

  /** The reuse window in seconds. The halving is real division. */
  function Ttl(intervalSeconds: int): real {
    var half := intervalSeconds as real / 2.0;
    if half < MaxCacheSeconds as real then half else MaxCacheSeconds as real
  }

  /** Integer form of `elapsed < Ttl(intervalSeconds)`. */
  predicate Fresh(elapsed: int, intervalSeconds: int) {
    elapsed < MaxCacheSeconds && 2 * elapsed < intervalSeconds
  }

  lemma FreshMatchesTtl(elapsed: int, intervalSeconds: int)
    ensures Fresh(elapsed, intervalSeconds) <==> (elapsed as real) < Ttl(intervalSeconds)
  {
  }

  lemma FreshMatchesTtlAll(intervalSeconds: int)
    ensures forall elapsed: int :: Fresh(elapsed, intervalSeconds) <==> (elapsed as real) < Ttl(intervalSeconds)
  {
    forall elapsed: int
      ensures Fresh(elapsed, intervalSeconds) <==> (elapsed as real) < Ttl(intervalSeconds)
    {
      FreshMatchesTtl(elapsed, intervalSeconds);
    }
  }

  /** For a resolved configuration the window is half the update interval,
      capped at a minute: 60 s from two minutes on, 30 s for one minute, and
      empty (so every read goes to the store) for a non-positive interval. */
  lemma ResolvedWindow(entry: Config.ConfigEntry, defaultMinutes: int)
    requires Config.Resolve(entry, defaultMinutes).Success?
    ensures var m := Config.Resolve(entry, defaultMinutes).value.intervalMinutes;
            && (m >= 2 ==> Ttl(Config.IntervalSeconds(Config.Resolve(entry, defaultMinutes).value)) == 60.0)
            && (m == 1 ==> Ttl(Config.IntervalSeconds(Config.Resolve(entry, defaultMinutes).value)) == 30.0)
            && (m <= 0 ==> Ttl(Config.IntervalSeconds(Config.Resolve(entry, defaultMinutes).value)) <= 0.0)
  {
  }

  /** What one read returns, the cache it leaves, and whether the store was
      consulted. */
  datatype Read = Read(value: Option<GroupData>, cache: Cache, fetched: bool)

  /** One read through the cache at `now`; `store` is what the store would
      return if asked. A `None` value is never reused: the cache tests for
      presence, not for emptiness. */
  function GetGroupData(c: Cache, now: int, intervalSeconds: int, store: Option<GroupData>): (r: Read)
    ensures !r.fetched <==>
              c.data.Some? && c.cachedAt.Some? && ((now - c.cachedAt.value) as real) < Ttl(intervalSeconds)
    ensures !r.fetched ==> r.value == c.data && r.cache == c
    ensures r.fetched ==> r.value == store && r.cache == Cache(store, Some(now))
  {
    FreshMatchesTtlAll(intervalSeconds);
    if c.data.Some? && c.cachedAt.Some? && Fresh(now - c.cachedAt.value, intervalSeconds) then
      Read(c.data, c, false)
    else
      Read(store, Cache(store, Some(now)), true)
  }

  /** Clearing both fields, as an explicit invalidation and every successful
      refresh do: the next read goes to the store whatever the time. */
  function Invalidate(c: Cache): (r: Cache)
    ensures forall now, intervalSeconds, store ::
              GetGroupData(r, now, intervalSeconds, store).fetched &&
              GetGroupData(r, now, intervalSeconds, store).value == store
  {
    Cache(None, None)
  }

  /** After a refresh the first read returns the store's new value, never the
      value cached before it. */
  lemma RefreshForcesRefetch(c: Cache, now: int, intervalSeconds: int, store: Option<GroupData>)
    ensures GetGroupData(Invalidate(c), now, intervalSeconds, store) ==
            Read(store, Cache(store, Some(now)), true)
  {
  }

  /** A value fetched at `t0` is reused, without asking the store, by any read
      at `t1` that falls inside the window. */
  lemma ReuseWithinTtl(c: Cache, t0: int, t1: int, intervalSeconds: int, s0: Option<GroupData>, s1: Option<GroupData>)
    requires GetGroupData(c, t0, intervalSeconds, s0).fetched
    requires s0.Some?
    requires ((t1 - t0) as real) < Ttl(intervalSeconds)
    ensures GetGroupData(GetGroupData(c, t0, intervalSeconds, s0).cache, t1, intervalSeconds, s1) ==
            Read(s0, Cache(s0, Some(t0)), false)
  {
  }

  /** Once the window has passed, the next read asks the store again. */
  lemma RefetchAfterTtl(c: Cache, t0: int, t1: int, intervalSeconds: int, s0: Option<GroupData>, s1: Option<GroupData>)
    requires GetGroupData(c, t0, intervalSeconds, s0).fetched
    requires ((t1 - t0) as real) >= Ttl(intervalSeconds)
    ensures GetGroupData(GetGroupData(c, t0, intervalSeconds, s0).cache, t1, intervalSeconds, s1) ==
            Read(s1, Cache(s1, Some(t1)), true)
  {
  }

  /** Repeated reads at one instant all see the same
      value, so one fact computed at one instant sees a single group-data
      value however often it reads. */
  lemma RepeatedReadIsStable(c: Cache, now: int, intervalSeconds: int, store: Option<GroupData>)
    ensures GetGroupData(GetGroupData(c, now, intervalSeconds, store).cache, now, intervalSeconds, store).value ==
            GetGroupData(c, now, intervalSeconds, store).value
  {
  }
}
