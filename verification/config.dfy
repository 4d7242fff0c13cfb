/** Construction-time configuration: options override the initial data, the
    update interval falls back to a default, and region, provider and group
    are required. Also the display name of the provider, looked up once and
    then kept. */
module Config {
  import opened Wrappers

  datatype Key = RegionKey | ProviderKey | GroupKey | UpdateIntervalKey

  /** A configuration value as stored: absent-as-None, text, or a number. */
  datatype Value = Null | Text(text: string) | Number(n: int)

  /** Python truthiness of a configuration value. */
  predicate Truthy(v: Value) {
    match v
    case Null => false
    case Text(t) => |t| > 0
    case Number(n) => n != 0
  }

  /** The two dictionaries of a configuration entry. */
  datatype ConfigEntry = ConfigEntry(data: map<Key, Value>, options: map<Key, Value>)

  /** `options.get(key, data.get(key, fallback))`: a key present in the options
      wins even when its value is falsy. */
  function Setting(entry: ConfigEntry, key: Key, fallback: Value): (v: Value)
    ensures key in entry.options ==> v == entry.options[key]
    ensures key !in entry.options && key in entry.data ==> v == entry.data[key]
    ensures key !in entry.options && key !in entry.data ==> v == fallback
  {
    if key in entry.options then entry.options[key]
    else if key in entry.data then entry.data[key]
    else fallback
  }

  datatype ConfigError =
    | IntervalNotANumber  // building the interval from a non-number raises first
    | IntervalOutOfRange  // a number of minutes beyond a duration's day range
    | RegionRequired
    | ProviderRequired
    | GroupRequired

  /** A duration holds between -999999999 and 999999999 whole days (plus a
      fraction of the last one); a number of minutes outside that span cannot
      become the update interval. */
  const MinIntervalMinutes: int := -999999999 * 1440
  const MaxIntervalMinutes: int := 1000000000 * 1440

  predicate IntervalInRange(minutes: int) {
    MinIntervalMinutes <= minutes < MaxIntervalMinutes
  }

  datatype Settings = Settings(region: Value, provider: Value, group: Value, intervalMinutes: int)

  /** The interval is read and turned into a duration before the required
      values are checked: a non-number fails first, then a number out of the
      duration's range, then region, provider and group in that order. */
  function Resolve(entry: ConfigEntry, defaultMinutes: int): (r: Result<Settings, ConfigError>)
    ensures r.Success? <==>
              && Setting(entry, UpdateIntervalKey, Number(defaultMinutes)).Number?
              && IntervalInRange(Setting(entry, UpdateIntervalKey, Number(defaultMinutes)).n)
              && Truthy(Setting(entry, RegionKey, Null))
              && Truthy(Setting(entry, ProviderKey, Null))
              && Truthy(Setting(entry, GroupKey, Null))
    ensures r.Success? ==>
              && r.value.region == Setting(entry, RegionKey, Null)
              && r.value.provider == Setting(entry, ProviderKey, Null)
              && r.value.group == Setting(entry, GroupKey, Null)
              && Number(r.value.intervalMinutes) == Setting(entry, UpdateIntervalKey, Number(defaultMinutes))
    ensures r == Failure(IntervalNotANumber) <==> !Setting(entry, UpdateIntervalKey, Number(defaultMinutes)).Number?
    ensures r == Failure(IntervalOutOfRange) <==>
              && Setting(entry, UpdateIntervalKey, Number(defaultMinutes)).Number?
              && !IntervalInRange(Setting(entry, UpdateIntervalKey, Number(defaultMinutes)).n)
    ensures r == Failure(RegionRequired) ==>
              && IntervalInRange(Setting(entry, UpdateIntervalKey, Number(defaultMinutes)).n)
              && !Truthy(Setting(entry, RegionKey, Null))
    ensures r == Failure(ProviderRequired) ==>
              Truthy(Setting(entry, RegionKey, Null)) && !Truthy(Setting(entry, ProviderKey, Null))
    ensures r == Failure(GroupRequired) ==>
              && Truthy(Setting(entry, RegionKey, Null)) && Truthy(Setting(entry, ProviderKey, Null))
              && !Truthy(Setting(entry, GroupKey, Null))
  {
    var interval := Setting(entry, UpdateIntervalKey, Number(defaultMinutes));
    var region := Setting(entry, RegionKey, Null);
    var provider := Setting(entry, ProviderKey, Null);
    var group := Setting(entry, GroupKey, Null);
    if !interval.Number? then Failure(IntervalNotANumber)
    else if !IntervalInRange(interval.n) then Failure(IntervalOutOfRange)
    else if !Truthy(region) then Failure(RegionRequired)
    else if !Truthy(provider) then Failure(ProviderRequired)
    else if !Truthy(group) then Failure(GroupRequired)
    else Success(Settings(region, provider, group, interval.n))
  }

  /** `region or ""`: the configured region, or the empty text when it is
      falsy. */
  function RegionName(s: Settings): (name: Value)
    ensures Truthy(s.region) ==> name == s.region
    ensures !Truthy(s.region) ==> name == Text("")
  {
    if Truthy(s.region) then s.region else Text("")
  }

  /** Once construction has succeeded the region is truthy, so the region
      name is exactly the configured region. */
  lemma RegionNameIsConfigured(entry: ConfigEntry, defaultMinutes: int)
    requires Resolve(entry, defaultMinutes).Success?
    ensures RegionName(Resolve(entry, defaultMinutes).value) == Setting(entry, RegionKey, Null)
  {
  }

  /** The update interval in seconds, the unit of the group cache's window. */
  function IntervalSeconds(s: Settings): int {
    s.intervalMinutes * 60
  }

  /** An options value overrides data even when the data value alone would
      have been accepted. */
  lemma OptionsOverrideData(entry: ConfigEntry, defaultMinutes: int)
    requires RegionKey in entry.data && Truthy(entry.data[RegionKey])
    ensures var r := Resolve(entry.(options := entry.options[RegionKey := Text("")]), defaultMinutes);
            r == Failure(RegionRequired) || r == Failure(IntervalNotANumber) || r == Failure(IntervalOutOfRange)
  {
  }

  /** `x in y`: `needle` occurs in `haystack` as a contiguous run; the empty
      string occurs everywhere. */
  function Contains(haystack: string, needle: string): bool
    decreases |haystack|
  {
    if |needle| > |haystack| then false
    else if haystack[..|needle|] == needle then true
    else if |haystack| == 0 then false
    else Contains(haystack[1..], needle)
  }

  /** `needle` occurs in `haystack` starting at position `i`. */
  predicate OccursAt(haystack: string, needle: string, i: int) {
    0 <= i <= |haystack| - |needle| && haystack[i..i + |needle|] == needle
  }

  /** The search agrees with the positional definition of an occurrence. */
  lemma {:induction false} ContainsIsOccurrence(haystack: string, needle: string)
    ensures Contains(haystack, needle) <==> exists i :: OccursAt(haystack, needle, i)
    decreases |haystack|
  {
    if |needle| > |haystack| {
    } else if haystack[..|needle|] == needle {
      assert OccursAt(haystack, needle, 0);
    } else if |haystack| == 0 {
    } else {
      ContainsIsOccurrence(haystack[1..], needle);
      var tail := haystack[1..];
      if exists i :: OccursAt(haystack, needle, i) {
        var i :| OccursAt(haystack, needle, i);
        assert i != 0;
        assert tail[i - 1..i - 1 + |needle|] == needle;
        assert OccursAt(tail, needle, i - 1);
      }
      if Contains(tail, needle) {
        var i :| OccursAt(tail, needle, i);
        assert haystack[i + 1..i + 1 + |needle|] == needle;
        assert OccursAt(haystack, needle, i + 1);
      }
    }
  }

  /** The provider abbreviation rule: an upper-casing function (Unicode
      `str.upper`, not modelled) and the long and short provider names. */
  datatype Abbreviation = Abbreviation(upper: string -> string, full: string, short: string)

  /** Long names of the abbreviated provider collapse to the short name;
      every other name is kept as it is. */
  function SimplifyProviderName(name: string, abbr: Abbreviation): (r: string)
    ensures (exists i :: OccursAt(abbr.upper(name), abbr.full, i)) ==> r == abbr.short
    ensures !(exists i :: OccursAt(abbr.upper(name), abbr.full, i)) ==> r == name
  {
    ContainsIsOccurrence(abbr.upper(name), abbr.full);
    if Contains(abbr.upper(name), abbr.full) then abbr.short else name
  }

  /** One provider entry of a region record; `name` is absent when the record
      has no "name" key. */
  datatype ProviderRecord = ProviderRecord(name: Option<string>)

  /** A region record; `dsos` is absent when the record has no "dsos" key. */
  datatype RegionRecord = RegionRecord(dsos: Option<seq<ProviderRecord>>)

  function NameOf(p: ProviderRecord): string {
    match p.name case Some(n) => n case None => ""
  }

  function Providers(region: RegionRecord): seq<ProviderRecord> {
    match region.dsos case Some(ps) => ps case None => []
  }

  /** The position of the first provider whose name equals the configured one. */
  function FirstProviderNamed(ps: seq<ProviderRecord>, provider: Value): (r: Option<nat>)
    ensures r.Some? ==> r.value < |ps| && Text(NameOf(ps[r.value])) == provider
    ensures r.Some? ==> forall j :: 0 <= j < r.value ==> Text(NameOf(ps[j])) != provider
    ensures r.None? <==> forall j :: 0 <= j < |ps| ==> Text(NameOf(ps[j])) != provider
    decreases |ps|
  {
    if |ps| == 0 then None
    else if Text(NameOf(ps[0])) == provider then Some(0)
    else match FirstProviderNamed(ps[1..], provider)
      case None => None
      case Some(i) => Some(i + 1)
  }

  /** The displayed name and the cached raw name after the read. */
  datatype NameRead = NameRead(display: string, cached: string)

  /** A cached name is shown (simplified) without any lookup. Otherwise the
      region's providers are searched for the configured name; a hit is cached
      raw and shown simplified, anything else shows "" and caches nothing.
      `regionsLoaded` and `region` are the store's region data and its lookup
      of the configured region. */
  function ProviderName(cached: string, regionsLoaded: bool, region: Option<RegionRecord>,
                        provider: Value, abbr: Abbreviation): (r: NameRead)
    ensures |cached| > 0 ==> r == NameRead(SimplifyProviderName(cached, abbr), cached)
    ensures |cached| == 0 && (!regionsLoaded || region.None?) ==> r == NameRead("", cached)
    ensures |cached| == 0 && regionsLoaded && region.Some? ==>
              match FirstProviderNamed(Providers(region.value), provider)
              case None => r == NameRead("", cached)
              case Some(i) =>
                Text(r.cached) == provider &&
                r.cached == NameOf(Providers(region.value)[i]) &&
                r.display == SimplifyProviderName(r.cached, abbr)
  {
    if |cached| > 0 then NameRead(SimplifyProviderName(cached, abbr), cached)
    else if !regionsLoaded then NameRead("", cached)
    else match region
      case None => NameRead("", cached)
      case Some(rd) =>
        match FirstProviderNamed(Providers(rd), provider)
        case None => NameRead("", cached)
        case Some(i) =>
          var name := NameOf(Providers(rd)[i]);
          NameRead(SimplifyProviderName(name, abbr), name)
  }

  /** Once a lookup has found the configured provider, later reads show the
      same name without consulting the region data again. */
  lemma CachedNameIsStable(cached: string, regionsLoaded: bool, region: Option<RegionRecord>,
                           provider: Value, abbr: Abbreviation,
                           regionsLoaded': bool, region': Option<RegionRecord>)
    requires Truthy(provider)
    requires ProviderName(cached, regionsLoaded, region, provider, abbr).display != ""
    ensures var first := ProviderName(cached, regionsLoaded, region, provider, abbr);
            ProviderName(first.cached, regionsLoaded', region', provider, abbr) == first
  {
  }
}
