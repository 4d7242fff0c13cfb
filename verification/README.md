# Svitlo outage coordinator — Dafny model

This project models the derived-facts layer of the Yasno outage coordinator
(`YasnoCoordinator` in `custom_components/svitlo/coordinator/yasno.py`). That
layer receives three things:

- the outage events overlapping the next 24 hours;
- the event under way now;
- the group's day records, read through a short-lived cache.

From them it computes what a household display shows:

- the current connectivity state (normal, planned outage, emergency);
- the next planned outage, its duration, its type and its start and end clock times;
- countdowns such as "1д 1ч 30м" to the next outage and to the return of power;
- today's schedule status.

It also models how the coordinator resolves its configuration and the provider
display name.

Everything is a pure function of one instant `now` and immutable inputs:

| file | module | what it holds |
|---|---|---|
| wrappers.dfy | `Wrappers` | `Option`, `Result` |
| time.dfy | `Time` | seconds per minute, hour and day |
| events.dfy | `Events` | events, kinds (`uid`), the three-valued state and its classifier |
| selection.dfy | `Selection` | stable sort by start, next-event selection and its reference definition |
| decimal.dfy | `Decimal` | decimal rendering of numbers and reading it back |
| countdown.dfy | `Countdown` | the days/hours/minutes countdown, its layout, and a reader that parses it back |
| clock.dfy | `Clock` | "HH:MM" rendering of event boundaries |
| schedule.dfy | `Schedule` | group data (day records, `updatedOn`), day lookup |
| groupcache.dfy | `GroupCache` | the group-data staleness cache as a two-field state machine |
| facts.dfy | `Facts` | every derived fact |
| config.dfy | `Config` | configuration resolution, provider name lookup and simplification |

Conventions:

- Instants are integer seconds of local wall-clock time.
- A calendar day is `seconds / 86400`, using floor division.
- An event's kind is the datatype `Uid`: `Definite` (planned), `Emergency`, or an unrecognised tag.
- The store (`YasnoApi`) is outside the model. Its answers are inputs:
  - the events overlapping `[now, now + 24h)`, in `View.upcoming`;
  - the event at `now`, in `View.current`;
  - the group data, in `View.group`, or the `store` argument of the cache.

## Model

| member | source | states |
|---|---|---|
| Events.EventToState | custom_components/svitlo/coordinator/yasno.py:650-661 | Planned outage exactly for a `Definite` event, emergency exactly for an `Emergency` event; no event or an unrecognised kind gives normal, never an error |
| Events.OutageStateRecoversKind | custom_components/svitlo/coordinator/yasno.py:650-661 | An outage state always names the event's own kind; a normal state for an event means its kind was unrecognised |
| Selection.SortByStart | custom_components/svitlo/coordinator/yasno.py:186-192 | The sorted events are a permutation of the input, ordered by start |
| Selection.EarliestCandidateIndex | custom_components/svitlo/coordinator/yasno.py:180-197 | Reference selection: the index of a candidate with the smallest start, no earlier candidate starting at or before it; none exactly when no event of the state starts after now |
| Selection.NextEventOfType | custom_components/svitlo/coordinator/yasno.py:180-197 | The result has the requested state and starts strictly after now. Its start is the minimum over all candidates, and no earlier input position holds a candidate with the same start. It is None exactly when there is no candidate, and inside the 24-hour horizon when the inputs are |
| Selection.SortedSelectionIsEarliest | custom_components/svitlo/coordinator/yasno.py:185-196 | Stable sort followed by first match selects exactly the reference definition's event |
| Selection.SpanningEventIsNeverNext | custom_components/svitlo/coordinator/yasno.py:195 | An event that began at or before now (one spanning now) is never the next event |
| Decimal.NatToStringRoundTrip | custom_components/svitlo/coordinator/yasno.py:369-378 | Reading back the decimal rendering of a number used in a countdown part gives the number |
| Decimal.Pad2 | custom_components/svitlo/coordinator/yasno.py:400 | Two-digit zero-padded field that reads back as its value |
| Countdown.SplitSeconds | custom_components/svitlo/coordinator/yasno.py:359-364 | The split has hours below 24 and minutes below 60. Its value `d*86400 + h*3600 + m*60` is at most the total and within 60 s of it |
| Countdown.SplitIsUnique | custom_components/svitlo/coordinator/yasno.py:359-364 | Any split meeting those bounds is the formatter's split: the decomposition is unique |
| Countdown.ArrangeShows | custom_components/svitlo/coordinator/yasno.py:366-378 | Units largest first. Each part shows its unit's amount. Days appear iff days > 0, and hours iff days > 0 or hours > 0 (so always with days). Minutes appear iff minutes > 0 or days and hours are both 0. The parts add up to the split's value |
| Countdown.Layout | custom_components/svitlo/coordinator/yasno.py:358-378 | The shown parts are never empty and account for the total to within a minute |
| Countdown.LayoutThresholds | custom_components/svitlo/coordinator/yasno.py:366-378 | Days are shown from one day on and hours from one hour on. Minutes are shown when the minutes of the hour are non-zero or the total is under an hour |
| Countdown.ParseRender | custom_components/svitlo/coordinator/yasno.py:366-380 | The space-joined rendering of any non-empty parts reads back as exactly those parts |
| Countdown.LessThanMinute | custom_components/svitlo/coordinator/yasno.py:323-328 | The translated phrase when the table has one, otherwise the English "less than a minute" |
| Countdown.PositiveDeltaIsAhead | custom_components/svitlo/coordinator/yasno.py:330-332 | `IsTimeDeltaPositive` of `target - now` holds exactly when the target lies strictly after now |
| Countdown.CountsDownDeterminesString | custom_components/svitlo/coordinator/yasno.py:358-380 | Two strings that both count down the same delta are equal, so the countdown property pins the exact text |
| Countdown.FormatTimeDelta | custom_components/svitlo/coordinator/yasno.py:344-380 | A non-positive delta gives the phrase. A positive delta gives a non-empty string, so the empty-parts fallback is never taken |
| Countdown.FormatBySplit | custom_components/svitlo/coordinator/yasno.py:358-378 | A positive delta renders as the arrangement of any split that meets the bounds, since only the formatter's own split does |
| Countdown.FormatReadsBack | custom_components/svitlo/coordinator/yasno.py:358-380 | A positive delta's countdown reads back as the parts shown for the split of that delta into days, hours of the day and minutes of the hour |
| Countdown.FallbackIsNotCountdown | custom_components/svitlo/coordinator/yasno.py:327 | The English phrase does not read as a countdown |
| Countdown.PhraseExactlyWhenNonPositive | custom_components/svitlo/coordinator/yasno.py:355-356 | When the phrase cannot be read as a countdown, the formatter returns it iff delta ≤ 0 |
| Countdown.SubMinuteShowsZeroMinutes | custom_components/svitlo/coordinator/yasno.py:376-380 | A delta in (0, 60) seconds renders as "0м", not as the phrase |
| Countdown.NinetySeconds | custom_components/svitlo/coordinator/yasno.py:358-380 | 90 s renders as "1м" |
| Countdown.DayHourHalf | custom_components/svitlo/coordinator/yasno.py:358-380 | 25 h 30 min renders as "1д 1ч 30м" |
| Countdown.ExactlyOneDay | custom_components/svitlo/coordinator/yasno.py:358-380 | Exactly one day renders as "1д 0ч" |
| Clock.FormatClock | custom_components/svitlo/coordinator/yasno.py:399-400 | Five characters "HH:MM" whose fields read back as the hour (< 24) and minute (< 60) of the time |
| Clock.FormatEventTime | custom_components/svitlo/coordinator/yasno.py:382-403 | None iff there is no boundary. A date gives the default time. A date-time gives the clock reading of its own hour and minute |
| Clock.ClockDeterminesMinuteOfDay | custom_components/svitlo/coordinator/yasno.py:399-400 | Equal clock readings mean the same minute of the day |
| Schedule.FirstDayIndex | custom_components/svitlo/coordinator/yasno.py:247-258 | The first entry dated today, skipping `updatedOn`, non-records and undated or unparsable records. None iff there is no such entry |
| GroupCache.FreshMatchesTtl | custom_components/svitlo/coordinator/yasno.py:307-313 | The integer freshness test equals `elapsed < min(60, interval / 2)` with real division |
| GroupCache.ResolvedWindow | custom_components/svitlo/coordinator/yasno.py:307-313 | For a resolved configuration the cache window is 60 s from a two-minute interval on, 30 s for one minute, and empty for a non-positive interval |
| GroupCache.GetGroupData | custom_components/svitlo/coordinator/yasno.py:296-321 | The store is skipped iff a value and a time are both cached and the value is younger than the window. Then the cached value is returned and the cache is unchanged. Otherwise the store's value is returned and recorded with `now` |
| GroupCache.Invalidate | custom_components/svitlo/coordinator/yasno.py:334-342 | After invalidation every read goes to the store and returns its value |
| GroupCache.RefreshForcesRefetch | custom_components/svitlo/coordinator/yasno.py:164-166 | The first read after a refresh returns the store's new value and records it |
| GroupCache.ReuseWithinTtl | custom_components/svitlo/coordinator/yasno.py:310-315 | A non-None value fetched at t0 is returned unchanged, without the store, by a read inside the window |
| GroupCache.RefetchAfterTtl | custom_components/svitlo/coordinator/yasno.py:317-321 | Once the window has passed, the next read goes to the store |
| GroupCache.RepeatedReadIsStable | custom_components/svitlo/coordinator/yasno.py:296-321 | Two reads at one instant return the same value |
| Facts.CurrentState | custom_components/svitlo/coordinator/yasno.py:565-569 | Planned outage exactly when the current event is `Definite`, emergency exactly when it is `Emergency`, normal without an event or with an unrecognised kind |
| Facts.HasOutagesPlanned | custom_components/svitlo/coordinator/yasno.py:287-294 | True iff group data is present and a planned outage starts after now |
| Facts.NextPlannedOutage | custom_components/svitlo/coordinator/yasno.py:199-207 | Present iff data exists and a planned outage lies ahead. It is then the smallest start of such an outage, strictly after now and inside the horizon |
| Facts.TruncatedMinutes | custom_components/svitlo/coordinator/yasno.py:231-232 | Whole minutes truncated toward zero, for either sign |
| Facts.NextPlannedOutageDuration | custom_components/svitlo/coordinator/yasno.py:209-234 | None iff there is no group data. 0 when data confirms no planned outage. Otherwise the next outage's length in truncated minutes, never negative for consistent inputs |
| Facts.ShortOutageReadsAsZero | custom_components/svitlo/coordinator/yasno.py:230-233 | A planned outage shorter than a minute reports duration 0 |
| Facts.CurrentDayStatus | custom_components/svitlo/coordinator/yasno.py:236-269 | None without data. Otherwise the status of the first record dated today, even when that status is missing. With no such record: "EmergencyShutdowns" iff the current state is not normal, else None |
| Facts.NextOutageType | custom_components/svitlo/coordinator/yasno.py:271-285 | None without data. Otherwise the planned kind when a planned outage lies ahead, else "NotPlanned" |
| Facts.CountdownTo | custom_components/svitlo/coordinator/yasno.py:436-445 | Present iff there is a target instant strictly after now. The string is then the canonical rendering of the days, hours and minutes from now to the target |
| Facts.TimeUntilConnectivity | custom_components/svitlo/coordinator/yasno.py:405-445 | None unless group data is present and a planned outage lies ahead. While in a planned outage it reads back as the time to that outage's end, else as the time to the next outage's end. None when that end is not after now |
| Facts.TimeUntilOutage | custom_components/svitlo/coordinator/yasno.py:447-481 | Present iff group data is present, a planned outage lies ahead and none is under way. It then reads back as the days, hours and minutes to that outage's start |
| Facts.ConnectivityCountdownWhenPlanned | custom_components/svitlo/coordinator/yasno.py:436-445 | For consistent inputs the connectivity countdown is present iff group data is present and a planned outage lies ahead |
| Facts.BlankDuringLastPlannedOutage | custom_components/svitlo/coordinator/yasno.py:416-417 | In a planned outage with none ahead, the countdown and end time are blank but the next-connectivity time is the current end |
| Facts.NextPlannedOutageStartTime | custom_components/svitlo/coordinator/yasno.py:483-492 | Present iff group data is present and a planned outage lies ahead, and shows that outage's start as "HH:MM" |
| Facts.NextPlannedOutageEndTime | custom_components/svitlo/coordinator/yasno.py:494-523 | Present iff group data is present and a planned outage lies ahead. Shows the end of the current planned outage while in one, else the end of the next |
| Facts.NextConnectivity | custom_components/svitlo/coordinator/yasno.py:525-544 | While in a planned outage: its end. Otherwise: the next planned outage's end when one lies ahead, None when none does. It does not depend on group data |
| Facts.NextPlannedReconnection | custom_components/svitlo/coordinator/yasno.py:546-563 | Present iff group data is present and a planned outage lies ahead. It is that outage's end, after now for consistent inputs |
| Facts.ReconnectionMatchesConnectivity | custom_components/svitlo/coordinator/yasno.py:525-563 | With power on, reconnection equals next connectivity when data is present, and is None without data |
| Config.Setting | custom_components/svitlo/coordinator/yasno.py:63-74 | A key in the options wins, even with a falsy value. Otherwise the data value, otherwise the fallback |
| Config.Resolve | custom_components/svitlo/coordinator/yasno.py:44-101 | Succeeds iff the interval is a number within a duration's ±999999999-day range and region, provider and group are truthy, and returns those resolved values. Each error names the first failing check in the order interval type, interval range, region, provider, group |
| Config.RegionName | custom_components/svitlo/coordinator/yasno.py:576-579 | The configured region when truthy, else the empty text |
| Config.RegionNameIsConfigured | custom_components/svitlo/coordinator/yasno.py:576-579 | After successful construction the region name is the configured region |
| Config.OptionsOverrideData | custom_components/svitlo/coordinator/yasno.py:63-83 | An empty region in the options fails construction even when the data holds a valid region |
| Config.ContainsIsOccurrence | custom_components/svitlo/coordinator/yasno.py:666 | The substring search is true iff the needle occurs at some position |
| Config.SimplifyProviderName | custom_components/svitlo/coordinator/yasno.py:663-670 | The short name iff the upper-cased name contains the long name; otherwise the name unchanged |
| Config.FirstProviderNamed | custom_components/svitlo/coordinator/yasno.py:596-601 | The first provider whose name (or "" when missing) equals the configured provider; None iff there is none |
| Config.ProviderName | custom_components/svitlo/coordinator/yasno.py:581-603 | A cached name is shown simplified with no lookup. Otherwise the first matching provider is cached raw and shown simplified. Without region data, region or match the result is "" and the cache is unchanged |
| Config.CachedNameIsStable | custom_components/svitlo/coordinator/yasno.py:584-586 | After a successful lookup, later reads return the same name whatever the region data |

## Left out

- The store `YasnoApi` is outside the model. This covers `get_events`, `get_current_event`, `_get_group_data`, `get_updated_on`, `fetch_data`, the region/provider lookups and its own tie-breaking. Their results are inputs.
- Async I/O is outside the model: the fetch in `_async_update_data`, `_resolve_ids` and `async_fetch_translations`. Only the cache invalidation after a refresh is modelled. Translations are a given map with the English default.
- `_get_calendar_event`, `event_name_map` and the DEBUG summary build Home Assistant objects and strings. Only the event's kind, carried in `uid`, is kept.
- `schedule_updated_on`, `get_current_event`, `get_event_at` and `get_events_between` only forward to the store.
- Clocks and timezones: every fact reads a single `now`, though the source reads the clock several times. `parse_datetime`, `.date()` and `strftime` are replaced by integer seconds and day numbers.
- Floating point: `total_seconds()` is taken as whole seconds, so sub-second parts of a delta are not modelled.
- Event boundaries are always date-times. The date branch of `_format_event_time` is modelled but no fact reaches it.
- const.py and models.py are not part of this model. `DEFAULT_UPDATE_INTERVAL`, the long and short provider names and the `uid` string values are parameters or datatype constructors.
- Unicode `str.upper` is not modelled: it is a function parameter.
- A non-integer update interval is not modelled. An absent interval key falls back to the default. A present `None` or text value is the `IntervalNotANumber` error, standing for the `TypeError` of `timedelta`. A number of minutes beyond the duration's ±999999999-day range is the `IntervalOutOfRange` error, standing for its `OverflowError`.
- sensor.py (an entity table forwarding to these facts, plus an icon lookup) and button.py (a refresh trigger) are outside the model.
- Dropped from the model: two fallbacks the code cannot reach once `now` is fixed. One is the empty-parts branch of `_format_time_delta`; `Countdown.Layout` proves the parts are never empty. The other is the `not next_outage` check in `time_until_outage`, which is ruled out by `HasOutagesPlanned`.
- Selection.SortByStart: its contract states only permutation and order. Stability is proved separately, through `Selection.SortedSelectionIsEarliest`.

Four behaviours of the code differ from what its own docstrings and comments suggest. The model follows the code:

- `time_until_connectivity` and `next_planned_outage_end_time` return nothing during the last planned outage in the horizon. Both return early unless a planned outage starts after now (yasno.py:416-417, 503-504). Their docstrings (yasno.py:411-414, 499-501) promise the current outage's end while one is under way. See `Facts.BlankDuringLastPlannedOutage`.
- A planned outage shorter than a minute reports duration 0. The docstring at yasno.py:214-217 reserves 0 for "no outages planned". See `Facts.ShortOutageReadsAsZero`.
- The cache reuses only a non-None value (yasno.py:310-315). A missing group is therefore fetched again on every read, though the docstring at yasno.py:300-302 says results are cached until the next update.
- The "EmergencyShutdowns" fallback (yasno.py:262-267) fires for any non-normal state, including a planned outage under way. The comment at yasno.py:266 speaks only of emergencies.
