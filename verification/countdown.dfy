/** The countdown formatter: a positive number of seconds is split into days,
    hours and minutes and rendered as space-separated parts such as
    "1д 1ч 30м"; a non-positive one renders as the localized "less than a
    minute" phrase. */
module Countdown {
  import opened Wrappers
  import opened Decimal
  import opened Time

  datatype Unit = Days | Hours | Minutes

  /** One rendered component: an amount and its unit. */
  datatype Part = Part(amount: nat, unit: Unit)

  /** The seconds one part stands for. Here and in the split below the
      factors are written as literals so that the arithmetic stays linear. */
  function PartSeconds(p: Part): nat {
    match p.unit
    case Days => p.amount * 86400
    case Hours => p.amount * 3600
    case Minutes => p.amount * 60
  }

  function Rank(u: Unit): nat {
    match u
    case Days => 2
    case Hours => 1
    case Minutes => 0
  }

  /** The number of seconds a sequence of parts stands for. */
  function Value(parts: seq<Part>): nat {
    if |parts| == 0 then 0 else PartSeconds(parts[0]) + Value(parts[1..])
  }

  /** Units appear largest first, each at most once. */
  predicate DescendingUnits(parts: seq<Part>) {
    forall i, j :: 0 <= i < j < |parts| ==> Rank(parts[i].unit) > Rank(parts[j].unit)
  }

  predicate HasUnit(parts: seq<Part>, u: Unit) {
    exists i :: 0 <= i < |parts| && parts[i].unit == u
  }

  /** Whole days, hours of the day and minutes of the hour in a number of
      seconds; the seconds of the minute are dropped. */
  datatype Split = Split(days: nat, hours: nat, minutes: nat)

  function SplitValue(s: Split): nat {
    s.days * 86400 + s.hours * 3600 + s.minutes * 60
  }

  /** A split of `total`: hours below a day, minutes below an hour, and at most
      59 seconds left over. */
  predicate IsSplitOf(s: Split, total: nat) {
    s.hours < 24 && s.minutes < 60 && SplitValue(s) <= total < SplitValue(s) + SecondsPerMinute
  }

  function SplitSeconds(total: nat): (s: Split)
    ensures IsSplitOf(s, total)
  {
    var days := total / 86400;
    var remaining := total % 86400;
    var hours := remaining / 3600;
    var minutes := remaining % 3600 / 60;
    Split(days, hours, minutes)
  }

  /** There is only one split of a number of seconds, so the formatter's
      arithmetic is the only one that meets the bounds. */
  lemma SplitIsUnique(s: Split, total: nat)
    requires IsSplitOf(s, total)
    ensures s == SplitSeconds(total)
  {
    var withinDay := s.hours * SecondsPerHour + s.minutes * SecondsPerMinute + (total - SplitValue(s));
    assert 0 <= withinDay < SecondsPerDay;
    assert total == s.days * SecondsPerDay + withinDay;
    assert total / SecondsPerDay == s.days && total % SecondsPerDay == withinDay;
    var withinHour := s.minutes * SecondsPerMinute + (total - SplitValue(s));
    assert withinDay == s.hours * SecondsPerHour + withinHour && 0 <= withinHour < SecondsPerHour;
    assert withinDay / SecondsPerHour == s.hours && withinDay % SecondsPerHour == withinHour;
    assert withinHour / SecondsPerMinute == s.minutes;
  }

  /** The amount a split holds for a unit. */
  function AmountOf(s: Split, u: Unit): nat {
    match u
    case Days => s.days
    case Hours => s.hours
    case Minutes => s.minutes
  }

  /** Which parts are shown for a split. Days, when there are any, are always
      followed by hours (even zero hours); hours alone are shown when non-zero;
      minutes are shown when non-zero or when neither days nor hours are.
      The five cases are the formatter's conditional appends written out. */
  function Arrange(s: Split): (parts: seq<Part>)
    ensures |parts| > 0
  {
    var d := Part(s.days, Days);
    var h := Part(s.hours, Hours);
    var m := Part(s.minutes, Minutes);
    if s.days > 0 then (if s.minutes > 0 then [d, h, m] else [d, h])
    else if s.hours > 0 then (if s.minutes > 0 then [h, m] else [h])
    else [m]
  }

  /** The arrangement lists units largest first, each with its amount from
      the split, shows exactly the units the rules above call for, and adds up
      to the split's seconds. */
  lemma ArrangeShows(s: Split)
    ensures DescendingUnits(Arrange(s))
    ensures forall i :: 0 <= i < |Arrange(s)| ==> Arrange(s)[i].amount == AmountOf(s, Arrange(s)[i].unit)
    ensures HasUnit(Arrange(s), Days) <==> s.days > 0
    ensures HasUnit(Arrange(s), Hours) <==> s.days > 0 || s.hours > 0
    ensures HasUnit(Arrange(s), Minutes) <==> s.minutes > 0 || (s.days == 0 && s.hours == 0)
    ensures Value(Arrange(s)) == SplitValue(s)
  {
    var parts := Arrange(s);
    var d := Part(s.days, Days);
    var h := Part(s.hours, Hours);
    var m := Part(s.minutes, Minutes);
    if s.days > 0 {
      assert parts[0].unit == Days && parts[1].unit == Hours;
      if s.minutes > 0 {
        assert parts == [d, h, m] && parts[2].unit == Minutes;
        assert parts[1..] == [h, m] && parts[1..][1..] == [m] && [m][1..] == [];
        assert Value([m]) == s.minutes * 60;
        assert Value([h, m]) == s.hours * 3600 + s.minutes * 60;
      } else {
        assert parts == [d, h];
        assert parts[1..] == [h] && [h][1..] == [];
      }
    } else if s.hours > 0 {
      assert parts[0].unit == Hours;
      if s.minutes > 0 {
        assert parts == [h, m] && parts[1].unit == Minutes;
        assert parts[1..] == [m] && [m][1..] == [];
        assert Value([m]) == s.minutes * 60;
      } else {
        assert parts == [h] && parts[1..] == [];
      }
    } else {
      assert parts == [m] && parts[0].unit == Minutes && parts[1..] == [];
    }
  }

  /** The parts shown for `total` seconds. */
  function Layout(total: nat): (parts: seq<Part>)
    ensures |parts| > 0
    ensures Value(parts) <= total < Value(parts) + SecondsPerMinute
  {
    ArrangeShows(SplitSeconds(total));
    Arrange(SplitSeconds(total))
  }

  /** Which units appear, stated against the number of seconds itself: days
      from one day on, hours from one hour on, and minutes whenever the
      minutes of the hour are non-zero or the total is under an hour. */
  lemma LayoutThresholds(total: nat)
    ensures HasUnit(Layout(total), Days) <==> total >= SecondsPerDay
    ensures HasUnit(Layout(total), Hours) <==> total >= SecondsPerHour
    ensures HasUnit(Layout(total), Minutes) <==> total % SecondsPerHour >= SecondsPerMinute || total < SecondsPerHour
  {
    ArrangeShows(SplitSeconds(total));
    DaysThreshold(total);
    HoursThreshold(total);
    MinutesThreshold(total);
  }

  lemma DaysThreshold(total: nat)
    ensures SplitSeconds(total).days > 0 <==> total >= SecondsPerDay
  {
  }

  lemma HoursThreshold(total: nat)
    ensures SplitSeconds(total).days > 0 || SplitSeconds(total).hours > 0 <==> total >= SecondsPerHour
  {
    if total < SecondsPerDay {
      assert total % SecondsPerDay == total;
    }
  }

  lemma MinutesThreshold(total: nat)
    ensures SplitSeconds(total).minutes > 0 || (SplitSeconds(total).days == 0 && SplitSeconds(total).hours == 0)
            <==> total % SecondsPerHour >= SecondsPerMinute || total < SecondsPerHour
  {
    var q := total / SecondsPerDay;
    var r := total % SecondsPerDay;
    assert total == q * 24 * SecondsPerHour + r;
    assert r % SecondsPerHour == total % SecondsPerHour;
    HoursThreshold(total);
  }

  function Suffix(u: Unit): char {
    match u
    case Days => 'д'
    case Hours => 'ч'
    case Minutes => 'м'
  }

  function SuffixUnit(c: char): (u: Option<Unit>)
    ensures u.Some? ==> Suffix(u.value) == c
  {
    if c == 'д' then Some(Days)
    else if c == 'ч' then Some(Hours)
    else if c == 'м' then Some(Minutes)
    else None
  }

  function RenderPart(p: Part): string {
    NatToString(p.amount) + [Suffix(p.unit)]
  }

  /** The parts joined by single spaces. */
  function Render(parts: seq<Part>): string {
    if |parts| == 0 then ""
    else if |parts| == 1 then RenderPart(parts[0])
    else RenderPart(parts[0]) + " " + Render(parts[1..])
  }

  /** The length of the run of digits that `s` starts with. */
  function LeadingDigits(s: string): (n: nat)
    ensures n <= |s| && AllDigits(s[..n])
    ensures n < |s| ==> !IsDigit(s[n])
  {
    if |s| == 0 || !IsDigit(s[0]) then 0
    else
      var n := 1 + LeadingDigits(s[1..]);
      assert s[..n] == [s[0]] + s[1..][..n - 1];
      n
  }

  /** Reads one token at the front of `s`: a run of digits and a unit suffix.
      Returns the part and the number of characters it took. */
  function ParseToken(s: string): (r: Option<(Part, nat)>)
    ensures r.Some? ==> 0 < r.value.1 <= |s|
  {
    var n := LeadingDigits(s);
    if n == 0 || n >= |s| then None
    else match SuffixUnit(s[n])
      case None => None
      case Some(u) => Some((Part(DigitsValue(s[..n]), u), n + 1))
  }

  /** Reads a countdown back into its parts: one or more tokens separated by
      single spaces. */
  function ParseCountdown(s: string): Option<seq<Part>>
    decreases |s|
  {
    match ParseToken(s)
    case None => None
    case Some((p, k)) =>
      if k == |s| then Some([p])
      else if s[k] != ' ' then None
      else match ParseCountdown(s[k + 1..])
        case None => None
        case Some(rest) => Some([p] + rest)
  }

  lemma {:induction false} LeadingDigitsOfNumber(d: string, t: string)
    requires AllDigits(d)
    requires |t| > 0 && !IsDigit(t[0])
    ensures LeadingDigits(d + t) == |d|
    decreases |d|
  {
    if |d| > 0 {
      assert (d + t)[1..] == d[1..] + t;
      LeadingDigitsOfNumber(d[1..], t);
    } else {
      assert d + t == t;
    }
  }

  /** In a rendered token followed by anything, the digits run up to the
      suffix. */
  lemma RenderedTokenShape(d: string, u: Unit, tail: string)
    requires |d| > 0 && AllDigits(d)
    ensures LeadingDigits(d + [Suffix(u)] + tail) == |d| < |d + [Suffix(u)] + tail|
    ensures (d + [Suffix(u)] + tail)[..|d|] == d
    ensures (d + [Suffix(u)] + tail)[|d|] == Suffix(u)
  {
    var t := [Suffix(u)] + tail;
    assert d + [Suffix(u)] + tail == d + t;
    assert t[0] == Suffix(u) && !IsDigit(t[0]);
    LeadingDigitsOfNumber(d, t);
  }

  /** A rendered token is read back whole, whatever follows its suffix. */
  lemma ParseTokenOfRendered(d: string, u: Unit, tail: string)
    requires |d| > 0 && AllDigits(d)
    ensures ParseToken(d + [Suffix(u)] + tail) == Some((Part(DigitsValue(d), u), |d| + 1))
  {
    RenderedTokenShape(d, u, tail);
    assert SuffixUnit(Suffix(u)) == Some(u);
  }

  /** A single rendered part reads back as itself. */
  lemma SingleParses(p: Part)
    ensures ParseCountdown(Render([p])) == Some([p])
  {
    var d := NatToString(p.amount);
    NatToStringRoundTrip(p.amount);
    ParseTokenOfRendered(d, p.unit, "");
    assert Render([p]) == d + [Suffix(p.unit)] + "";
  }

  /** A token, a space and a countdown that reads back read back with the
      token's part in front. */
  lemma ParseStep(d: string, u: Unit, t: string, rest: seq<Part>)
    requires |d| > 0 && AllDigits(d)
    requires ParseCountdown(t) == Some(rest)
    ensures ParseCountdown(d + [Suffix(u)] + " " + t) == Some([Part(DigitsValue(d), u)] + rest)
  {
    var s := d + [Suffix(u)] + " " + t;
    assert s == d + [Suffix(u)] + (" " + t);
    ParseTokenOfRendered(d, u, " " + t);
    assert s[|d| + 1] == ' ';
    assert s[|d| + 2..] == t;
  }

  /** Every non-empty sequence of parts renders to a string that reads back as
      exactly those parts. */
  lemma {:induction false} ParseRender(parts: seq<Part>)
    requires |parts| > 0
    ensures ParseCountdown(Render(parts)) == Some(parts)
    decreases |parts|
  {
    if |parts| == 1 {
      SingleParses(parts[0]);
      assert parts == [parts[0]];
    } else {
      var p, rest := parts[0], parts[1..];
      var d := NatToString(p.amount);
      assert Render(parts) == d + [Suffix(p.unit)] + " " + Render(rest);
      ParseRender(rest);
      ParseStep(d, p.unit, Render(rest), rest);
      NatToStringRoundTrip(p.amount);
      assert Part(DigitsValue(d), p.unit) == p;
      assert parts == [p] + rest;
    }
  }

  /** Keys of the translation table the formatter consults. */
  datatype TranslationKey = LessThanMinuteText

  type Translations = map<TranslationKey, string>

  const LessThanMinuteFallback: string := "less than a minute"

  /** The localized "less than a minute" phrase, English when untranslated. */
  function LessThanMinute(tr: Translations): (phrase: string)
    ensures LessThanMinuteText in tr ==> phrase == tr[LessThanMinuteText]
    ensures LessThanMinuteText !in tr ==> phrase == LessThanMinuteFallback
  {
    if LessThanMinuteText in tr then tr[LessThanMinuteText] else LessThanMinuteFallback
  }

  /** A delta counts as ahead of now only when strictly positive. */
  function IsTimeDeltaPositive(delta: int): bool {
    delta > 0
  }

  /** The delta from now to a target is positive exactly when the target lies
      strictly after now. */
  lemma PositiveDeltaIsAhead(target: int, now: int)
    ensures IsTimeDeltaPositive(target - now) <==> now < target
  {
  }

  /** `parts` are the ones shown for the split of `delta` seconds. */
  ghost predicate ShowsSplitOf(parts: seq<Part>, delta: nat) {
    exists sp :: IsSplitOf(sp, delta) && parts == Arrange(sp)
  }

  /** `s` is the canonical rendering of the parts shown for a positive
      `delta`: it reads back as those parts and renders from them again, so
      no leading zeros or other spellings slip through. */
  ghost predicate CountsDown(s: string, delta: int) {
    delta > 0 &&
    match ParseCountdown(s)
    case None => false
    case Some(parts) => ShowsSplitOf(parts, delta) && Render(parts) == s
  }

  /** A countdown for a delta is unique: two strings that both count down
      the same delta are the same string. */
  lemma CountsDownDeterminesString(s1: string, s2: string, delta: int)
    requires CountsDown(s1, delta) && CountsDown(s2, delta)
    ensures s1 == s2
  {
    var sp1 :| IsSplitOf(sp1, delta) && ParseCountdown(s1).value == Arrange(sp1);
    var sp2 :| IsSplitOf(sp2, delta) && ParseCountdown(s2).value == Arrange(sp2);
    SplitIsUnique(sp1, delta);
    SplitIsUnique(sp2, delta);
  }

  /** Formats a delta in whole seconds: the phrase for a non-positive delta,
      otherwise the rendered layout, which is never empty. */
  function FormatTimeDelta(delta: int, tr: Translations): (r: string)
    ensures !IsTimeDeltaPositive(delta) ==> r == LessThanMinute(tr)
    ensures IsTimeDeltaPositive(delta) ==> |r| > 0
  {
    if delta <= 0 then LessThanMinute(tr)
    else Render(Layout(delta))
  }

  /** A positive delta's countdown reads back as the layout of that delta:
      days, hours and minutes as split above, and never the phrase's empty
      fallback. */
  lemma FormatReadsBack(delta: int, tr: Translations)
    requires IsTimeDeltaPositive(delta)
    ensures CountsDown(FormatTimeDelta(delta, tr), delta)
  {
    ParseRender(Layout(delta));
    assert IsSplitOf(SplitSeconds(delta), delta);
  }

  /** The English phrase is not itself a countdown. */
  lemma FallbackIsNotCountdown()
    ensures ParseCountdown(LessThanMinuteFallback).None?
  {
    assert LessThanMinuteFallback[0] == 'l';
    assert LeadingDigits(LessThanMinuteFallback) == 0;
  }

  /** Whenever the phrase cannot be mistaken for a countdown, the formatter
      returns it exactly for non-positive deltas. */
  lemma PhraseExactlyWhenNonPositive(delta: int, tr: Translations)
    requires ParseCountdown(LessThanMinute(tr)).None?
    ensures FormatTimeDelta(delta, tr) == LessThanMinute(tr) <==> delta <= 0
  {
    if delta > 0 {
      FormatReadsBack(delta, tr);
    }
  }

  /** A positive delta renders as the arrangement of any split that meets the
      bounds, since there is only one. */
  lemma FormatBySplit(delta: int, tr: Translations, sp: Split)
    requires delta > 0 && IsSplitOf(sp, delta)
    ensures FormatTimeDelta(delta, tr) == Render(Arrange(sp))
  {
    SplitIsUnique(sp, delta);
  }

  /** A positive delta under a minute shows zero minutes, never the phrase. */
  lemma SubMinuteShowsZeroMinutes(delta: int, tr: Translations)
    requires 0 < delta < SecondsPerMinute
    ensures FormatTimeDelta(delta, tr) == "0м"
  {
    FormatBySplit(delta, tr, Split(0, 0, 0));
    ZeroMinutesText();
  }

  lemma ZeroMinutesText()
    ensures Render(Arrange(Split(0, 0, 0))) == "0м"
  {
    assert Arrange(Split(0, 0, 0)) == [Part(0, Minutes)];
    assert NatToString(0) == "0";
  }

  /** Worked example: 90 seconds show as one minute. */
  lemma NinetySeconds(tr: Translations)
    ensures FormatTimeDelta(90, tr) == "1м"
  {
    FormatBySplit(90, tr, Split(0, 0, 1));
    OneMinuteText();
  }

  lemma OneMinuteText()
    ensures Render(Arrange(Split(0, 0, 1))) == "1м"
  {
    assert Arrange(Split(0, 0, 1)) == [Part(1, Minutes)];
    assert NatToString(1) == "1";
  }

  /** Worked example: 25 hours 30 minutes show all three parts. */
  lemma DayHourHalf(tr: Translations)
    ensures FormatTimeDelta(25 * 3600 + 30 * 60, tr) == "1д 1ч 30м"
  {
    FormatBySplit(25 * 3600 + 30 * 60, tr, Split(1, 1, 30));
    DayHourHalfText();
  }

  lemma DayHourHalfText()
    ensures Render(Arrange(Split(1, 1, 30))) == "1д 1ч 30м"
  {
    var parts := [Part(1, Days), Part(1, Hours), Part(30, Minutes)];
    assert Arrange(Split(1, 1, 30)) == parts;
    HalfHourText();
    assert NatToString(1) == "1";
    assert Render(parts[1..]) == "1ч 30м";
  }

  lemma HalfHourText()
    ensures Render([Part(30, Minutes)]) == "30м"
  {
    assert NatToString(3) == "3";
    assert NatToString(30) == "30";
  }

  /** Worked example: exactly one day keeps its zero hours. */
  lemma ExactlyOneDay(tr: Translations)
    ensures FormatTimeDelta(SecondsPerDay, tr) == "1д 0ч"
  {
    FormatBySplit(SecondsPerDay, tr, Split(1, 0, 0));
    OneDayText();
  }

  lemma OneDayText()
    ensures Render(Arrange(Split(1, 0, 0))) == "1д 0ч"
  {
    var parts := [Part(1, Days), Part(0, Hours)];
    assert Arrange(Split(1, 0, 0)) == parts;
    assert NatToString(1) == "1";
    assert NatToString(0) == "0";
    assert Render(parts[1..]) == "0ч";
  }
}
