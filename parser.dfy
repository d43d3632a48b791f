/**
 * `parse_input`: zone marker, then the date strategies in their fixed order,
 * then the clock time. `ParseSpec` states the pipeline as one function;
 * `ParseInput` is the program's step-by-step version, proved to agree with it.
 */
module Parser {
  import opened Wrappers
  import opened Text
  import opened Calendar
  import opened Zones
  import opened Lexer
  import opened Removal

  /** The exceptions `parse_input` does not catch. */
  datatype ParseError =
    | InvalidIsoDate   // datetime.fromisoformat raises ValueError
    | DateOutOfRange   // date plus or minus a timedelta raises OverflowError
    | TimeOutOfRange   // time(hour, minute) raises ValueError

  /** What `parse_input` returns (`None` or a pair), or the exception it raises. */
  datatype Parse =
    | NoParse
    | Parsed(dt: DateTime, hint: Option<Zone>)
    | Raised(error: ParseError)

  // ---------------------------------------------------------------------------
  // WEEKDAY_MAP and the key loop
  // ---------------------------------------------------------------------------

  /** `WEEKDAY_MAP`, in insertion order, which is the order `keys()` yields. */
  const WeekdayMap: seq<(string, int)> :=
    [("mon", 0), ("monday", 0), ("tue", 1), ("tues", 1), ("tuesday", 1), ("wed", 2),
     ("wednesday", 2), ("thu", 3), ("thur", 3), ("thurs", 3), ("thursday", 3), ("fri", 4),
     ("friday", 4), ("sat", 5), ("saturday", 5), ("sun", 6), ("sunday", 6)]

  /** `s.startswith(p)`. */
  predicate IsPrefix(p: string, s: string) {
    |p| <= |s| && s[..|p|] == p
  }

  /** The position in `WEEKDAY_MAP` of the first key, from entry `k` on, that `token` starts with. */
  function FirstKeyFor(token: string, k: nat): (r: Option<nat>)
    ensures r.Some? ==> k <= r.value < |WeekdayMap| && IsPrefix(WeekdayMap[r.value].0, token)
    ensures r.Some? ==> forall j :: k <= j < r.value ==> !IsPrefix(WeekdayMap[j].0, token)
    ensures r.None? ==> forall j :: k <= j < |WeekdayMap| ==> !IsPrefix(WeekdayMap[j].0, token)
    decreases |WeekdayMap| - k
  {
    if k >= |WeekdayMap| then None
    else if IsPrefix(WeekdayMap[k].0, token) then Some(k)
    else FirstKeyFor(token, k + 1)
  }

  /**
   * The `for k in WEEKDAY_MAP.keys(): if wd_token.startswith(k): ... break`
   * loop: the entry of the first key that `token` starts with.
   */
  method LookupWeekdayKey(token: string) returns (key: Option<nat>)
    ensures key.Some? ==> key.value < |WeekdayMap| && IsPrefix(WeekdayMap[key.value].0, token)
    ensures key.Some? ==> forall j :: 0 <= j < key.value ==> !IsPrefix(WeekdayMap[j].0, token)
    ensures key.None? ==> forall j :: 0 <= j < |WeekdayMap| ==> !IsPrefix(WeekdayMap[j].0, token)
    ensures key == FirstKeyFor(token, 0)
  {
    key := None;
    var i := 0;
    while i < |WeekdayMap|
      invariant 0 <= i <= |WeekdayMap|
      invariant forall j :: 0 <= j < i ==> !IsPrefix(WeekdayMap[j].0, token)
    {
      if IsPrefix(WeekdayMap[i].0, token) {
        key := Some(i);
        break;
      }
      i := i + 1;
    }
  }

  /** The entry of the first, three-letter, key of weekday `w`'s group in `WEEKDAY_MAP`. */
  function GroupStart(w: int): (g: nat)
    requires 0 <= w < 7
    ensures g < |WeekdayMap|
  {
    [0, 2, 5, 7, 11, 13, 15][w]
  }

  /** The group of weekday `w` starts with the C locale's abbreviation of `w`, lower-cased. */
  lemma GroupStartIsAbbreviation(w: int)
    requires 0 <= w < 7
    ensures LowerString(WeekdayAbbreviations[w]) == WeekdayMap[GroupStart(w)].0
    ensures WeekdayMap[GroupStart(w)].1 == w
  {
    if w == 0 {} else if w == 1 {} else if w == 2 {} else if w == 3 {}
    else if w == 4 {} else if w == 5 {} else {}
  }

  /** Every key is a name of `WEEKDAY_RE`, starts with its group's three-letter key and lies in its group. */
  lemma WeekdayMapShape(k: nat)
    requires k < |WeekdayMap|
    ensures 0 <= WeekdayMap[k].1 < 7
    ensures |WeekdayMap[k].0| >= 3
    ensures WeekdayMap[k].0[..3] == WeekdayMap[GroupStart(WeekdayMap[k].1)].0
    ensures GroupStart(WeekdayMap[k].1) <= k
    ensures WeekdayMap[k].0 == WeekdayNames[k]
  {
    assert k == 0 || k == 1 || k == 2 || k == 3 || k == 4 || k == 5 || k == 6 || k == 7 || k == 8
        || k == 9 || k == 10 || k == 11 || k == 12 || k == 13 || k == 14 || k == 15 || k == 16;
  }

  lemma GroupKeysDistinct(a: int, b: int)
    requires 0 <= a < 7 && 0 <= b < 7
    requires WeekdayMap[GroupStart(a)].0 == WeekdayMap[GroupStart(b)].0
    ensures a == b
  {
    var ka := WeekdayMap[GroupStart(a)].0;
    var kb := WeekdayMap[GroupStart(b)].0;
    assert ka[0] == kb[0] && ka[1] == kb[1];
  }

  /**
   * The key loop run on any key of `WEEKDAY_MAP` stops at the three-letter
   * key of that key's weekday: `"thursday"` finds `"thu"`.
   */
  lemma FirstKeyOfKey(j: nat)
    requires j < |WeekdayMap|
    ensures FirstKeyFor(WeekdayMap[j].0, 0) == Some(GroupStart(WeekdayMap[j].1))
  {
    var name := WeekdayMap[j].0;
    var w := WeekdayMap[j].1;
    var g := GroupStart(w);
    WeekdayMapShape(j);
    WeekdayMapShape(g);
    GroupStartIsAbbreviation(w);
    assert IsPrefix(WeekdayMap[g].0, name);
    forall k | 0 <= k < g ensures !IsPrefix(WeekdayMap[k].0, name) {
      if IsPrefix(WeekdayMap[k].0, name) {
        WeekdayMapShape(k);
        assert name[..3] == WeekdayMap[k].0[..3];
        GroupKeysDistinct(WeekdayMap[k].1, w);
      }
    }
    FirstKeyIs(name, g);
  }

  /** The first key loop stops at `g` when key `g` matches and no earlier key does. */
  lemma FirstKeyIs(token: string, g: nat)
    requires g < |WeekdayMap| && IsPrefix(WeekdayMap[g].0, token)
    requires forall k :: 0 <= k < g ==> !IsPrefix(WeekdayMap[k].0, token)
    ensures FirstKeyFor(token, 0) == Some(g)
  {
  }

  /**
   * Every name `WEEKDAY_RE` can match has a key, so the `if wd_key:` test
   * always passes; the weekday found through the first matching key is the
   * name's own entry in `WEEKDAY_MAP`; and it is the weekday whose
   * abbreviation the name starts with.
   */
  lemma WeekdayLookupAgrees(name: string)
    requires name in WeekdayNames
    ensures FirstKeyFor(name, 0).Some?
    ensures exists j :: 0 <= j < |WeekdayMap| && WeekdayMap[j].0 == name
                        && WeekdayMap[FirstKeyFor(name, 0).value].1 == WeekdayMap[j].1
    ensures 0 <= WeekdayMap[FirstKeyFor(name, 0).value].1 < 7
    ensures IsPrefix(LowerString(WeekdayAbbreviations[WeekdayMap[FirstKeyFor(name, 0).value].1]), name)
  {
    var j :| 0 <= j < |WeekdayNames| && WeekdayNames[j] == name;
    WeekdayMapShape(j);
    var w := WeekdayMap[j].1;
    FirstKeyOfKey(j);
    GroupStartIsAbbreviation(w);
    assert IsPrefix(WeekdayMap[GroupStart(w)].0, name);
  }

  // ---------------------------------------------------------------------------
  // The stages of parse_input, as functions
  // ---------------------------------------------------------------------------

  /**
   * The zone-marker step: ET markers are looked for first, AWST markers only
   * when there is none; the markers of the zone found are removed.
   */
  function ZoneHint(s: string): (r: (Option<Zone>, string))
    ensures r.0 == Some(ET) <==> FindMarker(s, ET).Some?
    ensures r.0 == Some(AWST) <==> FindMarker(s, ET).None? && FindMarker(s, AWST).Some?
    ensures r.0.None? ==> r.1 == s
    ensures r.0.Some? ==> r.1 == RemoveMarkers(s, r.0.value)
  {
    if FindMarker(s, ET).Some? then (Some(ET), RemoveMarkers(s, ET))
    else if FindMarker(s, AWST).Some? then (Some(AWST), RemoveMarkers(s, AWST))
    else (None, s)
  }

  /** Whichever family gives the hint, the string passed on holds no marker of that family. */
  lemma HintMarkersGone(s: string)
    ensures ZoneHint(s).0.Some? ==> FindMarker(ZoneHint(s).1, ZoneHint(s).0.value).None?
  {
    if ZoneHint(s).0.Some? {
      NoMarkerLeft(s, ZoneHint(s).0.value);
    }
  }

  /** After the date strategies: the date found, if any, and the working string; or the exception raised. */
  datatype DateState = DateState(date: Option<Date>, rest: string) | DateFailed(error: ParseError)

  /** `s.replace(text, "").strip()`, the clean-up after a successful strategy. */
  function Consume(s: string, text: string): string
  {
    if text == [] then Strip(s) else Strip(ReplaceAll(s, text))
  }

  /** The ISO strategy; `None` when it does not fire. */
  function IsoStrategy(s: string): Option<DateState>
  {
    match SearchIso(s)
    case None => None
    case Some((_, t)) =>
      match FromIsoFormat(t)
      case None => Some(DateFailed(InvalidIsoDate))
      case Some(d) => Some(DateState(Some(d), Consume(s, t.text)))
  }

  /** The month/day strategy; `None` when it does not match or its `try` block fails. */
  function MonthDayStrategy(s: string, year: int): Option<DateState>
  {
    match SearchMonthDay(s)
    case None => None
    case Some((_, t)) =>
      match MonthDayDate(t, year)
      case None => None
      case Some(d) => Some(DateState(Some(d), Consume(s, t.text)))
  }

  /** The day offset of a relative keyword. */
  function RelativeOffset(keyword: string): int
  {
    if keyword == "today" then 0 else if keyword == "tomorrow" then 1 else -1
  }

  /** The relative strategy; `today` itself needs no arithmetic, the other keywords may overflow. */
  function RelativeStrategy(s: string, today: Date): Option<DateState>
    requires IsValidDate(today)
  {
    match SearchRelative(s)
    case None => None
    case Some((_, t)) =>
      var d := if t.keyword == "today" then Some(today) else Shift(today, RelativeOffset(t.keyword));
      match d
      case None => Some(DateFailed(DateOutOfRange))
      case Some(d) => Some(DateState(Some(d), Consume(s, t.text)))
  }

  /** The weekday strategy. */
  function WeekdayStrategy(s: string, today: Date): Option<DateState>
    requires IsValidDate(today)
  {
    match SearchWeekday(s)
    case None => None
    case Some((_, t)) =>
      match FirstKeyFor(t.name, 0)
      case None => None
      case Some(k) =>
        match NextWeekday(today, WeekdayMap[k].1, t.when)
        case None => Some(DateFailed(DateOutOfRange))
        case Some(d) => Some(DateState(Some(d), Consume(s, t.text)))
  }

  /** The date strategies in their order of precedence; the first that fires decides. */
  function ResolveDate(s: string, today: Date): DateState
    requires IsValidDate(today)
  {
    var iso := IsoStrategy(s);
    if iso.Some? then iso.value
    else
      var md := MonthDayStrategy(s, today.year);
      if md.Some? then md.value
      else LaterStrategies(s, today)
  }

  /** The relative and weekday strategies, reached only when neither ISO nor month/day fired. */
  function LaterStrategies(s: string, today: Date): DateState
    requires IsValidDate(today)
  {
    var rel := RelativeStrategy(s, today);
    if rel.Some? then rel.value
    else
      var wd := WeekdayStrategy(s, today);
      if wd.Some? then wd.value
      else DateState(None, s)
  }

  /** The minute once group `m` is read: 0 when it is absent. */
  function MinuteOf(t: TimeToken): int
  {
    if t.minute.Some? then t.minute.value else 0
  }

  /** The time step and the final combine, once the date strategies have run. */
  function FinishTime(m: Option<(nat, TimeToken)>, date: Option<Date>, hint: Option<Zone>, today: Date): Parse
  {
    match m
    case None => NoParse
    case Some((_, t)) =>
      var hour := To24Hour(t.hour, t.meridiem);
      var minute := MinuteOf(t);
      var d := if date.Some? then date.value else today;
      if 0 <= hour < 24 && 0 <= minute < 60 then Parsed(DateTime(d, hour, minute), hint)
      else Raised(TimeOutOfRange)
  }

  /** Everything after the date strategies: an exception they raised, or the time step. */
  function FinishParse(st: DateState, hint: Option<Zone>, today: Date): Parse
  {
    match st
    case DateFailed(e) => Raised(e)
    case DateState(date, rest) => FinishTime(SearchTime(rest), date, hint, today)
  }

  /** `parse_input(raw)` with `date.today()` passed in as `today`. */
  function ParseSpec(raw: string, today: Date): Parse
    requires IsValidDate(today)
  {
    var s := Strip(raw);
    if s == [] then NoParse
    else
      var (hint, unmarked) := ZoneHint(s);
      FinishParse(ResolveDate(Collapse(unmarked), today), hint, today)
  }

  /** A date the strategies find is a real calendar date; when none fires, the string is left as it was. */
  lemma ResolveDateFacts(s: string, today: Date)
    requires IsValidDate(today)
    ensures ResolveDate(s, today).DateState? && ResolveDate(s, today).date.Some? ==>
              IsValidDate(ResolveDate(s, today).date.value)
    ensures ResolveDate(s, today).DateState? && ResolveDate(s, today).date.None? ==>
              ResolveDate(s, today).rest == s
    ensures ResolveDate(s, today).DateFailed? ==> ResolveDate(s, today).error != TimeOutOfRange
  {
    IsoShape(s);
    MonthDayShape(s, today.year);
    RelativeShape(s, today);
    WeekdayShape(s, today);
  }

  /**
   * What `parse_input` promises: `None` for blank input; a parse holds a
   * valid datetime; its zone hint is ET exactly when an ET marker occurs and
   * AWST exactly when an AWST marker occurs without an ET marker.
   */
  lemma ParseSpecFacts(raw: string, today: Date)
    requires IsValidDate(today)
    ensures AllSpace(raw) ==> ParseSpec(raw, today) == NoParse
    ensures ParseSpec(raw, today).Parsed? ==> IsValidDateTime(ParseSpec(raw, today).dt)
    ensures ParseSpec(raw, today).Parsed? ==>
              (ParseSpec(raw, today).hint == Some(ET) <==> FindMarker(Strip(raw), ET).Some?)
    ensures ParseSpec(raw, today).Parsed? ==>
              (ParseSpec(raw, today).hint == Some(AWST) <==>
               FindMarker(Strip(raw), ET).None? && FindMarker(Strip(raw), AWST).Some?)
  {
    var s := Strip(raw);
    if s != [] {
      var (hint, unmarked) := ZoneHint(s);
      ResolveDateFacts(Collapse(unmarked), today);
    }
  }

  /**
   * Strict precedence, spelled out one strategy at a time: a strategy decides
   * the date exactly when every earlier one stayed silent; with no strategy
   * firing, no date is set and the string is untouched. This is the
   * specification `ResolveDate`'s if-chain is read against; what each
   * strategy does once reached is in `StrategiesFireWhenMatched`,
   * `MonthDayFallsThrough` and the `*Shape` lemmas.
   */
  lemma DatePrecedence(s: string, today: Date)
    requires IsValidDate(today)
    ensures IsoStrategy(s).Some? ==> ResolveDate(s, today) == IsoStrategy(s).value
    ensures IsoStrategy(s).None? && MonthDayStrategy(s, today.year).Some? ==>
              ResolveDate(s, today) == MonthDayStrategy(s, today.year).value
    ensures IsoStrategy(s).None? && MonthDayStrategy(s, today.year).None? && RelativeStrategy(s, today).Some? ==>
              ResolveDate(s, today) == RelativeStrategy(s, today).value
    ensures IsoStrategy(s).None? && MonthDayStrategy(s, today.year).None? && RelativeStrategy(s, today).None?
            && WeekdayStrategy(s, today).Some? ==>
              ResolveDate(s, today) == WeekdayStrategy(s, today).value
    ensures IsoStrategy(s).None? && MonthDayStrategy(s, today.year).None? && RelativeStrategy(s, today).None?
            && WeekdayStrategy(s, today).None? ==>
              ResolveDate(s, today) == DateState(None, s)
  {
  }

  /**
   * Which strategies can stay silent once their pattern matches: only the
   * month/day one. An ISO, relative or weekday match always decides (a
   * weekday name always finds its key in `WEEKDAY_MAP`).
   */
  lemma StrategiesFireWhenMatched(s: string, today: Date)
    requires IsValidDate(today)
    ensures IsoStrategy(s).Some? <==> SearchIso(s).Some?
    ensures RelativeStrategy(s, today).Some? <==> SearchRelative(s).Some?
    ensures WeekdayStrategy(s, today).Some? <==> SearchWeekday(s).Some?
  {
    IsoShape(s);
    RelativeShape(s, today);
    if SearchWeekday(s).Some? {
      var t := SearchWeekday(s).value.1;
      assert t.name in WeekdayNames;
      WeekdayLookupAgrees(t.name);
      var k := FirstKeyFor(t.name, 0).value;
      assert WeekdayStrategy(s, today).Some? by {
        var d := NextWeekday(today, WeekdayMap[k].1, t.when);
      }
    }
  }

  /**
   * The relative strategy moves today by 0, +1 or -1 day for `today`,
   * `tomorrow` and `yesterday`, and raises only when that leaves the
   * calendar.
   */
  lemma RelativeStrategyDates(s: string, today: Date)
    requires IsValidDate(today) && SearchRelative(s).Some?
    ensures var kw := SearchRelative(s).value.1.keyword;
            var n := if kw == "today" then 0 else if kw == "tomorrow" then 1 else -1;
            var st := RelativeStrategy(s, today);
            st.Some?
            && (st.value.DateState? <==> 1 <= Ordinal(today) + n <= MaxOrdinal)
            && (st.value.DateState? ==> st.value.date.Some? && Ordinal(st.value.date.value) == Ordinal(today) + n)
            && (st.value.DateFailed? ==> st.value.error == DateOutOfRange)
  {
    ValidIffOrdinalInRange(today);
  }

  /**
   * The weekday strategy lands on the weekday the name abbreviates, within
   * the coming week (today included unless the qualifier is `next`), and
   * raises only at the end of the calendar.
   */
  lemma WeekdayStrategyDates(s: string, today: Date)
    requires IsValidDate(today) && SearchWeekday(s).Some?
    ensures var t := SearchWeekday(s).value.1;
            var st := WeekdayStrategy(s, today);
            st.Some?
            && (st.value.DateState? ==>
                  st.value.date.Some?
                  && IsPrefix(LowerString(WeekdayAbbreviations[Weekday(st.value.date.value)]), t.name)
                  && (t.when == Some(Next) ==>
                        Ordinal(today) + 1 <= Ordinal(st.value.date.value) <= Ordinal(today) + 7)
                  && (t.when != Some(Next) ==>
                        Ordinal(today) <= Ordinal(st.value.date.value) <= Ordinal(today) + 6))
            && (st.value.DateFailed? ==> st.value.error == DateOutOfRange && MaxOrdinal - 7 < Ordinal(today))
  {
    var t := SearchWeekday(s).value.1;
    assert t.name in WeekdayNames;
    WeekdayLookupAgrees(t.name);
    var k := FirstKeyFor(t.name, 0).value;
    var r := NextWeekday(today, WeekdayMap[k].1, t.when);
    assert WeekdayStrategy(s, today) == Some(if r.Some? then DateState(r, Consume(s, t.text)) else DateFailed(DateOutOfRange));
    WeekdayDateNamed(t.name, k, today, t.when);
  }

  lemma WeekdayDateNamed(name: string, k: nat, today: Date, when: Option<Qualifier>)
    requires IsValidDate(today) && k < |WeekdayMap| && 0 <= WeekdayMap[k].1 < 7
    requires IsPrefix(LowerString(WeekdayAbbreviations[WeekdayMap[k].1]), name)
    ensures var r := NextWeekday(today, WeekdayMap[k].1, when);
            r.Some? ==> IsPrefix(LowerString(WeekdayAbbreviations[Weekday(r.value)]), name)
  {
    var w := WeekdayMap[k].1;
    assert w % 7 == w;
  }

  /**
   * A month/day match whose first three letters name no month, or whose day
   * does not exist in that month of the current year, falls through: the
   * later strategies run on the same, unchanged string.
   */
  lemma MonthDayFallsThrough(s: string, today: Date, i: nat, t: MonthDayToken)
    requires IsValidDate(today)
    requires SearchIso(s).None? && SearchMonthDay(s) == Some((i, t))
    requires MonthFromAbbreviation(Prefix3(t.name)).None?
             || !IsValidDate(Date(today.year, MonthFromAbbreviation(Prefix3(t.name)).value, t.day))
    ensures ResolveDate(s, today) == LaterStrategies(s, today)
  {
  }

  /**
   * The ISO strategy fires exactly when `ISO_DATE_RE` matches. Its text
   * occurs where it matched; once the strategy sets a valid date, the working
   * string becomes `s.replace(text, "").strip()`; it raises only for an
   * invalid date.
   */
  lemma IsoShape(s: string)
    ensures IsoStrategy(s).Some? <==> SearchIso(s).Some?
    ensures SearchIso(s).Some? ==>
              0 < |SearchIso(s).value.1.text| && OccursAt(s, SearchIso(s).value.1.text, SearchIso(s).value.0)
    ensures IsoStrategy(s).Some? && IsoStrategy(s).value.DateState? ==>
              IsoStrategy(s).value.date.Some? && IsValidDate(IsoStrategy(s).value.date.value)
              && IsoStrategy(s).value.rest == Consume(s, SearchIso(s).value.1.text)
    ensures IsoStrategy(s).Some? && IsoStrategy(s).value.DateFailed? ==> IsoStrategy(s).value.error == InvalidIsoDate
  {
  }

  /** The same for the month/day strategy, which stays silent when its `try` block fails. */
  lemma MonthDayShape(s: string, year: int)
    ensures MonthDayStrategy(s, year).Some? ==> SearchMonthDay(s).Some?
    ensures SearchMonthDay(s).Some? ==>
              0 < |SearchMonthDay(s).value.1.text| && OccursAt(s, SearchMonthDay(s).value.1.text, SearchMonthDay(s).value.0)
    ensures MonthDayStrategy(s, year).Some? ==>
              MonthDayStrategy(s, year).value.DateState? && MonthDayStrategy(s, year).value.date.Some?
              && IsValidDate(MonthDayStrategy(s, year).value.date.value)
              && MonthDayStrategy(s, year).value.rest == Consume(s, SearchMonthDay(s).value.1.text)
  {
  }

  /** The same for the relative strategy, which raises only when the day leaves the calendar. */
  lemma RelativeShape(s: string, today: Date)
    requires IsValidDate(today)
    ensures RelativeStrategy(s, today).Some? <==> SearchRelative(s).Some?
    ensures SearchRelative(s).Some? ==>
              0 < |SearchRelative(s).value.1.text| && OccursAt(s, SearchRelative(s).value.1.text, SearchRelative(s).value.0)
    ensures RelativeStrategy(s, today).Some? && RelativeStrategy(s, today).value.DateState? ==>
              RelativeStrategy(s, today).value.date.Some? && IsValidDate(RelativeStrategy(s, today).value.date.value)
              && RelativeStrategy(s, today).value.rest == Consume(s, SearchRelative(s).value.1.text)
    ensures RelativeStrategy(s, today).Some? && RelativeStrategy(s, today).value.DateFailed? ==>
              RelativeStrategy(s, today).value.error == DateOutOfRange
  {
  }

  /** The same for the weekday strategy. */
  lemma WeekdayShape(s: string, today: Date)
    requires IsValidDate(today)
    ensures WeekdayStrategy(s, today).Some? ==> SearchWeekday(s).Some?
    ensures SearchWeekday(s).Some? ==>
              0 < |SearchWeekday(s).value.1.text| && OccursAt(s, SearchWeekday(s).value.1.text, SearchWeekday(s).value.0)
    ensures WeekdayStrategy(s, today).Some? && WeekdayStrategy(s, today).value.DateState? ==>
              WeekdayStrategy(s, today).value.date.Some? && IsValidDate(WeekdayStrategy(s, today).value.date.value)
              && WeekdayStrategy(s, today).value.rest == Consume(s, SearchWeekday(s).value.1.text)
    ensures WeekdayStrategy(s, today).Some? && WeekdayStrategy(s, today).value.DateFailed? ==>
              WeekdayStrategy(s, today).value.error == DateOutOfRange
  {
    var m := SearchWeekday(s);
    if m.Some? {
      var t := m.value.1;
      var k := FirstKeyFor(t.name, 0);
      if k.Some? {
        var d := NextWeekday(today, WeekdayMap[k.value].1, t.when);
        assert WeekdayStrategy(s, today) ==
          if d.None? then Some(DateFailed(DateOutOfRange)) else Some(DateState(d, Consume(s, t.text)));
      }
    }
  }

  /** A strategy that sets the date also removes its matched text, so the working string gets shorter. */
  lemma DateStrategyConsumes(s: string, today: Date)
    requires IsValidDate(today)
    ensures ResolveDate(s, today).DateState? && ResolveDate(s, today).date.Some? ==>
              |ResolveDate(s, today).rest| < |s|
  {
    if IsoStrategy(s).Some? {
      IsoShape(s);
      ConsumeShrinks(s, SearchIso(s).value.1.text, SearchIso(s).value.0);
    } else if MonthDayStrategy(s, today.year).Some? {
      MonthDayShape(s, today.year);
      ConsumeShrinks(s, SearchMonthDay(s).value.1.text, SearchMonthDay(s).value.0);
    } else if RelativeStrategy(s, today).Some? {
      RelativeShape(s, today);
      ConsumeShrinks(s, SearchRelative(s).value.1.text, SearchRelative(s).value.0);
    } else if WeekdayStrategy(s, today).Some? {
      WeekdayShape(s, today);
      ConsumeShrinks(s, SearchWeekday(s).value.1.text, SearchWeekday(s).value.0);
    }
  }

  lemma ConsumeShrinks(s: string, text: string, i: nat)
    requires 0 < |text| && OccursAt(s, text, i)
    ensures |Consume(s, text)| < |s|
  {
    ReplaceAllShrinks(s, text);
  }

  /**
   * `s.replace(text, "").strip()` for a `text` that occurs at `i`: the first
   * occurrence of `text`, at `i` or before it, is cut out, what precedes it is
   * kept, and the later occurrences are cut out of what follows it.
   */
  lemma ConsumeFirst(s: string, text: string, i: nat)
    requires 0 < |text| && OccursAt(s, text, i)
    ensures FindFrom(s, text, 0).Some? && FindFrom(s, text, 0).value <= i
    ensures Consume(s, text) == Strip(ReplaceAll(s, text))
    ensures FindFrom(s, text, 0).value + |text| <= |s|
    ensures ReplaceAll(s, text) ==
            s[..FindFrom(s, text, 0).value] + ReplaceAll(s[FindFrom(s, text, 0).value + |text|..], text)
  {
    var f := FindFrom(s, text, 0);
    if f.None? {
      assert false;
    }
    ReplaceAllAtFirst(s, text, f.value);
  }

  /** An ISO date text that occurs at `j` lays out an ISO date there too. */
  lemma IsoLayoutCopied(s: string, i: nat, j: nat)
    requires IsoLayout(s, i) && OccursAt(s, s[i..i + 10], j)
    ensures IsoLayout(s, j)
  {
    forall k | j <= k < j + 10 ensures if k == j + 4 || k == j + 7 then s[k] == '-' else IsDigit(s[k]) {
      var m := k - j;
      assert s[k] == s[j..j + 10][m] == s[i..i + 10][m] == s[i + m];
    }
  }

  /**
   * The ISO strategy cuts its own match: no copy of the date text comes
   * earlier, since it would have been matched first. (The other strategies
   * may cut an earlier copy of their text: in `"xtoday today 9am"` the copy
   * inside `xtoday` goes.)
   */
  lemma IsoStrategyCutsMatch(s: string)
    requires SearchIso(s).Some?
    ensures FindFrom(s, SearchIso(s).value.1.text, 0) == Some(SearchIso(s).value.0)
  {
    var (i, t) := SearchIso(s).value;
    IsoAtMatches(s, i);
    forall j | 0 <= j < i ensures !OccursAt(s, t.text, j) {
      if OccursAt(s, t.text, j) {
        IsoLayoutCopied(s, i, j);
        IsoAtMatches(s, j);
        assert false;
      }
    }
    FindFromFirst(s, t.text, 0, i);
  }

  /**
   * Once the marker and date steps are done: `None` exactly when no digit
   * (so no `TIME_RE` match) is left; otherwise the date is the one found, or
   * today when no strategy fired, and the time is read from the first
   * `TIME_RE` match: the hour after the meridiem adjustment, the minute of
   * group `m` or 0 without it. An hour or minute out of range raises.
   */
  lemma ParseSpecOutcome(raw: string, today: Date)
    requires IsValidDate(today)
    ensures var st := ResolveDate(Collapse(ZoneHint(Strip(raw)).1), today);
            !AllSpace(raw) && st.DateState? ==>
              (ParseSpec(raw, today) == NoParse <==> forall i :: 0 <= i < |st.rest| ==> !IsDigit(st.rest[i]))
    ensures var st := ResolveDate(Collapse(ZoneHint(Strip(raw)).1), today);
            ParseSpec(raw, today).Parsed? ==>
              st.DateState? && ParseSpec(raw, today).dt.date == (if st.date.Some? then st.date.value else today)
    ensures var st := ResolveDate(Collapse(ZoneHint(Strip(raw)).1), today);
            !AllSpace(raw) && st.DateFailed? ==> ParseSpec(raw, today) == Raised(st.error)
    ensures var st := ResolveDate(Collapse(ZoneHint(Strip(raw)).1), today);
            ParseSpec(raw, today).Parsed? ==>
              SearchTime(st.rest).Some?
              && ParseSpec(raw, today).dt.hour
                 == To24Hour(SearchTime(st.rest).value.1.hour, SearchTime(st.rest).value.1.meridiem)
              && ParseSpec(raw, today).dt.minute
                 == (if SearchTime(st.rest).value.1.minute.None? then 0 else SearchTime(st.rest).value.1.minute.value)
    ensures var st := ResolveDate(Collapse(ZoneHint(Strip(raw)).1), today);
            !AllSpace(raw) && st.DateState? && SearchTime(st.rest).Some? ==>
              var t := SearchTime(st.rest).value.1;
              (ParseSpec(raw, today) == Raised(TimeOutOfRange) <==>
               !(0 <= To24Hour(t.hour, t.meridiem) < 24 && 0 <= (if t.minute.None? then 0 else t.minute.value) < 60))
    ensures var st := ResolveDate(Collapse(ZoneHint(Strip(raw)).1), today);
            !AllSpace(raw) && st.DateState? && SearchTime(st.rest).Some? ==>
              var t := SearchTime(st.rest).value.1;
              0 <= To24Hour(t.hour, t.meridiem) < 24 && 0 <= MinuteOf(t) < 60 ==>
                ParseSpec(raw, today)
                == Parsed(DateTime(if st.date.Some? then st.date.value else today, To24Hour(t.hour, t.meridiem), MinuteOf(t)),
                          ZoneHint(Strip(raw)).0)
  {
  }

  // ---------------------------------------------------------------------------
  // parse_input, step by step
  // ---------------------------------------------------------------------------

  /**
   * The date half of `parse_input`: the four strategies in turn, each tried
   * only while no date has been found, each rebinding the working string
   * after it succeeds. An exception ends the chain.
   */
  method ApplyDateStrategies(s0: string, today: Date) returns (st: DateState)
    requires IsValidDate(today)
    ensures st == ResolveDate(s0, today)
  {
    var s := s0;
    var parsedDate: Option<Date> := None;

    var mIso := SearchIso(s);
    if mIso.Some? {
      var iso := mIso.value.1;
      var d := FromIsoFormat(iso);
      if d.None? {
        return DateFailed(InvalidIsoDate);
      }
      parsedDate := d;
      s := Consume(s, iso.text);
    }
    assert parsedDate.Some? ==> ResolveDate(s0, today) == DateState(parsedDate, s);
    assert parsedDate.None? ==> s == s0 && IsoStrategy(s0).None?;

    if parsedDate.None? {
      var mMd := SearchMonthDay(s);
      if mMd.Some? {
        var d := MonthDayDate(mMd.value.1, today.year);
        if d.Some? {
          parsedDate := d;
          s := Consume(s, mMd.value.1.text);
        }
      }
      assert parsedDate.Some? ==> MonthDayStrategy(s0, today.year) == Some(DateState(parsedDate, s));
      assert parsedDate.None? ==> s == s0 && MonthDayStrategy(s0, today.year).None?;
    }
    assert parsedDate.Some? ==> ResolveDate(s0, today) == DateState(parsedDate, s);
    assert parsedDate.None? ==> s == s0 && ResolveDate(s0, today) == LaterStrategies(s0, today);

    if parsedDate.None? {
      var mRel := SearchRelative(s);
      if mRel.Some? {
        var kw := mRel.value.1.keyword;
        var d: Option<Date>;
        if kw == "today" {
          d := Some(today);
        } else if kw == "tomorrow" {
          d := Shift(today, 1);
        } else {
          d := Shift(today, -1);
        }
        assert d == if kw == "today" then Some(today) else Shift(today, RelativeOffset(kw));
        if d.None? {
          assert RelativeStrategy(s0, today) == Some(DateFailed(DateOutOfRange));
          return DateFailed(DateOutOfRange);
        }
        parsedDate := d;
        s := Consume(s, mRel.value.1.text);
      }
      assert parsedDate.Some? ==> RelativeStrategy(s0, today) == Some(DateState(parsedDate, s));
      assert parsedDate.None? ==> s == s0 && RelativeStrategy(s0, today).None?;
    }

    if parsedDate.None? {
      var mWd := SearchWeekday(s);
      if mWd.Some? {
        var wd := mWd.value.1;
        var wdKey := LookupWeekdayKey(wd.name);
        if wdKey.Some? {
          var d := NextWeekday(today, WeekdayMap[wdKey.value].1, wd.when);
          if d.None? {
            assert WeekdayStrategy(s0, today) == Some(DateFailed(DateOutOfRange));
            return DateFailed(DateOutOfRange);
          }
          parsedDate := d;
          s := Consume(s, wd.text);
        }
      }
      assert parsedDate.Some? ==> WeekdayStrategy(s0, today) == Some(DateState(parsedDate, s));
      assert parsedDate.None? ==> s == s0 && WeekdayStrategy(s0, today).None?;
    }
    st := DateState(parsedDate, s);
  }

  /**
   * `parse_input(raw)`: `None` for no input; otherwise strips, takes the
   * zone marker out of the working string `s`, collapses whitespace, runs
   * the date strategies, then reads the clock time and combines it with the
   * date found or with today.
   */
  method ParseInput(input: Option<string>, today: Date) returns (r: Parse)
    requires IsValidDate(today)
    ensures input.None? ==> r == NoParse
    ensures input.Some? ==> r == ParseSpec(input.value, today)
    ensures input.Some? && AllSpace(input.value) ==> r == NoParse
    ensures r.Parsed? ==> IsValidDateTime(r.dt)
    ensures r.Parsed? ==> (r.hint == Some(ET) <==> FindMarker(Strip(input.value), ET).Some?)
    ensures r.Parsed? ==> (r.hint == Some(AWST) <==>
                           FindMarker(Strip(input.value), ET).None? && FindMarker(Strip(input.value), AWST).Some?)
  {
    if input.None? {
      return NoParse;
    }
    var raw := input.value;
    ParseSpecFacts(raw, today);
    var s := Strip(raw);
    if s == [] {
      return NoParse;
    }

    var srcZone: Option<Zone> := None;
    if FindMarker(s, ET).Some? {
      srcZone := Some(ET);
      s := RemoveMarkers(s, ET);
    } else if FindMarker(s, AWST).Some? {
      srcZone := Some(AWST);
      s := RemoveMarkers(s, AWST);
    }
    assert ZoneHint(Strip(raw)) == (srcZone, s);
    s := Collapse(s);
    assert ParseSpec(raw, today) == FinishParse(ResolveDate(s, today), srcZone, today);

    var dated := ApplyDateStrategies(s, today);
    if dated.DateFailed? {
      return Raised(dated.error);
    }
    assert ParseSpec(raw, today) == FinishTime(SearchTime(dated.rest), dated.date, srcZone, today);
    r := ReadTime(dated.rest, dated.date, srcZone, today);
  }

  /**
   * The time half of `parse_input`: `TIME_RE` on the working string, the
   * 12-hour adjustment, the default date, and `time(hour, minute)`, which
   * raises for an hour or minute out of range.
   */
  method ReadTime(s: string, date: Option<Date>, srcZone: Option<Zone>, today: Date) returns (r: Parse)
    ensures r == FinishTime(SearchTime(s), date, srcZone, today)
  {
    var parsedDate := date;
    var mTime := SearchTime(s);
    if mTime.None? {
      return NoParse;
    }
    var t := mTime.value.1;
    var hour := t.hour;
    var minute := MinuteOf(t);
    if t.meridiem.Some? {
      if t.meridiem == Some(PM) && hour < 12 {
        hour := hour + 12;
      }
      if t.meridiem == Some(AM) && hour == 12 {
        hour := 0;
      }
    }

    if parsedDate.None? {
      parsedDate := Some(today);
    }

    if !(0 <= hour < 24 && 0 <= minute < 60) {
      return Raised(TimeOutOfRange);
    }
    r := Parsed(DateTime(parsedDate.value, hour, minute), srcZone);
  }
}
