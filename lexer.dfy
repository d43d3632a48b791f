/**
 * The program's regular expressions. Each pattern becomes a recogniser that
 * says what the pattern matches when the match starts at position `i`;
 * `re.search` is the leftmost start position at which it matches, and
 * `re.sub(pattern, "", s)` is `RemoveMarkers`.
 */
module Lexer {
  import opened Wrappers
  import opened Text
  import opened Calendar
  import opened Zones

  // ---------------------------------------------------------------------------
  // re.search and the pieces every pattern shares
  // ---------------------------------------------------------------------------

  /** The first position in `i..n-1` at which `at` matches, with what it matched there. */
  function Leftmost<T>(at: nat -> Option<T>, i: nat, n: nat): (r: Option<(nat, T)>)
    ensures r.Some? ==> i <= r.value.0 < n && at(r.value.0) == Some(r.value.1)
    ensures r.Some? ==> forall j :: i <= j < r.value.0 ==> at(j).None?
    ensures r.None? ==> forall j :: i <= j < n ==> at(j).None?
    decreases n - i
  {
    if i >= n then None
    else match at(i)
      case Some(x) => Some((i, x))
      case None => Leftmost(at, i + 1, n)
  }

  /** `\b` in front of a word character at `i`. */
  predicate WordStart(s: string, i: nat) {
    i == 0 || (i <= |s| && !IsWordChar(s[i - 1]))
  }

  /** `\b` after a word character that ends at `i`. */
  predicate WordEnd(s: string, i: nat) {
    i >= |s| || !IsWordChar(s[i])
  }

  /** `s[i..]` starts with `w` when case is ignored (`w` is written in lower case). */
  predicate LowerMatchAt(s: string, i: nat, w: string) {
    i + |w| <= |s| && LowerString(s[i..i + |w|]) == w
  }

  /** The literal `w` of an IGNORECASE alternation matches at `i` and a `\b` follows it. */
  predicate WordAt(s: string, i: nat, w: string) {
    LowerMatchAt(s, i, w) && WordEnd(s, i + |w|)
  }

  /**
   * `(w0|w1|...)\b` at `i`: the regex engine tries the alternatives in order
   * and keeps the first one after which `\b` holds.
   */
  function FirstWordAt(s: string, i: nat, alts: seq<string>, k: nat): (r: Option<nat>)
    ensures r.Some? ==> k <= r.value < |alts| && WordAt(s, i, alts[r.value])
    ensures r.Some? ==> forall j :: k <= j < r.value ==> !WordAt(s, i, alts[j])
    ensures r.None? ==> forall j :: k <= j < |alts| ==> !WordAt(s, i, alts[j])
    decreases |alts| - k
  {
    if k >= |alts| then None
    else if WordAt(s, i, alts[k]) then Some(k)
    else FirstWordAt(s, i, alts, k + 1)
  }

  /** `\s*` from `i`: the first position at or after `i` that is not whitespace. */
  function SkipSpaces(s: string, i: nat): (j: nat)
    ensures i <= j && (j <= |s| || j == i)
    ensures forall k :: i <= k < j ==> IsSpace(s[k])
    ensures j < |s| ==> !IsSpace(s[j])
    decreases |s| - i
  {
    if i < |s| && IsSpace(s[i]) then SkipSpaces(s, i + 1) else i
  }

  /** Where a greedy `\d{1,2}` that starts at the digit `s[k]` ends. */
  function DigitsEnd(s: string, k: nat): (e: nat)
    requires k < |s| && IsDigit(s[k])
    ensures k < e <= k + 2 && e <= |s| && AllDigits(s[k..e])
    ensures e == k + 2 <==> k + 1 < |s| && IsDigit(s[k + 1])
  {
    if k + 1 < |s| && IsDigit(s[k + 1]) then k + 2 else k + 1
  }

  // ---------------------------------------------------------------------------
  // ET_MARKERS and AWST_MARKERS
  // ---------------------------------------------------------------------------

  const EtMarkers: seq<string> := ["eastern", "et", "est", "edt", "america/new_york"]

  const AwstMarkers: seq<string> := ["awst", "perth", "australia/perth"]

  /** The marker alternation of a zone, lower-cased. */
  function Markers(z: Zone): (alts: seq<string>)
    ensures forall k :: 0 <= k < |alts| ==> |alts[k]| >= 2
  {
    if z == ET then EtMarkers else AwstMarkers
  }

  /** The alternative of `\b(...)\b` for zone `z` that matches at `i`. */
  function MarkerAt(s: string, i: nat, z: Zone): (r: Option<nat>)
    ensures r.Some? ==> r.value < |Markers(z)| && WordStart(s, i) && WordAt(s, i, Markers(z)[r.value])
    ensures r.None? && WordStart(s, i) ==> forall k :: 0 <= k < |Markers(z)| ==> !WordAt(s, i, Markers(z)[k])
  {
    if WordStart(s, i) then FirstWordAt(s, i, Markers(z), 0) else None
  }

  /** `ET_MARKERS.search(s)` / `AWST_MARKERS.search(s)`. */
  function FindMarker(s: string, z: Zone): Option<(nat, nat)>
  {
    Leftmost((i: nat) => MarkerAt(s, i, z), 0, |s|)
  }

  /** The length of the marker `\b(...)\b` matches at `j`, or 0 where none does. */
  function MarkerLength(s: string, z: Zone, j: nat): (n: nat)
    ensures n > 0 <==> MarkerAt(s, j, z).Some?
    ensures MarkerAt(s, j, z).Some? ==> n == |Markers(z)[MarkerAt(s, j, z).value]|
  {
    match MarkerAt(s, j, z)
    case Some(k) => |Markers(z)[k]|
    case None => 0
  }

  function MarkerLengths(s: string, z: Zone): nat -> nat
  {
    (j: nat) => MarkerLength(s, z, j)
  }

  /**
   * `re.sub(pattern, "", s)` scanning from `i`, for a pattern whose match at
   * `j` has length `len(j)` (0 where it does not match): a match is skipped
   * and the scan goes on after it; elsewhere the character is kept.
   */
  function CutFrom(s: string, len: nat -> nat, i: nat): string
    decreases |s| - i
  {
    if i >= |s| then []
    else if len(i) > 0 then CutFrom(s, len, i + len(i))
    else [s[i]] + CutFrom(s, len, i + 1)
  }

  /** `ET_MARKERS.sub("", s)` / `AWST_MARKERS.sub("", s)`. */
  function RemoveMarkers(s: string, z: Zone): string
  {
    CutFrom(s, MarkerLengths(s, z), 0)
  }

  // ---------------------------------------------------------------------------
  // ISO_DATE_RE
  // ---------------------------------------------------------------------------

  /** A match of `ISO_DATE_RE`: its text and the numbers in its three fields. */
  datatype IsoToken = IsoToken(text: string, year: int, month: int, day: int)

  /** `\d{4}-\d{2}-\d{2}` at `i`: ten characters, all digits but a `-` in the fifth and the eighth. */
  predicate IsoLayout(s: string, i: nat) {
    i + 10 <= |s| && forall k :: i <= k < i + 10 ==> if k == i + 4 || k == i + 7 then s[k] == '-' else IsDigit(s[k])
  }

  /** A stretch of the ISO layout that covers neither dash holds only digits. */
  lemma LayoutDigits(s: string, i: nat, a: nat, b: nat)
    requires IsoLayout(s, i) && a <= b <= 10 && !(a <= 4 < b) && !(a <= 7 < b)
    ensures AllDigits(s[i + a..i + b])
  {
    var f := s[i + a..i + b];
    forall k | 0 <= k < |f| ensures IsDigit(f[k]) {
      assert f[k] == s[i + a + k];
    }
  }

  /** `ISO_DATE_RE` at `i`: the ISO layout there, read as three decimal fields. */
  function IsoAt(s: string, i: nat): (r: Option<IsoToken>)
    ensures r.Some? ==> i + 10 <= |s| && r.value.text == s[i..i + 10]
  {
    if i + 10 <= |s| && AllDigits(s[i..i + 4]) && s[i + 4] == '-' && AllDigits(s[i + 5..i + 7])
      && s[i + 7] == '-' && AllDigits(s[i + 8..i + 10])
    then
      Some(IsoToken(s[i..i + 10], DecimalValue(s[i..i + 4]), DecimalValue(s[i + 5..i + 7]),
                    DecimalValue(s[i + 8..i + 10])))
    else None
  }

  /** `ISO_DATE_RE` matches at `i` exactly on the ISO layout, and reads the three fields as decimal numbers. */
  lemma IsoAtMatches(s: string, i: nat)
    ensures IsoAt(s, i).Some? <==> IsoLayout(s, i)
    ensures IsoAt(s, i).Some? ==>
              i + 10 <= |s| && AllDigits(s[i..i + 4]) && AllDigits(s[i + 5..i + 7]) && AllDigits(s[i + 8..i + 10])
              && IsoAt(s, i).value.year == DecimalValue(s[i..i + 4])
              && IsoAt(s, i).value.month == DecimalValue(s[i + 5..i + 7])
              && IsoAt(s, i).value.day == DecimalValue(s[i + 8..i + 10])
  {
    if IsoLayout(s, i) {
      assert s[i + 4] == '-' && s[i + 7] == '-';
      LayoutDigits(s, i, 0, 4);
      LayoutDigits(s, i, 5, 7);
      LayoutDigits(s, i, 8, 10);
    }
    if IsoAt(s, i).Some? {
      forall k | i <= k < i + 10 && k != i + 4 && k != i + 7 ensures IsDigit(s[k]) {
        if k < i + 4 { assert s[k] == s[i..i + 4][k - i]; }
        else if k < i + 7 { assert s[k] == s[i + 5..i + 7][k - i - 5]; }
        else { assert s[k] == s[i + 8..i + 10][k - i - 8]; }
      }
    }
  }

  /** `ISO_DATE_RE.search(s)`: the leftmost match, with its start. */
  function SearchIso(s: string): (r: Option<(nat, IsoToken)>)
    ensures r.Some? ==> r.value.0 < |s| && IsoAt(s, r.value.0) == Some(r.value.1)
    ensures r.Some? ==> forall j :: 0 <= j < r.value.0 ==> IsoAt(s, j).None?
    ensures r.None? ==> forall j :: 0 <= j < |s| ==> IsoAt(s, j).None?
  {
    var at := (i: nat) => IsoAt(s, i);
    var r := Leftmost(at, 0, |s|);
    assert r.Some? ==> forall j :: 0 <= j < r.value.0 ==> IsoAt(s, j).None? by {
      if r.Some? {
        forall j | 0 <= j < r.value.0 ensures IsoAt(s, j).None? { assert at(j).None?; }
      }
    }
    assert r.None? ==> forall j :: 0 <= j < |s| ==> IsoAt(s, j).None? by {
      if r.None? {
        forall j | 0 <= j < |s| ensures IsoAt(s, j).None? { assert at(j).None?; }
      }
    }
    r
  }

  /** `datetime.fromisoformat(text).date()`; `None` where it raises `ValueError`. */
  function FromIsoFormat(t: IsoToken): (r: Option<Date>)
    ensures r.Some? <==> IsValidDate(Date(t.year, t.month, t.day))
    ensures r.Some? ==> r.value == Date(t.year, t.month, t.day)
  {
    var d := Date(t.year, t.month, t.day);
    if IsValidDate(d) then Some(d) else None
  }

  // ---------------------------------------------------------------------------
  // MONTHDAY_RE
  // ---------------------------------------------------------------------------

  /** A match of `MONTHDAY_RE`: all of its text, group `mon` and the number in group `day`. */
  datatype MonthDayToken = MonthDayToken(text: string, name: string, day: int)

  /** The number of ASCII letters from `i` on. */
  function LetterRun(s: string, i: nat): (n: nat)
    ensures i + n <= |s| || n == 0
    ensures forall k :: i <= k < i + n ==> IsAsciiLetter(s[k])
    ensures i + n < |s| ==> !IsAsciiLetter(s[i + n])
    decreases |s| - i
  {
    if i < |s| && IsAsciiLetter(s[i]) then 1 + LetterRun(s, i + 1) else 0
  }

  /** Where `\.?\s*` leaves off after the letters that end at `j`. */
  function DayStart(s: string, j: nat): nat
  {
    SkipSpaces(s, if j < |s| && s[j] == '.' then j + 1 else j)
  }

  /**
   * `[A-Za-z]{3,9}\.?\s*\d{1,2}` at `i`. The letters must be the whole run of
   * letters at `i`: fewer would leave a letter where `.`, a space or a digit
   * is needed, so backtracking never helps.
   */
  function MonthDayAt(s: string, i: nat): (r: Option<MonthDayToken>)
    ensures r.Some? ==> 3 <= |r.value.name| <= 9 && 0 < |r.value.text| && i + |r.value.text| <= |s|
    ensures r.Some? ==> r.value.text == s[i..i + |r.value.text|]
    ensures r.Some? ==> 0 <= r.value.day <= 99
  {
    var n := LetterRun(s, i);
    if n < 3 || n > 9 then None
    else
      var k := DayStart(s, i + n);
      if k < |s| && IsDigit(s[k]) then
        var e := DigitsEnd(s, k);
        Some(MonthDayToken(s[i..e], s[i..i + n], DecimalValue(s[k..e])))
      else None
  }

  /**
   * `MONTHDAY_RE` matches at `i` exactly when the run of letters there has 3
   * to 9 letters and a digit follows the optional dot and the spaces; group
   * `mon` is the run, and group `day` the one or two digits there.
   */
  lemma MonthDayAtMatches(s: string, i: nat)
    ensures var n := LetterRun(s, i); var k := DayStart(s, i + n);
            MonthDayAt(s, i).Some? <==> 3 <= n <= 9 && k < |s| && IsDigit(s[k])
    ensures var n := LetterRun(s, i); var k := DayStart(s, i + n);
            MonthDayAt(s, i).Some? ==>
              k < |s| && IsDigit(s[k]) && MonthDayAt(s, i).value.name == s[i..i + n]
              && MonthDayAt(s, i).value.text == s[i..DigitsEnd(s, k)]
              && MonthDayAt(s, i).value.day == DecimalValue(s[k..DigitsEnd(s, k)])
  {
  }

  /** `MONTHDAY_RE.search(s)`: the leftmost match, with its start. */
  function SearchMonthDay(s: string): (r: Option<(nat, MonthDayToken)>)
    ensures r.Some? ==> r.value.0 < |s| && MonthDayAt(s, r.value.0) == Some(r.value.1)
    ensures r.Some? ==> forall j :: 0 <= j < r.value.0 ==> MonthDayAt(s, j).None?
    ensures r.None? ==> forall j :: 0 <= j < |s| ==> MonthDayAt(s, j).None?
  {
    var at := (i: nat) => MonthDayAt(s, i);
    var r := Leftmost(at, 0, |s|);
    assert r.Some? ==> forall j :: 0 <= j < r.value.0 ==> MonthDayAt(s, j).None? by {
      if r.Some? {
        forall j | 0 <= j < r.value.0 ensures MonthDayAt(s, j).None? { assert at(j).None?; }
      }
    }
    assert r.None? ==> forall j :: 0 <= j < |s| ==> MonthDayAt(s, j).None? by {
      if r.None? {
        forall j | 0 <= j < |s| ensures MonthDayAt(s, j).None? { assert at(j).None?; }
      }
    }
    r
  }

  /** `name[:3]`. */
  function Prefix3(name: string): string
  {
    if |name| <= 3 then name else name[..3]
  }

  /**
   * `date(year, strptime(name[:3], "%b").month, day)`, or `None` where either
   * call raises.
   */
  function MonthDayDate(t: MonthDayToken, year: int): (r: Option<Date>)
    ensures r.Some? ==> IsValidDate(r.value) && r.value.year == year && r.value.day == t.day
    ensures r.Some? ==> LowerString(Prefix3(t.name)) == LowerString(MonthAbbreviations[r.value.month - 1])
    ensures r.None? <==> MonthFromAbbreviation(Prefix3(t.name)).None?
                         || !IsValidDate(Date(year, MonthFromAbbreviation(Prefix3(t.name)).value, t.day))
  {
    match MonthFromAbbreviation(Prefix3(t.name))
    case None => None
    case Some(m) =>
      var d := Date(year, m, t.day);
      if IsValidDate(d) then Some(d) else None
  }

  // ---------------------------------------------------------------------------
  // RELATIVE_RE
  // ---------------------------------------------------------------------------

  const RelativeWords: seq<string> := ["today", "tomorrow", "yesterday"]

  /** A match of `RELATIVE_RE`: its text and the keyword in lower case. */
  datatype RelativeToken = RelativeToken(text: string, keyword: string)

  /** `\b(today|tomorrow|yesterday)\b` at `i`, ignoring case. */
  function RelativeAt(s: string, i: nat): (r: Option<RelativeToken>)
    ensures r.Some? ==> r.value.keyword in RelativeWords && WordStart(s, i)
    ensures r.Some? ==> 0 < |r.value.text| && i + |r.value.text| <= |s| && r.value.text == s[i..i + |r.value.text|]
    ensures r.Some? ==> LowerString(r.value.text) == r.value.keyword
  {
    if !WordStart(s, i) then None
    else match FirstWordAt(s, i, RelativeWords, 0)
      case None => None
      case Some(k) => Some(RelativeToken(s[i..i + |RelativeWords[k]|], RelativeWords[k]))
  }

  /**
   * At a word start `RELATIVE_RE` matches exactly when one of the keywords
   * does, with `\b` after it, and takes just that keyword.
   */
  lemma RelativeAtMatches(s: string, i: nat)
    ensures RelativeAt(s, i).Some? ==> var w := RelativeAt(s, i).value.keyword;
              WordAt(s, i, w) && i + |w| <= |s| && RelativeAt(s, i).value.text == s[i..i + |w|]
    ensures RelativeAt(s, i).None? && WordStart(s, i) ==>
              forall k :: 0 <= k < |RelativeWords| ==> !WordAt(s, i, RelativeWords[k])
  {
  }

  /** `RELATIVE_RE.search(s)`: the leftmost match, with its start. */
  function SearchRelative(s: string): (r: Option<(nat, RelativeToken)>)
    ensures r.Some? ==> r.value.0 < |s| && RelativeAt(s, r.value.0) == Some(r.value.1)
    ensures r.Some? ==> forall j :: 0 <= j < r.value.0 ==> RelativeAt(s, j).None?
    ensures r.None? ==> forall j :: 0 <= j < |s| ==> RelativeAt(s, j).None?
  {
    var at := (i: nat) => RelativeAt(s, i);
    var r := Leftmost(at, 0, |s|);
    assert r.Some? ==> forall j :: 0 <= j < r.value.0 ==> RelativeAt(s, j).None? by {
      if r.Some? {
        forall j | 0 <= j < r.value.0 ensures RelativeAt(s, j).None? { assert at(j).None?; }
      }
    }
    assert r.None? ==> forall j :: 0 <= j < |s| ==> RelativeAt(s, j).None? by {
      if r.None? {
        forall j | 0 <= j < |s| ensures RelativeAt(s, j).None? { assert at(j).None?; }
      }
    }
    r
  }

  // ---------------------------------------------------------------------------
  // WEEKDAY_RE
  // ---------------------------------------------------------------------------

  const WeekdayNames: seq<string> :=
    ["mon", "monday", "tue", "tues", "tuesday", "wed", "wednesday", "thu", "thur", "thurs",
     "thursday", "fri", "friday", "sat", "saturday", "sun", "sunday"]

  /** A match of `WEEKDAY_RE`: its text, group 1 (lower-cased) and group 2 (lower-cased). */
  datatype WeekdayToken = WeekdayToken(text: string, when: Option<Qualifier>, name: string)

  /** `this` or `next` at `i`, ignoring case. */
  function QualifierAt(s: string, i: nat): (r: Option<Qualifier>)
    ensures r == Some(This) <==> LowerMatchAt(s, i, "this")
    ensures r == Some(Next) <==> LowerMatchAt(s, i, "next")
  {
    if LowerMatchAt(s, i, "this") then Some(This)
    else if LowerMatchAt(s, i, "next") then Some(Next)
    else None
  }

  /** The branch of `\b(?:(this|next)\s+)?(names)\b` that takes the qualifier. */
  function QualifiedWeekdayAt(s: string, i: nat): (r: Option<WeekdayToken>)
    ensures r.Some? ==> r.value.when.Some? && r.value.name in WeekdayNames
    ensures r.Some? ==> 0 < |r.value.text| && i + |r.value.text| <= |s| && r.value.text == s[i..i + |r.value.text|]
  {
    match QualifierAt(s, i)
    case None => None
    case Some(q) =>
      if i + 4 < |s| && IsSpace(s[i + 4]) then
        var j := SkipSpaces(s, i + 4);
        match FirstWordAt(s, j, WeekdayNames, 0)
        case None => None
        case Some(k) => Some(WeekdayToken(s[i..j + |WeekdayNames[k]|], Some(q), WeekdayNames[k]))
      else None
  }

  /**
   * The qualified branch takes `this` or `next`, at least one whitespace
   * character, then a weekday name with `\b` after it. Every name starts with
   * a letter, so `\s+` takes the whole run of whitespace.
   */
  lemma QualifiedWeekdayAtMatches(s: string, i: nat)
    ensures var r := QualifiedWeekdayAt(s, i);
            r.Some? ==> r.value.when == QualifierAt(s, i) && i + 4 < |s| && IsSpace(s[i + 4])
                        && WordAt(s, SkipSpaces(s, i + 4), r.value.name)
                        && r.value.text == s[i..SkipSpaces(s, i + 4) + |r.value.name|]
    ensures QualifiedWeekdayAt(s, i).None? ==>
              QualifierAt(s, i).None? || !(i + 4 < |s| && IsSpace(s[i + 4]))
              || forall k :: 0 <= k < |WeekdayNames| ==> !WordAt(s, SkipSpaces(s, i + 4), WeekdayNames[k])
  {
  }

  /**
   * `\b(?:(this|next)\s+)?(mon|monday|...|sunday)\b` at `i`, ignoring case.
   * The optional group is tried first; only when it cannot lead to a match
   * does the engine try the weekday name at `i` itself.
   */
  function WeekdayAt(s: string, i: nat): (r: Option<WeekdayToken>)
    ensures r.Some? ==> r.value.name in WeekdayNames && WordStart(s, i)
    ensures r.Some? ==> 0 < |r.value.text| && i + |r.value.text| <= |s| && r.value.text == s[i..i + |r.value.text|]
    ensures r.Some? && r.value.when.None? ==> LowerString(r.value.text) == r.value.name
  {
    if !WordStart(s, i) then None
    else match QualifiedWeekdayAt(s, i)
      case Some(t) => Some(t)
      case None =>
        match FirstWordAt(s, i, WeekdayNames, 0)
        case None => None
        case Some(k) => Some(WeekdayToken(s[i..i + |WeekdayNames[k]|], None, WeekdayNames[k]))
  }

  /**
   * At a word start the qualified branch decides when it matches; otherwise
   * `WEEKDAY_RE` matches exactly when a weekday name does, and takes it alone.
   */
  lemma WeekdayAtMatches(s: string, i: nat)
    ensures var r := WeekdayAt(s, i);
            r.Some? && r.value.when.Some? ==> r == QualifiedWeekdayAt(s, i)
    ensures var r := WeekdayAt(s, i);
            r.Some? && r.value.when.None? ==>
              QualifiedWeekdayAt(s, i).None? && WordAt(s, i, r.value.name) && r.value.text == s[i..i + |r.value.name|]
    ensures WeekdayAt(s, i).None? && WordStart(s, i) ==>
              QualifiedWeekdayAt(s, i).None? && forall k :: 0 <= k < |WeekdayNames| ==> !WordAt(s, i, WeekdayNames[k])
  {
  }

  /** `WEEKDAY_RE.search(s)`: the leftmost match, with its start. */
  function SearchWeekday(s: string): (r: Option<(nat, WeekdayToken)>)
    ensures r.Some? ==> r.value.0 < |s| && WeekdayAt(s, r.value.0) == Some(r.value.1)
    ensures r.Some? ==> forall j :: 0 <= j < r.value.0 ==> WeekdayAt(s, j).None?
    ensures r.None? ==> forall j :: 0 <= j < |s| ==> WeekdayAt(s, j).None?
  {
    var at := (i: nat) => WeekdayAt(s, i);
    var r := Leftmost(at, 0, |s|);
    assert r.Some? ==> forall j :: 0 <= j < r.value.0 ==> WeekdayAt(s, j).None? by {
      if r.Some? {
        forall j | 0 <= j < r.value.0 ensures WeekdayAt(s, j).None? { assert at(j).None?; }
      }
    }
    assert r.None? ==> forall j :: 0 <= j < |s| ==> WeekdayAt(s, j).None? by {
      if r.None? {
        forall j | 0 <= j < |s| ensures WeekdayAt(s, j).None? { assert at(j).None?; }
      }
    }
    r
  }

  // ---------------------------------------------------------------------------
  // TIME_RE
  // ---------------------------------------------------------------------------

  datatype Meridiem = AM | PM

  /** A match of `TIME_RE`: group `h`, group `m` if present, group `ampm` if present. */
  datatype TimeToken = TimeToken(hour: int, minute: Option<int>, meridiem: Option<Meridiem>)

  /** `am|pm|AM|PM` at `k`: mixed case such as `Pm` is not a meridiem. */
  function MeridiemAt(s: string, k: nat): (r: Option<Meridiem>)
    ensures r == Some(AM) <==> k + 2 <= |s| && (s[k..k + 2] == "am" || s[k..k + 2] == "AM")
    ensures r == Some(PM) <==> k + 2 <= |s| && (s[k..k + 2] == "pm" || s[k..k + 2] == "PM")
  {
    if k + 2 <= |s| then
      var w := s[k..k + 2];
      if w == "am" || w == "AM" then Some(AM)
      else if w == "pm" || w == "PM" then Some(PM)
      else None
    else None
  }

  /** Two digits in a row make a string of digits. */
  lemma PairDigits(s: string, p: nat)
    requires p + 1 < |s| && IsDigit(s[p]) && IsDigit(s[p + 1])
    ensures AllDigits(s[p..p + 2])
  {
    assert s[p..p + 2] == [s[p], s[p + 1]];
  }

  /** `(?P<h>\d{1,2})(?::(?P<m>\d{2}))?\s*(?P<ampm>am|pm|AM|PM)?` at `i`: it matches at every digit. */
  function TimeAt(s: string, i: nat): (r: Option<TimeToken>)
    ensures r.Some? <==> i < |s| && IsDigit(s[i])
    ensures r.Some? ==> 0 <= r.value.hour <= 99
    ensures r.Some? && r.value.minute.Some? ==> 0 <= r.value.minute.value <= 99
  {
    if i >= |s| || !IsDigit(s[i]) then None
    else
      var j := DigitsEnd(s, i);
      var hasMinute := j + 2 < |s| && s[j] == ':' && IsDigit(s[j + 1]) && IsDigit(s[j + 2]);
      var k := if hasMinute then j + 3 else j;
      if hasMinute then
        PairDigits(s, j + 1);
        Some(TimeToken(DecimalValue(s[i..j]), Some(DecimalValue(s[j + 1..j + 3])), MeridiemAt(s, SkipSpaces(s, k))))
      else
        Some(TimeToken(DecimalValue(s[i..j]), None, MeridiemAt(s, SkipSpaces(s, k))))
  }

  /**
   * The groups of a `TIME_RE` match at `i`: `h` is the one or two digits
   * there, `m` the two digits after a `:` that follows them, if any, and
   * `ampm` a meridiem after the spaces that come next, if any.
   */
  lemma TimeAtMatches(s: string, i: nat)
    ensures TimeAt(s, i).Some? ==> i < |s| && IsDigit(s[i])
    ensures TimeAt(s, i).Some? ==> TimeAt(s, i).value.hour == DecimalValue(s[i..DigitsEnd(s, i)])
    ensures TimeAt(s, i).Some? ==> var j := DigitsEnd(s, i);
              (TimeAt(s, i).value.minute.Some? <==> j + 2 < |s| && s[j] == ':' && IsDigit(s[j + 1]) && IsDigit(s[j + 2]))
    ensures TimeAt(s, i).Some? && TimeAt(s, i).value.minute.Some? ==> var j := DigitsEnd(s, i);
              j + 3 <= |s| && AllDigits(s[j + 1..j + 3]) && TimeAt(s, i).value.minute.value == DecimalValue(s[j + 1..j + 3])
    ensures TimeAt(s, i).Some? ==> var j := DigitsEnd(s, i);
              TimeAt(s, i).value.meridiem == MeridiemAt(s, SkipSpaces(s, if TimeAt(s, i).value.minute.Some? then j + 3 else j))
  {
    if TimeAt(s, i).Some? {
      var j := DigitsEnd(s, i);
      var h := DecimalValue(s[i..j]);
      if j + 2 < |s| && s[j] == ':' && IsDigit(s[j + 1]) && IsDigit(s[j + 2]) {
        PairDigits(s, j + 1);
        assert TimeAt(s, i) == Some(TimeToken(h, Some(DecimalValue(s[j + 1..j + 3])), MeridiemAt(s, SkipSpaces(s, j + 3))));
      } else {
        assert TimeAt(s, i) == Some(TimeToken(h, None, MeridiemAt(s, SkipSpaces(s, j))));
      }
    }
  }

  /** `TIME_RE.search(s)`: there is a clock-time token exactly when `s` holds a digit, and it starts at the first one. */
  function SearchTime(s: string): (r: Option<(nat, TimeToken)>)
    ensures r.None? <==> forall i :: 0 <= i < |s| ==> !IsDigit(s[i])
    ensures r.Some? ==> r.value.0 < |s| && IsDigit(s[r.value.0]) && TimeAt(s, r.value.0) == Some(r.value.1)
    ensures r.Some? ==> forall i :: 0 <= i < r.value.0 ==> !IsDigit(s[i])
  {
    var at := (i: nat) => TimeAt(s, i);
    var r := Leftmost(at, 0, |s|);
    assert r.Some? ==> forall i :: 0 <= i < r.value.0 ==> !IsDigit(s[i]) by {
      if r.Some? {
        forall i | 0 <= i < r.value.0 ensures !IsDigit(s[i]) { assert at(i).None?; }
      }
    }
    assert r.None? ==> forall i :: 0 <= i < |s| ==> !IsDigit(s[i]) by {
      if r.None? {
        forall i | 0 <= i < |s| ensures !IsDigit(s[i]) { assert at(i).None?; }
      }
    }
    r
  }

  /**
   * The hour after the program's meridiem adjustment: `pm` adds 12 to hours
   * below 12, `am` turns 12 into 0, and every other hour is kept.
   */
  function To24Hour(hour: int, meridiem: Option<Meridiem>): (h: int)
  {
    if meridiem == Some(PM) && hour < 12 then hour + 12
    else if meridiem == Some(AM) && hour == 12 then 0
    else hour
  }
}
