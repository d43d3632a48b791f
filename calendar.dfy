/**
 * The proleptic Gregorian calendar of Python's `date`/`datetime`, the part of
 * `timedelta` arithmetic the converter uses, and `next_weekday`.
 */
module Calendar {
  import opened Wrappers
  import opened Text

  datatype Date = Date(year: int, month: int, day: int)

  /** A naive `datetime` at minute precision (seconds are always 0 here). */
  datatype DateTime = DateTime(date: Date, hour: int, minute: int)

  const MinYear := 1
  const MaxYear := 9999
  /** `date.max.toordinal()`, the ordinal of 9999-12-31. */
  const MaxOrdinal := 3652059

  predicate IsLeapYear(y: int) { y % 4 == 0 && (y % 100 != 0 || y % 400 == 0) }

  function DaysInYear(y: int): int { if IsLeapYear(y) then 366 else 365 }

  function DaysInMonth(y: int, m: int): (n: int)
    requires 1 <= m <= 12
    ensures 28 <= n <= 31
  {
    if m == 2 then (if IsLeapYear(y) then 29 else 28)
    else if m == 4 || m == 6 || m == 9 || m == 11 then 30
    else 31
  }

  /** Month and day are in range; the year may be any integer. */
  predicate WellFormed(d: Date) {
    1 <= d.month <= 12 && 1 <= d.day <= DaysInMonth(d.year, d.month)
  }

  /** A date Python's `date` type accepts: `date(y, m, d)` raises `ValueError` otherwise. */
  predicate IsValidDate(d: Date) {
    WellFormed(d) && MinYear <= d.year <= MaxYear
  }

  /** What `time(hour, minute)` accepts, on top of a valid date. */
  predicate IsValidDateTime(dt: DateTime) {
    IsValidDate(dt.date) && 0 <= dt.hour < 24 && 0 <= dt.minute < 60
  }

  type ValidDateTime = dt: DateTime | IsValidDateTime(dt) witness DateTime(Date(1, 1, 1), 0, 0)

  // ---------------------------------------------------------------------------
  // Ordinals
  // ---------------------------------------------------------------------------

  /** Days in the years before `y` (Python's `_days_before_year`). */
  function DaysBeforeYear(y: int): int {
    var p := y - 1;
    365 * p + p / 4 - p / 100 + p / 400
  }

  /** Days in the months of year `y` before month `m`. */
  function DaysBeforeMonth(y: int, m: int): int
    requires 1 <= m <= 13
  {
    if m == 1 then 0 else DaysBeforeMonth(y, m - 1) + DaysInMonth(y, m - 1)
  }

  /** `date.toordinal()`: 0001-01-01 is day 1. */
  function Ordinal(d: Date): int
    requires WellFormed(d)
  {
    DaysBeforeYear(d.year) + DaysBeforeMonth(d.year, d.month) + d.day
  }

  /** `date.weekday()`: Monday is 0 and Sunday is 6. */
  function Weekday(d: Date): (w: int)
    requires WellFormed(d)
    ensures 0 <= w < 7
  {
    (Ordinal(d) + 6) % 7
  }

  /** The leap-year counts in `DaysBeforeYear` step by one exactly at multiples. */
  lemma DivisorSteps(y: int)
    ensures y / 4 - (y - 1) / 4 == if y % 4 == 0 then 1 else 0
    ensures y / 100 - (y - 1) / 100 == if y % 100 == 0 then 1 else 0
    ensures y / 400 - (y - 1) / 400 == if y % 400 == 0 then 1 else 0
    ensures y % 400 == 0 ==> y % 100 == 0
    ensures y % 100 == 0 ==> y % 4 == 0
  {
  }

  /** Consecutive years differ by that year's length. */
  lemma YearLength(y: int)
    ensures DaysBeforeYear(y + 1) == DaysBeforeYear(y) + DaysInYear(y)
  {
    DivisorSteps(y);
  }

  /** The twelve months add up to the year. */
  lemma MonthsFillYear(y: int)
    ensures DaysBeforeMonth(y, 13) == DaysInYear(y)
  {
    var feb := DaysInMonth(y, 2);
    assert DaysBeforeMonth(y, 2) == 31;
    assert DaysBeforeMonth(y, 3) == 31 + feb;
    assert DaysBeforeMonth(y, 4) == 62 + feb;
    assert DaysBeforeMonth(y, 5) == 92 + feb;
    assert DaysBeforeMonth(y, 6) == 123 + feb;
    assert DaysBeforeMonth(y, 7) == 153 + feb;
    assert DaysBeforeMonth(y, 8) == 184 + feb;
    assert DaysBeforeMonth(y, 9) == 215 + feb;
    assert DaysBeforeMonth(y, 10) == 245 + feb;
    assert DaysBeforeMonth(y, 11) == 276 + feb;
    assert DaysBeforeMonth(y, 12) == 306 + feb;
  }

  lemma {:induction false} DaysBeforeYearMonotone(a: int, b: int)
    requires a <= b
    ensures DaysBeforeYear(a) + 365 * (b - a) <= DaysBeforeYear(b)
    decreases b - a
  {
    if a < b {
      DaysBeforeYearMonotone(a, b - 1);
      YearLength(b - 1);
    }
  }

  lemma {:induction false} DaysBeforeMonthBounds(y: int, m: int)
    requires 1 <= m <= 12
    ensures 0 <= DaysBeforeMonth(y, m) && DaysBeforeMonth(y, m) + DaysInMonth(y, m) <= DaysInYear(y)
  {
    MonthsFillYear(y);
    var k := m;
    while k < 12
      invariant m <= k <= 12
      invariant DaysBeforeMonth(y, m) + DaysInMonth(y, m) <= DaysBeforeMonth(y, k + 1)
    {
      k := k + 1;
    }
    DaysBeforeMonthNonNegative(y, m);
  }

  lemma {:induction false} DaysBeforeMonthNonNegative(y: int, m: int)
    requires 1 <= m <= 13
    ensures 0 <= DaysBeforeMonth(y, m)
  {
    if m > 1 { DaysBeforeMonthNonNegative(y, m - 1); }
  }

  /** A date's ordinal lies inside its own year. */
  lemma OrdinalWithinYear(d: Date)
    requires WellFormed(d)
    ensures DaysBeforeYear(d.year) < Ordinal(d) <= DaysBeforeYear(d.year + 1)
  {
    DaysBeforeMonthBounds(d.year, d.month);
    YearLength(d.year);
  }

  /**
   * A date is in Python's range exactly when its ordinal is in `1..MaxOrdinal`,
   * which is the check `date.fromordinal` (and so `date + timedelta`) makes.
   */
  lemma ValidIffOrdinalInRange(d: Date)
    requires WellFormed(d)
    ensures IsValidDate(d) <==> 1 <= Ordinal(d) <= MaxOrdinal
  {
    OrdinalWithinYear(d);
    assert DaysBeforeYear(1) == 0;
    assert DaysBeforeYear(10000) == MaxOrdinal;
    if d.year >= 1 {
      DaysBeforeYearMonotone(1, d.year);
    } else {
      DaysBeforeYearMonotone(d.year + 1, 1);
    }
    if d.year <= 9999 {
      DaysBeforeYearMonotone(d.year + 1, 10000);
    } else {
      DaysBeforeYearMonotone(10000, d.year);
    }
  }

  /** Months that come earlier in a year end before the later ones begin. */
  lemma {:induction false} DaysBeforeMonthGrows(y: int, a: int, b: int)
    requires 1 <= a < b <= 13
    ensures DaysBeforeMonth(y, a) + DaysInMonth(y, a) <= DaysBeforeMonth(y, b)
    decreases b - a
  {
    if a + 1 < b {
      DaysBeforeMonthGrows(y, a, b - 1);
    }
  }

  /**
   * Different dates have different ordinals, so a date given by its ordinal
   * (as `Shift` and `NextWeekday` give theirs) is a single date.
   */
  lemma OrdinalInjective(a: Date, b: Date)
    requires WellFormed(a) && WellFormed(b) && Ordinal(a) == Ordinal(b)
    ensures a == b
  {
    OrdinalWithinYear(a);
    OrdinalWithinYear(b);
    if a.year < b.year {
      DaysBeforeYearMonotone(a.year + 1, b.year);
      assert false;
    } else if b.year < a.year {
      DaysBeforeYearMonotone(b.year + 1, a.year);
      assert false;
    }
    if a.month < b.month {
      DaysBeforeMonthGrows(a.year, a.month, b.month);
      assert false;
    } else if b.month < a.month {
      DaysBeforeMonthGrows(a.year, b.month, a.month);
      assert false;
    }
  }

  /**
   * Monday is 0: 0001-01-01 was a Monday in the proleptic Gregorian calendar,
   * and 2026-02-13, the Friday of the program's example output, gives 4.
   */
  lemma WeekdayAnchors()
    ensures Weekday(Date(1, 1, 1)) == 0
    ensures Weekday(Date(2026, 2, 13)) == 4
  {
    assert DaysBeforeMonth(2026, 2) == 31;
  }

  // ---------------------------------------------------------------------------
  // Day arithmetic
  // ---------------------------------------------------------------------------

  function NextDay(d: Date): (r: Date)
    requires WellFormed(d)
    ensures WellFormed(r) && Ordinal(r) == Ordinal(d) + 1
  {
    if d.day < DaysInMonth(d.year, d.month) then Date(d.year, d.month, d.day + 1)
    else if d.month < 12 then Date(d.year, d.month + 1, 1)
    else
      YearLength(d.year);
      MonthsFillYear(d.year);
      Date(d.year + 1, 1, 1)
  }

  function PrevDay(d: Date): (r: Date)
    requires WellFormed(d)
    ensures WellFormed(r) && Ordinal(r) == Ordinal(d) - 1
  {
    if d.day > 1 then Date(d.year, d.month, d.day - 1)
    else if d.month > 1 then Date(d.year, d.month - 1, DaysInMonth(d.year, d.month - 1))
    else
      YearLength(d.year - 1);
      MonthsFillYear(d.year - 1);
      Date(d.year - 1, 12, 31)
  }

  /** The date `n` days after `d` (before it when `n` is negative), in an unbounded calendar. */
  function AddDays(d: Date, n: int): (r: Date)
    requires WellFormed(d)
    ensures WellFormed(r) && Ordinal(r) == Ordinal(d) + n
    decreases if n < 0 then -n else n
  {
    if n == 0 then d
    else if n > 0 then AddDays(NextDay(d), n - 1)
    else AddDays(PrevDay(d), n + 1)
  }

  /** Moving `n` days moves the weekday by `n`, modulo 7. */
  lemma WeekdayAfter(d: Date, n: int)
    requires WellFormed(d)
    ensures Weekday(AddDays(d, n)) == (Weekday(d) + n) % 7
  {
    var o := Ordinal(d) + 6;
    assert Ordinal(AddDays(d, n)) + 6 == o + n;
    ModAdd(o, n);
  }

  lemma ModAdd(a: int, n: int)
    ensures (a + n) % 7 == (a % 7 + n) % 7
  {
  }

  /**
   * `d + timedelta(days=n)`: the shifted date, or `None` where Python raises
   * `OverflowError` because the result leaves year 1..9999.
   */
  function Shift(d: Date, n: int): (r: Option<Date>)
    requires IsValidDate(d)
    ensures r.Some? ==> IsValidDate(r.value) && Ordinal(r.value) == Ordinal(d) + n
    ensures r.None? <==> !(1 <= Ordinal(d) + n <= MaxOrdinal)
  {
    var e := AddDays(d, n);
    ValidIffOrdinalInRange(e);
    if IsValidDate(e) then Some(e) else None
  }

  // ---------------------------------------------------------------------------
  // next_weekday
  // ---------------------------------------------------------------------------

  /** The `this`/`next` word in front of a weekday name. */
  datatype Qualifier = This | Next

  /**
   * `next_weekday(reference, target_wd, when)`: the first day on or after
   * `reference` (strictly after it when `when` is `next`) whose weekday is
   * `target_wd`. Python's `%` with a positive modulus agrees with Dafny's.
   */
  function NextWeekday(reference: Date, targetWd: int, when: Option<Qualifier>): (r: Option<Date>)
    requires IsValidDate(reference)
    ensures r.Some? ==> IsValidDate(r.value) && Weekday(r.value) == targetWd % 7
    ensures r.Some? && when != Some(Next) ==> Ordinal(reference) <= Ordinal(r.value) <= Ordinal(reference) + 6
    ensures r.Some? && when == Some(Next) ==> Ordinal(reference) + 1 <= Ordinal(r.value) <= Ordinal(reference) + 7
    ensures when != Some(Next) ==> (r == Some(reference) <==> Weekday(reference) == targetWd % 7)
    ensures when == Some(Next) ==> r != Some(reference)
    ensures r.None? ==> MaxOrdinal - 7 < Ordinal(reference)
  {
    var w := Weekday(reference);
    var daysAhead := DaysAhead(w, targetWd, when);
    ShiftLandsOn(reference, daysAhead, targetWd);
    ShiftPastEnd(reference, daysAhead);
    Shift(reference, daysAhead)
  }

  /** Shifting by a number of days congruent to the gap to weekday `t` lands on `t`. */
  lemma ShiftLandsOn(d: Date, k: int, t: int)
    requires IsValidDate(d) && k % 7 == (t - Weekday(d)) % 7
    ensures Shift(d, k).Some? ==> Weekday(Shift(d, k).value) == t % 7
  {
    var r := Shift(d, k);
    if r.Some? {
      WeekdayOfShift(d, r.value, k, t);
    }
  }

  /** A shift of at most a week fails only within a week of `date.max`. */
  lemma ShiftPastEnd(d: Date, k: int)
    requires IsValidDate(d) && 0 <= k <= 7
    ensures Shift(d, k).None? ==> MaxOrdinal - 7 < Ordinal(d)
    ensures k == 0 ==> Shift(d, k) == Some(d)
  {
    ValidIffOrdinalInRange(d);
  }

  /** A date `k` days after `d`, with `k` congruent to the gap to weekday `t`, falls on `t`. */
  lemma WeekdayOfShift(d: Date, e: Date, k: int, t: int)
    requires WellFormed(d) && WellFormed(e) && Ordinal(e) == Ordinal(d) + k
    requires k % 7 == (t - Weekday(d)) % 7
    ensures Weekday(e) == t % 7
  {
    WeekdayMod(Ordinal(d), k, t);
  }

  /** Stepping `k` days from ordinal `o`, with `k` congruent to the gap to `t`, lands on weekday `t`. */
  lemma WeekdayMod(o: int, k: int, t: int)
    requires k % 7 == (t - (o + 6) % 7) % 7
    ensures (o + k + 6) % 7 == t % 7
  {
    ModAdd(k, o + 6);
    ModAdd(t - (o + 6) % 7, (o + 6) % 7);
  }

  /** The `days_ahead` offset `next_weekday` computes from the reference weekday `w`. */
  function DaysAhead(w: int, targetWd: int, when: Option<Qualifier>): (k: int)
    requires 0 <= w < 7
    ensures when != Some(Next) ==> 0 <= k <= 6 && (k == 0 <==> w == targetWd % 7)
    ensures when == Some(Next) ==> 1 <= k <= 7
    ensures k % 7 == (targetWd - w) % 7
  {
    var ahead := (targetWd - w) % 7;
    if when == Some(Next) then (if ahead != 0 then ahead else 7) else ahead
  }

  // ---------------------------------------------------------------------------
  // Names (the C locale's %a and %b)
  // ---------------------------------------------------------------------------

  const WeekdayAbbreviations: seq<string> := ["Mon", "Tue", "Wed", "Thu", "Fri", "Sat", "Sun"]

  const MonthAbbreviations: seq<string> :=
    ["Jan", "Feb", "Mar", "Apr", "May", "Jun", "Jul", "Aug", "Sep", "Oct", "Nov", "Dec"]

  /**
   * `datetime.strptime(name, "%b").month`: the month whose abbreviation equals
   * `name` ignoring case, or `None` where `strptime` raises `ValueError`.
   */
  function MonthFromAbbreviation(name: string): (r: Option<int>)
    ensures r.Some? ==> 1 <= r.value <= 12 && LowerString(name) == LowerString(MonthAbbreviations[r.value - 1])
    ensures r.None? ==> forall k :: 0 <= k < 12 ==> LowerString(name) != LowerString(MonthAbbreviations[k])
  {
    MonthFrom(LowerString(name), 1)
  }

  function MonthFrom(lowered: string, m: int): (r: Option<int>)
    requires 1 <= m <= 13
    ensures r.Some? ==> m <= r.value <= 12 && lowered == LowerString(MonthAbbreviations[r.value - 1])
    ensures r.None? ==> forall k :: m - 1 <= k < 12 ==> lowered != LowerString(MonthAbbreviations[k])
    decreases 13 - m
  {
    if m == 13 then None
    else if lowered == LowerString(MonthAbbreviations[m - 1]) then Some(m)
    else MonthFrom(lowered, m + 1)
  }
}
