/**
 * Dates written out and read back by the date patterns: an ISO date as
 * `date.isoformat()` writes it, and a month abbreviation followed by a day,
 * are found at the start of the text with the fields they were made from.
 */
module ReadBack {
  import opened Wrappers
  import opened Text
  import opened Calendar
  import opened Lexer
  import opened Parser

  /** The four-digit numeral `%04d` gives for `n < 10000`. */
  function FourDigits(n: nat): (r: string)
    requires n < 10000
    ensures |r| == 4 && AllDigits(r)
    ensures DecimalValue(r) == n
  {
    var r := TwoDigits(n / 100) + TwoDigits(n % 100);
    assert r[..3][..2] == r[..2] == TwoDigits(n / 100);
    assert DecimalValue(r[..3]) == DecimalValue(r[..2]) * 10 + DigitValue(r[2]);
    assert TwoDigits(n % 100)[..1] == [r[2]];
    r
  }

  /** `d.isoformat()`: `YYYY-MM-DD`. */
  function IsoText(d: Date): (r: string)
    requires IsValidDate(d)
    ensures |r| == 10
  {
    FourDigits(d.year) + "-" + TwoDigits(d.month) + "-" + TwoDigits(d.day)
  }

  /**
   * `ISO_DATE_RE` finds an ISO date written at the start of the text, whatever
   * follows it, with its own year, month and day; `fromisoformat` gives the
   * date back, and the ISO strategy sets it.
   */
  lemma IsoTextReadsBack(d: Date, rest: string)
    requires IsValidDate(d)
    ensures SearchIso(IsoText(d) + rest) == Some((0, IsoToken(IsoText(d), d.year, d.month, d.day)))
    ensures FromIsoFormat(IsoToken(IsoText(d), d.year, d.month, d.day)) == Some(d)
    ensures IsoStrategy(IsoText(d) + rest) == Some(DateState(Some(d), Consume(IsoText(d) + rest, IsoText(d))))
  {
    var t := IsoText(d);
    var s := t + rest;
    var y, m, dd := FourDigits(d.year), TwoDigits(d.month), TwoDigits(d.day);
    assert s[..10] == t;
    assert s[0..4] == y && s[5..7] == m && s[8..10] == dd;
    forall k | 0 <= k < 10 ensures if k == 4 || k == 7 then s[k] == '-' else IsDigit(s[k]) {
      if k < 4 {
        assert s[k] == y[k];
      } else if 4 < k < 7 {
        assert s[k] == m[k - 5];
      } else if 7 < k {
        assert s[k] == dd[k - 8];
      }
    }
    assert IsoLayout(s, 0);
  }

  /** The lowered abbreviations `%b` accepts. */
  const MonthNamesLowered: seq<string> :=
    ["jan", "feb", "mar", "apr", "may", "jun", "jul", "aug", "sep", "oct", "nov", "dec"]

  /** Lowering a month abbreviation gives its entry in the table above. */
  lemma AbbreviationLowered(k: nat)
    requires k < 12
    ensures LowerString(MonthAbbreviations[k]) == MonthNamesLowered[k]
  {
    var a, r := MonthAbbreviations[k], LowerString(MonthAbbreviations[k]);
    assert |a| == 3 && 'A' <= a[0] <= 'Z' && 'a' <= a[1] <= 'z' && 'a' <= a[2] <= 'z';
    assert r[0] == Lower(a[0]) && r[1] == a[1] && r[2] == a[2];
  }

  /** No two months share an abbreviation, ignoring case. */
  lemma AbbreviationsDistinct(a: nat, b: nat)
    requires a < 12 && b < 12 && LowerString(MonthAbbreviations[a]) == LowerString(MonthAbbreviations[b])
    ensures a == b
  {
    AbbreviationLowered(a);
    AbbreviationLowered(b);
  }

  /** `strptime(abbreviation, "%b").month` is the month it abbreviates. */
  lemma MonthFromItsAbbreviation(m: int)
    requires 1 <= m <= 12
    ensures MonthFromAbbreviation(MonthAbbreviations[m - 1]) == Some(m)
  {
    var r := MonthFromAbbreviation(MonthAbbreviations[m - 1]);
    if r.Some? {
      AbbreviationsDistinct(m - 1, r.value - 1);
    }
  }

  /** `"Jan 5"`: a month abbreviation, a space and the day with no leading zero. */
  function MonthDayText(m: int, day: nat): string
    requires 1 <= m <= 12
  {
    MonthAbbreviations[m - 1] + " " + NatToString(day)
  }

  /** Three letters, a space and a numeral with no digit after it match `MONTHDAY_RE` at 0. */
  lemma MonthDayTokenAt(a: string, n: string, rest: string)
    requires |a| == 3 && IsAsciiLetter(a[0]) && IsAsciiLetter(a[1]) && IsAsciiLetter(a[2])
    requires 1 <= |n| <= 2 && AllDigits(n) && (rest == [] || !IsDigit(rest[0]))
    ensures MonthDayAt(a + " " + n + rest, 0) == Some(MonthDayToken(a + " " + n, a, DecimalValue(n)))
  {
    var t := a + " " + n;
    var s := t + rest;
    assert s[..|t|] == t && s[..3] == a && s[4..4 + |n|] == n;
    assert IsAsciiLetter(s[0]) && IsAsciiLetter(s[1]) && IsAsciiLetter(s[2]) && s[3] == ' ';
    assert LetterRun(s, 0) == 3;
    assert s[4] == n[0] && IsDigit(s[4]);
    assert SkipSpaces(s, 4) == 4;
    assert DayStart(s, 3) == 4;
    if |n| == 2 {
      assert s[5] == n[1];
    } else if rest != [] {
      assert s[5] == rest[0];
    }
    assert DigitsEnd(s, 4) == |t|;
  }

  /**
   * `MONTHDAY_RE` finds a month abbreviation and a day written at the start
   * of the text, when no further digit follows: group `mon` is the
   * abbreviation and group `day` reads as the day. The month/day strategy
   * then sets that day of the month in `year`, or fails over to the later
   * strategies where `date()` raises.
   */
  lemma MonthDayReadsBack(m: int, day: nat, year: int, rest: string)
    requires 1 <= m <= 12 && day < 100 && (rest == [] || !IsDigit(rest[0]))
    ensures SearchMonthDay(MonthDayText(m, day) + rest)
            == Some((0, MonthDayToken(MonthDayText(m, day), MonthAbbreviations[m - 1], day)))
    ensures MonthDayStrategy(MonthDayText(m, day) + rest, year)
            == if IsValidDate(Date(year, m, day))
               then Some(DateState(Some(Date(year, m, day)), Consume(MonthDayText(m, day) + rest, MonthDayText(m, day))))
               else None
  {
    var a, n := MonthAbbreviations[m - 1], NatToString(day);
    assert |a| == 3 && IsAsciiLetter(a[0]) && IsAsciiLetter(a[1]) && IsAsciiLetter(a[2]);
    MonthDayTokenAt(a, n, rest);
    MonthFromItsAbbreviation(m);
    assert Prefix3(a) == a;
  }
}
