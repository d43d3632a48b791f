/**
 * `format_short_core`: the short 12-hour rendering `2:00am Fri Feb 13 AWST`
 * of the converted datetime.
 */
module Render {
  import opened Wrappers
  import opened Text
  import opened Calendar
  import opened Lexer

  /** `%I` without its leading zero: the hour on a 12-hour clock. */
  function Hour12(hour: int): (h: int)
    requires 0 <= hour < 24
    ensures 1 <= h <= 12
    ensures h % 12 == hour % 12
  {
    if hour % 12 == 0 then 12 else hour % 12
  }

  /** The half of the day `%p` names. */
  function MeridiemOf(hour: int): (m: Meridiem)
    requires 0 <= hour < 24
    ensures m == AM <==> hour < 12
  {
    if hour < 12 then AM else PM
  }

  /** `%p` after `.lower()`: two lower-case letters that `TIME_RE` reads back as the same meridiem. */
  function MeridiemText(m: Meridiem): (t: string)
    ensures |t| == 2 && 'a' <= t[0] <= 'z' && 'a' <= t[1] <= 'z'
    ensures MeridiemAt(t, 0) == Some(m)
  {
    var t := [if m == AM then 'a' else 'p', 'm'];
    assert t[0..2] == t;
    assert m == AM ==> t == "am";
    assert m == PM ==> t == "pm" && t != "am" && t != "AM";
    t
  }

  /** `dt.strftime("%-I:%M%p").lower()`. */
  function TimeText(hour: int, minute: int): string
    requires 0 <= hour < 24 && 0 <= minute < 60
  {
    NatToString(Hour12(hour)) + ":" + TwoDigits(minute) + MeridiemText(MeridiemOf(hour))
  }

  /** `dt.strftime("%a %b %-d")` in the C locale. */
  function DateText(d: Date): string
    requires IsValidDate(d)
  {
    WeekdayAbbreviations[Weekday(d)] + " " + MonthAbbreviations[d.month - 1] + " " + NatToString(d.day)
  }

  /** `format_short_core(dt, tz_label)`. */
  function FormatShortCore(dt: DateTime, tag: string): string
    requires IsValidDateTime(dt)
  {
    TimeText(dt.hour, dt.minute) + " " + DateText(dt.date) + " " + tag
  }

  /**
   * The 12-hour normalisation of `parse_input` undoes the 12-hour clock:
   * reading back the shown hour with the shown meridiem gives the 24-hour
   * hour, so 12am is 0, 12pm is 12 and 9pm is 21.
   */
  lemma To24HourInvertsHour12(hour: int)
    requires 0 <= hour < 24
    ensures To24Hour(Hour12(hour), Some(MeridiemOf(hour))) == hour
  {
  }

  /**
   * The normalisation rules of `parse_input`: with a meridiem the hour lands
   * in 0..23 for every hour 1..12 shown on a 12-hour clock, in the morning
   * exactly for `am`.
   */
  lemma To24HourRange(hour: int, m: Meridiem)
    requires 1 <= hour <= 12
    ensures 0 <= To24Hour(hour, Some(m)) < 24
    ensures To24Hour(hour, Some(m)) < 12 <==> m == AM
    ensures Hour12(To24Hour(hour, Some(m))) == hour
  {
  }

  /**
   * Without a meridiem every hour passes through unchanged, and so does an
   * hour of 13 or more whatever the meridiem: `15pm` stays 15. Hour 0 with a
   * meridiem goes through the `hour < 12` test: `0pm` is 12 and `0am` is 0.
   */
  lemma To24HourPassThrough(hour: int, m: Option<Meridiem>)
    ensures To24Hour(hour, None) == hour
    ensures hour >= 13 ==> To24Hour(hour, m) == hour
    ensures hour == 0 ==> To24Hour(hour, Some(PM)) == 12 && To24Hour(hour, Some(AM)) == 0
  {
  }

  /** `%-I` has no leading zero and `%M` always two digits. */
  lemma TimeTextShape(hour: int, minute: int)
    requires 0 <= hour < 24 && 0 <= minute < 60
    ensures var t := TimeText(hour, minute); var n := |NatToString(Hour12(hour))|;
            (n == 1 || n == 2) && |t| == n + 5 && t[0] != '0' && t[n] == ':'
            && AllDigits(t[..n]) && DecimalValue(t[..n]) == Hour12(hour)
            && AllDigits(t[n + 1..n + 3]) && DecimalValue(t[n + 1..n + 3]) == minute
            && t[n + 3..] == MeridiemText(MeridiemOf(hour))
  {
    var h := NatToString(Hour12(hour));
    var t := TimeText(hour, minute);
    assert t[..|h|] == h;
    assert t[|h| + 1..|h| + 3] == TwoDigits(minute);
  }

  /**
   * `TIME_RE` reads the rendered time back: the shown hour, the minute and
   * the meridiem, whatever follows the time text; so parsing it again and
   * normalising gives the original 24-hour hour and minute.
   */
  lemma {:induction false} TimeTextReadsBack(hour: int, minute: int, rest: string)
    requires 0 <= hour < 24 && 0 <= minute < 60
    ensures SearchTime(TimeText(hour, minute) + rest) ==
            Some((0, TimeToken(Hour12(hour), Some(minute), Some(MeridiemOf(hour)))))
    ensures To24Hour(Hour12(hour), Some(MeridiemOf(hour))) == hour
  {
    TimeTextShape(hour, minute);
    var t := TimeText(hour, minute);
    var s := t + rest;
    var n := |NatToString(Hour12(hour))|;
    assert s[..|t|] == t;
    assert s[0] == t[0] && IsDigit(s[0]);
    if n == 2 {
      assert IsDigit(t[1]);
      assert s[1] == t[1];
    } else {
      assert s[1] == t[1] == ':';
    }
    assert s[0..n] == t[..n];
    assert s[n] == ':' && s[n + 1] == t[n + 1] && s[n + 2] == t[n + 2];
    assert IsDigit(t[n + 1]) && IsDigit(t[n + 2]);
    assert s[n + 1..n + 3] == t[n + 1..n + 3];
    var k := n + 3;
    assert s[k] == t[k] && !IsSpace(s[k]);
    assert SkipSpaces(s, k) == k;
    assert s[k..k + 2] == t[n + 3..];
    assert TimeAt(s, 0) == Some(TimeToken(Hour12(hour), Some(minute), Some(MeridiemOf(hour))));
    To24HourInvertsHour12(hour);
  }

  /** The rendered time is one whitespace-free word. */
  lemma TimeTextIsWord(hour: int, minute: int)
    requires 0 <= hour < 24 && 0 <= minute < 60
    ensures TimeText(hour, minute) != [] && NoSpace(TimeText(hour, minute))
  {
    TimeTextShape(hour, minute);
    var t := TimeText(hour, minute);
    var n := |NatToString(Hour12(hour))|;
    forall i | 0 <= i < |t| ensures !IsSpace(t[i]) {
      if i < n {
        assert t[i] == t[..n][i];
      } else if n < i < n + 3 {
        assert t[i] == t[n + 1..n + 3][i - n - 1];
      } else if i >= n + 3 {
        assert t[i] == t[n + 3..][i - n - 3];
      }
    }
  }

  /** The five fields of the rendering, in order. */
  function Fields(dt: DateTime, tag: string): seq<string>
    requires IsValidDateTime(dt)
  {
    [TimeText(dt.hour, dt.minute), WeekdayAbbreviations[Weekday(dt.date)],
     MonthAbbreviations[dt.date.month - 1], NatToString(dt.date.day), tag]
  }

  lemma FormatIsJoin(dt: DateTime, tag: string)
    requires IsValidDateTime(dt)
    ensures FormatShortCore(dt, tag) == Join(Fields(dt, tag), " ")
  {
    var ws := Fields(dt, tag);
    assert Join(ws[4..], " ") == tag;
    assert Join(ws[3..], " ") == ws[3] + " " + tag;
    assert Join(ws[2..], " ") == ws[2] + " " + (ws[3] + " " + tag);
    assert Join(ws[1..], " ") == ws[1] + " " + (ws[2] + " " + (ws[3] + " " + tag));
  }

  /**
   * The rendering is five whitespace-free fields: the time, the weekday
   * and month abbreviations, the day without a leading zero, and the label.
   */
  lemma FormatFields(dt: DateTime, tag: string)
    requires IsValidDateTime(dt) && tag != [] && NoSpace(tag)
    ensures Split(FormatShortCore(dt, tag)) ==
            [TimeText(dt.hour, dt.minute), WeekdayAbbreviations[Weekday(dt.date)],
             MonthAbbreviations[dt.date.month - 1], NatToString(dt.date.day), tag]
    ensures NatToString(dt.date.day)[0] != '0'
  {
    var ws := Fields(dt, tag);
    TimeTextIsWord(dt.hour, dt.minute);
    forall k | 0 <= k < |ws| ensures ws[k] != [] && NoSpace(ws[k]) {
      if k == 3 {
        var d := ws[3];
        forall i | 0 <= i < |d| ensures !IsSpace(d[i]) {
          assert IsDigit(d[i]);
        }
      }
    }
    FormatIsJoin(dt, tag);
    SplitJoin(ws);
  }
}
