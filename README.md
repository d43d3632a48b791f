# TimeZoneSwapper in Dafny

TimeZoneSwapper reads a short free-form time expression such as
`next tuesday 3pm ET`, `2024-03-10 9:30am Perth` or `Feb 13 2:00am`. It
decides which of two zones the time is in: America/New_York (ET) or
Australia/Perth (AWST). It converts the time to the other zone and writes
`"<input> (<converted>)"` back, with the converted part in a short 12-hour
form such as `2:00am Fri Feb 13 AWST`. When it cannot do that, it writes
one of three advisory texts instead.

This project models the recognition and rendering core of
`TimeZoneSwapper.py` and proves properties of it:

- `Calendar`: Python's proleptic Gregorian dates.
  - Validity, ordinals, and `weekday()`.
  - `d + timedelta(days=n)` with its `OverflowError`.
  - `next_weekday`.
  - The C-locale day and month abbreviations.
  - `strptime("%b")`.
- `Text`: the string operations the program uses.
  - `str.strip()`, `str.split()`, `" ".join(...)` and `str.replace(pat, "")`.
  - Python's whitespace set.
  - Decimal numerals.
- `Lexer`: each regular expression of the program, written out as a
  recogniser at one position, plus the leftmost `re.search` over those
  positions.
  - The zone markers and `re.sub`.
  - `ISO_DATE_RE`, `MONTHDAY_RE`, `RELATIVE_RE`, `WEEKDAY_RE` and `TIME_RE`.
  - `fromisoformat` and the month/day date.
  - The 12-to-24-hour rule.
- `Removal`: the proof that `re.sub` (`RemoveMarkers` in `Lexer`)
  leaves no marker of the removed family behind. The proof holds for any
  left-to-right removal whose matches have `\b` on both sides. It
  relies on each marker starting and ending with a letter. It also shows
  that `re.sub` keeps the text before the leftmost marker, deletes just
  that marker and scans on after it, and leaves a string without markers
  unchanged.
- `Zones`: the two zones, `determine_source_and_target` (with the
  host-zone heuristic) and `tz_label_for`.
- `Parser`: `parse_input`.
  - `ParseSpec` states the pipeline as one function.
  - `ParseInput` is the step-by-step method over the working string `s` and
    `parsed_date`. Its date strategies and time step are the methods
    `ApplyDateStrategies` and `ReadTime`. The `WEEKDAY_MAP` key loop with
    its `break` is the method `LookupWeekdayKey`.
  - Each method is proved equal to the function that specifies it.
- `Render`: `format_short_core`, including the proofs that the rendered
  time reads back through `TIME_RE`.
- `ReadBack`: an ISO date and a month abbreviation with a day, written out
  as text, are found again by `ISO_DATE_RE` and `MONTHDAY_RE` with the same
  fields, and the date strategies set that date.
- `Swapper`: the part of `main` that runs after the input text is known. It
  selects the advisory or assembles the output.

The inputs to the program that come from outside it are parameters:

- `today` stands for `date.today()`.
- `hostZoneName` stands for the name derived from
  `datetime.now().astimezone().tzinfo`.
- `convert` stands for `astimezone`.

Exceptions the program does not catch are explicit results:

- `Parse.Raised` carries one of:
  - `InvalidIsoDate`: `fromisoformat` raises `ValueError`.
  - `DateOutOfRange`: `OverflowError` from date arithmetic.
  - `TimeOutOfRange`: `time(hour, minute)` raises `ValueError`.
- `Outcome.Crashed` is the result when such an exception reaches `main`.

Two behaviours of the program are worth stating outright:

- `main` catches only `ZoneInfoNotFoundError` (lines 341-346). The three
  parse exceptions above, and an `OverflowError` from `astimezone`,
  propagate out of `main`. The model returns `Crashed` for them.
- Both `ZoneInfo` objects are built at import (lines 47-48), so missing
  zone data fails before `main` runs. The advisory branch is modelled as
  the `ZoneInfoNotFound` answer of the injected conversion.

## Model

| member | source | states |
|---|---|---|
| Calendar.NextWeekday | TimeZoneSwapper.py:179-189 | The result is a valid date on weekday `target_wd % 7`. With no qualifier or `this`, it is 0..6 days after the reference, and it is the reference itself exactly when the weekdays already match. With `next`, it is 1..7 days after, so never the reference. It fails (overflow) only in the last week of year 9999. |
| Calendar.DaysAhead | TimeZoneSwapper.py:185-188 | `days_ahead` is congruent to `target_wd - ref_wd` mod 7. It lies in 0..6 and is 0 exactly when the weekdays match; with `next` it lies in 1..7. |
| Calendar.Shift | TimeZoneSwapper.py:243-245 | `d + timedelta(days=n)` gives a valid date whose ordinal is `n` more. It fails exactly when the target ordinal leaves 1..3652059. |
| Calendar.ValidIffOrdinalInRange | TimeZoneSwapper.py:229 | A y/m/d date is a valid Python date exactly when its ordinal lies in 1..3652059, i.e. between 0001-01-01 and 9999-12-31. |
| Calendar.WeekdayAnchors | TimeZoneSwapper.py:185 | `weekday()` counts from Monday as 0: 0001-01-01, a Monday, gives 0, and Friday 2026-02-13 gives 4. |
| Calendar.OrdinalInjective | TimeZoneSwapper.py:189 | Two valid dates with the same ordinal are the same date, so a date fixed by its ordinal (as `reference + timedelta(days=n)` is) is a single date. |
| Calendar.WeekdayAfter | TimeZoneSwapper.py:189 | Moving `n` days ahead moves the weekday `n` steps mod 7. |
| Calendar.MonthFromAbbreviation | TimeZoneSwapper.py:228 | `strptime(mon, "%b").month` is the month whose abbreviation equals `mon` ignoring case. It raises exactly when no month's abbreviation does. |
| Text.Strip | TimeZoneSwapper.py:199 | `strip()` is empty exactly for all-whitespace input. Otherwise its ends are not whitespace, and it is the slice of the input between the leading and trailing whitespace. |
| Text.StripIdempotent | TimeZoneSwapper.py:199 | Stripping twice is stripping once. |
| Text.SplitSpace | TimeZoneSwapper.py:212 | A whitespace character in front of a string does not change its `split()`, and `split()` of the empty string is empty. |
| Text.SplitWord | TimeZoneSwapper.py:212 | A non-empty whitespace-free word followed by whitespace or by nothing is split off whole. With `SplitSpace` this fixes `split()` on every string as the maximal runs of non-whitespace characters. |
| Text.CollapseSpec | TimeZoneSwapper.py:212 | `" ".join(s.split())` has single spaces only, no other whitespace and trimmed ends. It keeps every non-whitespace character in order. |
| Text.CollapseKeepsWords | TimeZoneSwapper.py:212 | After collapsing, the text still splits into the same words, so collapsing is idempotent. |
| Text.SplitJoin | TimeZoneSwapper.py:320 | Non-empty whitespace-free words joined by single spaces split back into the same words. |
| Text.ReplaceAllAtFirst | TimeZoneSwapper.py:220 | `s.replace(pat, "")` keeps the text before the first occurrence of `pat` as it is, deletes that occurrence, and goes on deleting in the text after it. |
| Text.ReplaceAllWithout | TimeZoneSwapper.py:220 | Where `pat` does not occur, `s.replace(pat, "")` is `s` itself. |
| Text.ReplaceAllShrinks | TimeZoneSwapper.py:220 | When `pat` occurs, removing it shortens `s` by at least `len(pat)`. |
| Text.NatToString | TimeZoneSwapper.py:316 | `%-d` is all digits, reads back as the number and has no leading zero. |
| Text.TwoDigits | TimeZoneSwapper.py:315 | `%M` is exactly two digits that read back as the minute. |
| Lexer.Leftmost | TimeZoneSwapper.py:205 | `re.search` reports the leftmost position where the pattern matches, and it matches nowhere before it. |
| Lexer.FirstWordAt | TimeZoneSwapper.py:50 | An alternation followed by `\b` takes the first alternative after which a word boundary holds. |
| Lexer.MarkerAt | TimeZoneSwapper.py:50-51 | A marker matches at a word start exactly when one of the family's names matches there, ignoring case, followed by a word boundary. |
| Lexer.IsoAtMatches | TimeZoneSwapper.py:57 | `ISO_DATE_RE` matches at a position exactly when four digits, `-`, two digits, `-` and two digits are there; year, month and day are the decimal values of the three digit groups. |
| Lexer.FromIsoFormat | TimeZoneSwapper.py:219 | `fromisoformat` succeeds exactly for a valid calendar date, and then yields that date. |
| Lexer.MonthDayAtMatches | TimeZoneSwapper.py:58 | `MONTHDAY_RE` matches at a position exactly when the run of letters there has 3 to 9 letters and a digit follows the optional `.` and the spaces. Group `mon` is that run, group `day` the one or two digits, and the match text runs from the letters to the end of the digits. |
| Lexer.MonthDayDate | TimeZoneSwapper.py:225-230 | The date is valid, in the given year, has the matched day, and its month's abbreviation equals the name's first three letters ignoring case. It fails exactly when those letters name no month or the day does not exist in that month. |
| Lexer.RelativeAt | TimeZoneSwapper.py:59 | A relative match starts at a word start; its text is the slice at its position and lower-cases to one of `today`, `tomorrow`, `yesterday`. |
| Lexer.RelativeAtMatches | TimeZoneSwapper.py:59 | A match is its keyword followed by a word boundary. At a word start with no match, no keyword followed by a word boundary is there. |
| Lexer.QualifiedWeekdayAtMatches | TimeZoneSwapper.py:60-63 | The `this`/`next` branch matches when the qualifier, at least one whitespace character and a weekday name with a word boundary after it follow each other. Group 1 is that qualifier, group 2 that name, and the match text runs to the end of the name. Otherwise one of those three parts is missing. |
| Lexer.WeekdayAtMatches | TimeZoneSwapper.py:60-63 | At a word start the qualified branch is tried first. Only when it fails does a bare weekday name with a word boundary after it match, and its text is then just that name. With neither, nothing matches. |
| Lexer.MeridiemAt | TimeZoneSwapper.py:56 | `am`/`AM` and `pm`/`PM` are recognised, and mixed case is not. |
| Lexer.TimeAt | TimeZoneSwapper.py:56 | `TIME_RE` matches at a position exactly when a digit is there. |
| Lexer.TimeAtMatches | TimeZoneSwapper.py:56 | Group `h` is the one or two digits at the match. Group `m` is present exactly when `:` and two digits follow them, and is then their value. Group `ampm` is the meridiem after the spaces that come next, if one is there. |
| Lexer.SearchTime | TimeZoneSwapper.py:262-265 | There is a time token exactly when the string holds a digit, and it starts at the first digit. |
| Zones.HostZone | TimeZoneSwapper.py:295-300 | The host name gives ET exactly when it contains `New_York` or `Eastern`, or contains neither `Perth` nor `AWST`. It gives AWST exactly in the remaining case. |
| Zones.DetermineSourceAndTarget | TimeZoneSwapper.py:284-304 | A hint is the source whatever the host zone. Without a hint, the host name decides. The target is never the source. The zoned datetime keeps the naive wall-clock fields. |
| Zones.TzLabelFor | TimeZoneSwapper.py:307-308 | The label is `AWST` exactly for AWST, and `ET` otherwise. |
| Zones.Other | TimeZoneSwapper.py:302 | The other zone differs from the given one. |
| Parser.FirstKeyFor | TimeZoneSwapper.py:253-256 | The first key of `WEEKDAY_MAP`, in insertion order, that the token starts with, if any. |
| Parser.LookupWeekdayKey | TimeZoneSwapper.py:251-256 | The `for`/`break` loop stops at the first key the token starts with, or finds none. This is `FirstKeyFor`. |
| Parser.FirstKeyOfKey | TimeZoneSwapper.py:65-83 | For every key, the loop stops at the three-letter key of the same weekday, e.g. `thursday` finds `thu`. |
| Parser.WeekdayLookupAgrees | TimeZoneSwapper.py:252-257 | Every name `WEEKDAY_RE` can match finds a key, so `if wd_key:` always holds. The weekday found equals the name's own entry, and it is the weekday whose abbreviation starts the name. |
| Removal.MarkerShape | TimeZoneSwapper.py:50-51 | Every marker name begins and ends with a letter and never has two non-word characters side by side. |
| Lexer.MarkerLength | TimeZoneSwapper.py:207 | The stretch `re.sub` cuts at a position is non-empty exactly where the family's pattern matches there, and is then as long as the alternative matched. |
| Removal.MarkersBordered | TimeZoneSwapper.py:50-51 | Every marker that the scan removes fits in the string and has a word boundary on both sides. |
| Removal.NoMarkerLeft | TimeZoneSwapper.py:207-210 | After `re.sub` removes a family's markers, searching the result for that family finds nothing. |
| Removal.RemoveMarkersWithout | TimeZoneSwapper.py:207-210 | With no marker of the family in the string, `re.sub` returns it unchanged. |
| Removal.RemoveMarkersAtFirst | TimeZoneSwapper.py:207-210 | `re.sub` keeps everything before the leftmost marker, deletes exactly that marker, and scans on right after it, so only matched marker text is removed. |
| Parser.HintMarkersGone | TimeZoneSwapper.py:204-212 | Whichever family gives the hint, the string passed on to the date strategies holds no marker of that family. |
| Parser.ZoneHint | TimeZoneSwapper.py:204-212 | The hint is ET exactly when an ET marker occurs, and AWST exactly when an AWST marker occurs and no ET marker does. The winning family's markers are removed, and without a hint the string is unchanged. |
| Parser.DatePrecedence | TimeZoneSwapper.py:215-259 | ISO, month/day, relative and weekday decide in that order. A later strategy decides only when every earlier one stayed silent. If none fires, there is no date and the string is unchanged. |
| Parser.StrategiesFireWhenMatched | TimeZoneSwapper.py:217-259 | An ISO, relative or weekday pattern match always decides, by a date or an exception; only month/day can fall through. |
| Parser.MonthDayFallsThrough | TimeZoneSwapper.py:222-232 | A month/day match whose three letters name no month, or whose day is invalid, leaves the later strategies running on the unchanged string. |
| Parser.RelativeStrategyDates | TimeZoneSwapper.py:234-245 | `today`, `tomorrow` and `yesterday` give today moved by 0, +1 and -1 days. It raises exactly when that leaves the calendar. |
| Parser.WeekdayStrategyDates | TimeZoneSwapper.py:247-259 | The date falls on the weekday the name abbreviates. It is 1..7 days ahead with `next`, otherwise 0..6 days ahead. It raises only in the last week of year 9999. |
| Parser.DateStrategyConsumes | TimeZoneSwapper.py:215-259 | When a strategy sets the date, the working string gets strictly shorter. |
| Parser.IsoShape | TimeZoneSwapper.py:217-220 | The ISO strategy fires exactly when `ISO_DATE_RE` matches. Its text occurs where it matched. A valid date is set with the working string `s.replace(text, "").strip()`, and an invalid date raises `ValueError`. |
| Parser.MonthDayShape | TimeZoneSwapper.py:222-232 | The month/day strategy fires only on a match. When it fires, it sets a valid date, and the working string becomes `s.replace(text, "").strip()` for the matched text. |
| Parser.RelativeShape | TimeZoneSwapper.py:234-245 | The relative strategy fires exactly when `RELATIVE_RE` matches. A date it sets is valid and comes with the working string `s.replace(text, "").strip()`. It raises only `OverflowError`. |
| Parser.WeekdayShape | TimeZoneSwapper.py:247-259 | The weekday strategy fires only on a match. A date it sets is valid and comes with the working string `s.replace(text, "").strip()`. It raises only `OverflowError`. |
| Parser.ConsumeFirst | TimeZoneSwapper.py:220 | For a text that occurs in `s`, `s.replace(text, "").strip()` cuts the first occurrence, at or before the given one, keeps what precedes it, and cuts the later occurrences from what follows. |
| Parser.IsoStrategyCutsMatch | TimeZoneSwapper.py:217-220 | No copy of the ISO date text comes before the leftmost match, so the occurrence `replace` cuts first is the match itself. |
| Parser.ResolveDateFacts | TimeZoneSwapper.py:215-259 | Any date found is a valid calendar date. With no date, the string is unchanged. A date strategy never raises the time error. |
| Parser.ParseSpecFacts | TimeZoneSwapper.py:197-281 | Blank input gives `None`. A parse holds a valid datetime, and its hint follows the ET-before-AWST marker rule on the stripped input. |
| Parser.ParseSpecOutcome | TimeZoneSwapper.py:262-281 | After the date step, the result is `None` exactly when no digit is left. When a `TIME_RE` match is left and its hour (after the meridiem adjustment) and minute (group `m`, or 0 without it) are in range, the result is exactly the parsed datetime on the date found, or on today when no strategy fired, with the marker hint. Every parse has that date, hour and minute. `time()` raises exactly when that hour or minute is out of range. An exception from a date strategy propagates. |
| Parser.ApplyDateStrategies | TimeZoneSwapper.py:215-259 | The imperative date chain equals `ResolveDate`. |
| Parser.ReadTime | TimeZoneSwapper.py:262-281 | The imperative time step equals `FinishTime`. |
| Parser.ParseInput | TimeZoneSwapper.py:192-281 | `parse_input` equals `ParseSpec`, so `ParseSpecOutcome` fixes its result: in-range input yields that datetime. `None` input and blank input give `None`. A parse holds a valid datetime, and its hint follows the marker rule. |
| Render.Hour12 | TimeZoneSwapper.py:315 | `%-I` is in 1..12 and congruent to the 24-hour hour mod 12. |
| Render.MeridiemText | TimeZoneSwapper.py:315 | `%p` lower-cased is two lower-case letters that `TIME_RE` reads back as the same meridiem. |
| Render.To24HourInvertsHour12 | TimeZoneSwapper.py:267-275 | The 12-hour normalisation of `parse_input` undoes the 12-hour clock: 12am is 0, 12pm is 12, 9pm is 21. |
| Render.To24HourRange | TimeZoneSwapper.py:267-275 | For a shown hour 1..12 with a meridiem, the 24-hour hour lies in 0..23, is before noon exactly for `am`, and shows back as the same hour. |
| Render.To24HourPassThrough | TimeZoneSwapper.py:267-275 | Without a meridiem every hour passes through unchanged (15 stays 15). An hour of 13 or more is unchanged whatever the meridiem. Hour 0 becomes 12 with pm and stays 0 with am. |
| Render.TimeTextShape | TimeZoneSwapper.py:315 | The rendered time is a one- or two-digit hour without a leading zero, a colon, two minute digits and the meridiem. |
| Render.TimeTextReadsBack | TimeZoneSwapper.py:315 | `TIME_RE` on the rendered time, whatever follows it, finds the 12-hour hour, the minute and the meridiem at position 0. Normalising gives the original 24-hour hour. |
| Render.TimeTextIsWord | TimeZoneSwapper.py:315 | The rendered time is one non-empty word without whitespace. |
| Render.FormatIsJoin | TimeZoneSwapper.py:320 | The rendering is its five fields joined by single spaces. |
| Render.FormatFields | TimeZoneSwapper.py:311-320 | The rendering splits into exactly five fields: time, weekday abbreviation, month abbreviation, day without a leading zero, label. |
| Swapper.Annotate | TimeZoneSwapper.py:349 | The output is the stripped input, then ` (`, the converted text, and `)`. |
| Swapper.Swap | TimeZoneSwapper.py:330-350 | The empty advisory is written exactly for missing or blank input, the parse advisory exactly when `parse_input` gives `None`, and the tzdata advisory exactly when the conversion raises `ZoneInfoNotFoundError`. A parse exception or a conversion overflow escapes. Otherwise the output annotates the stripped input with the rendering of the converted time and the target's label. |
| Swapper.AdvisoriesDistinct | TimeZoneSwapper.py:331-345 | The empty, parse and tzdata advisories are three different texts. |
| Swapper.OutcomesDistinct | TimeZoneSwapper.py:331-349 | No converted output equals an advisory, because it ends with the `T` of its label and a closing parenthesis. |
| Swapper.AnnotatedOutput | TimeZoneSwapper.py:348-349 | The parenthesised part of a success is five fields. Its first reads back through `TIME_RE` as the converted hour and minute, and its last is `AWST` exactly when the target is AWST and `ET` exactly when it is ET. |
| ReadBack.IsoTextReadsBack | TimeZoneSwapper.py:57 | `ISO_DATE_RE` finds an ISO-written date at the start of the text, whatever follows, with its own year, month and day. `fromisoformat` gives the date back, and the ISO strategy sets it. |
| ReadBack.MonthFromItsAbbreviation | TimeZoneSwapper.py:228 | `strptime(abbreviation, "%b").month` is the month it abbreviates. |
| ReadBack.MonthDayReadsBack | TimeZoneSwapper.py:222-230 | `MONTHDAY_RE` finds a month abbreviation, a space and a day at the start of the text when no digit follows. Group `mon` is the abbreviation and group `day` the day. The strategy sets that day of the month in the current year, and stays silent where `date()` raises. |

## Left out

- Clipboard access through Win32 `ctypes`, its retry and sleep loop, and argv joining (lines 88-173 and 325-328). These are I/O and foreign calls. `Swap` receives the text already read, and returns the text to be written instead of writing it.
- `astimezone` and the zone rules (line 343). The conversion is an injected total function `convert`: it returns the target wall-clock time, `ZoneInfoNotFound`, or `ConversionOverflow`. DST rules are not modelled, so there is no proof that the converted time is correct.
- `date.today()` and `datetime.now().astimezone()`. They become the parameters `today` and `hostZoneName`. The program calls `date.today()` at four places (lines 229, 238, 258 and 278), and at most two of them run in one call (line 229, then one of the others). The model uses one value for all of them, so a run across midnight is not modelled. How the host name is obtained from the zone object (`key`, `zone`, `str`, lines 292-294) is not modelled either: the name is given.
- The regular-expression engine. Each pattern is modelled directly:
  - `\w` and `\d` cover ASCII letters, digits and `_` only, where Python's Unicode classes are wider.
  - `IGNORECASE` lowering is ASCII only, so non-ASCII case folding (the Kelvin sign or the long s) is not modelled.
  - `\s`, `split()` and `strip()` use Python's full whitespace set.
- The `strftime` locale machinery. `%a` and `%b` are the C locale's English abbreviations.
- The Windows fallback branch of `format_short_core` (lines 317-319). Only the format both branches produce is modelled.
