/**
 * The body of `main` once the input text is known: pick the advisory or the
 * converted rendering that goes back to the clipboard.
 */
module Swapper {
  import opened Wrappers
  import opened Text
  import opened Calendar
  import opened Zones
  import opened Lexer
  import opened Parser
  import opened Render

  const EmptyAdvisory: string := "[tz] clipboard empty (copy a time first)"
  const ParseAdvisory: string :=
    "[tz] could not parse (try 'next tuesday 3pm', '3:30 PM', or include 'ET'/'Perth')"
  const TzDataAdvisory: string := "[tz] missing tzdata. Run: python -m pip install --user tzdata"

  /**
   * What `dt_source.astimezone(tgt_zone)` does: the wall-clock datetime in
   * the target zone, or the `ZoneInfoNotFoundError` that `main` catches, or
   * the `OverflowError` it does not (a conversion past year 1 or 9999).
   */
  datatype Conversion = Converted(local: ValidDateTime) | ZoneInfoNotFound | ConversionOverflow

  /** An exception that escapes `main`. */
  datatype Crash = ParseCrash(error: ParseError) | OverflowCrash

  /** The text `main` writes to the clipboard, or the exception that ends it first. */
  datatype Outcome = Written(text: string) | Crashed(crash: Crash)

  /** `f"{raw.strip()} ({converted})"`. */
  function Annotate(raw: string, converted: string): (out: string)
    ensures |out| == |Strip(raw)| + |converted| + 3
    ensures out[..|Strip(raw)|] == Strip(raw)
    ensures out[|Strip(raw)|..|Strip(raw)| + 2] == " ("
    ensures out[|Strip(raw)| + 2..|out| - 1] == converted
    ensures out[|out| - 1] == ')'
  {
    Strip(raw) + " (" + converted + ")"
  }

  /**
   * `main()` after the input is read: `raw` is the clipboard text (`None`
   * when there is none), `today` is `date.today()`, `hostZoneName` names the
   * host's zone and `convert` is `astimezone`.
   */
  method Swap(raw: Option<string>, today: Date, hostZoneName: string,
              convert: (ZonedDateTime, Zone) -> Conversion) returns (out: Outcome)
    requires IsValidDate(today)
    ensures out == Written(EmptyAdvisory) <==> raw.None? || AllSpace(raw.value)
    ensures out == Written(ParseAdvisory) <==>
              raw.Some? && !AllSpace(raw.value) && ParseSpec(raw.value, today) == NoParse
    ensures out == Written(TzDataAdvisory) <==>
              raw.Some? && ParseSpec(raw.value, today).Parsed? &&
              var p := ParseSpec(raw.value, today);
              var (source, src, tgt) := DetermineSourceAndTarget(p.dt, p.hint, hostZoneName);
              convert(source, tgt).ZoneInfoNotFound?
    ensures raw.Some? && ParseSpec(raw.value, today).Raised? ==>
              out == Crashed(ParseCrash(ParseSpec(raw.value, today).error))
    ensures raw.Some? && ParseSpec(raw.value, today).Parsed? ==>
              var p := ParseSpec(raw.value, today);
              var (source, src, tgt) := DetermineSourceAndTarget(p.dt, p.hint, hostZoneName);
              match convert(source, tgt)
              case ZoneInfoNotFound => out == Written(TzDataAdvisory)
              case ConversionOverflow => out == Crashed(OverflowCrash)
              case Converted(local) =>
                out == Written(Annotate(raw.value, FormatShortCore(local, TzLabelFor(tgt))))
  {
    AdvisoriesDistinct();
    if raw.None? || Strip(raw.value) == [] {
      return Written(EmptyAdvisory);
    }
    var text := raw.value;

    var parsed := ParseInput(Some(text), today);
    if parsed.NoParse? {
      return Written(ParseAdvisory);
    }
    if parsed.Raised? {
      return Crashed(ParseCrash(parsed.error));
    }

    var dtNaive, srcHint := parsed.dt, parsed.hint;
    var (dtSource, srcZone, tgtZone) := DetermineSourceAndTarget(dtNaive, srcHint, hostZoneName);
    var dtTarget := convert(dtSource, tgtZone);
    if dtTarget.ZoneInfoNotFound? {
      return Written(TzDataAdvisory);
    }
    if dtTarget.ConversionOverflow? {
      return Crashed(OverflowCrash);
    }

    var converted := FormatShortCore(dtTarget.local, TzLabelFor(tgtZone));
    OutcomesDistinct(text, dtTarget.local, tgtZone);
    out := Written(Annotate(text, converted));
  }

  /**
   * A successful run writes the stripped input and, in parentheses, the five
   * fields of the short rendering: the time, which `TIME_RE` reads back as
   * the converted hour and minute, then the weekday, month and day, then
   * the label, which is `AWST` exactly when the target zone is AWST and `ET`
   * otherwise.
   */
  lemma AnnotatedOutput(raw: string, local: ValidDateTime, tgt: Zone)
    ensures var c := FormatShortCore(local, TzLabelFor(tgt));
            var out := Annotate(raw, c);
            out[|Strip(raw)| + 2..|out| - 1] == c
            && |Split(c)| == 5
            && SearchTime(Split(c)[0]).Some?
            && To24Hour(SearchTime(Split(c)[0]).value.1.hour, SearchTime(Split(c)[0]).value.1.meridiem) == local.hour
            && SearchTime(Split(c)[0]).value.1.minute == Some(local.minute)
            && (Split(c)[4] == "AWST" <==> tgt == AWST)
            && (Split(c)[4] == "ET" <==> tgt == ET)
  {
    var tag := TzLabelFor(tgt);
    assert tag != [] && NoSpace(tag) by {
      if tgt == AWST {
        assert tag == "AWST";
      } else {
        assert tag == "ET";
      }
    }
    var c := FormatShortCore(local, tag);
    var t := TimeText(local.hour, local.minute);
    FormatFields(local, tag);
    assert Split(c)[0] == t && Split(c)[4] == tag;
    assert t + [] == t;
    TimeTextReadsBack(local.hour, local.minute, []);
    var m := SearchTime(t);
    assert m == Some((0, TimeToken(Hour12(local.hour), Some(local.minute), Some(MeridiemOf(local.hour)))));
  }

  /** The three advisories are different texts. */
  lemma AdvisoriesDistinct()
    ensures EmptyAdvisory != ParseAdvisory && EmptyAdvisory != TzDataAdvisory && ParseAdvisory != TzDataAdvisory
  {
    assert EmptyAdvisory[|EmptyAdvisory| - 2] == 't';
    assert ParseAdvisory[|ParseAdvisory| - 2] == '\'';
  }

  /**
   * The four texts `main` can write are told apart by their next-to-last
   * character: a converted rendering ends with the `T` of its zone label
   * and a closing parenthesis, which no advisory does.
   */
  lemma OutcomesDistinct(raw: string, local: ValidDateTime, tgt: Zone)
    ensures Annotate(raw, FormatShortCore(local, TzLabelFor(tgt))) != EmptyAdvisory
    ensures Annotate(raw, FormatShortCore(local, TzLabelFor(tgt))) != ParseAdvisory
    ensures Annotate(raw, FormatShortCore(local, TzLabelFor(tgt))) != TzDataAdvisory
  {
    var tag := TzLabelFor(tgt);
    assert tag[|tag| - 1] == 'T' by {
      if tgt == AWST {
        assert tag == "AWST";
      } else {
        assert tag == "ET";
      }
    }
    var c := FormatShortCore(local, tag);
    assert c[|c| - 1] == 'T';
    var out := Annotate(raw, c);
    assert out[|out| - 2] == c[|c| - 1];
    assert EmptyAdvisory[|EmptyAdvisory| - 2] == 't';
    assert ParseAdvisory[|ParseAdvisory| - 2] == '\'';
    assert TzDataAdvisory[|TzDataAdvisory| - 2] == 't';
  }
}
