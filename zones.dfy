/**
 * The two civil zones, the choice of source and target zone
 * (`determine_source_and_target`) and the zone label (`tz_label_for`).
 */
module Zones {
  import opened Wrappers
  import opened Text
  import opened Calendar

  /** America/New_York (ET) and Australia/Perth (AWST). */
  datatype Zone = ET | AWST

  /** An aware datetime: wall-clock fields with a zone attached. */
  datatype ZonedDateTime = ZonedDateTime(local: DateTime, zone: Zone)

  /** The only zone that is not `z`. */
  function Other(z: Zone): (r: Zone)
    ensures r != z
  {
    if z == ET then AWST else ET
  }

  /** An occurrence of `small` inside an occurrence of `big` is an occurrence in `s`. */
  lemma ContainsThrough(s: string, big: string, small: string, j: nat)
    requires OccursAt(big, small, j) && Contains(s, big)
    ensures Contains(s, small)
  {
    var i: nat :| i <= |s| && OccursAt(s, big, i);
    assert OccursAt(s, big, i);
    forall k | 0 <= k < |small| ensures s[i + j + k] == small[k] {
      assert small[k] == big[j..j + |small|][k] == big[j + k];
      assert big[j + k] == s[i..i + |big|][j + k];
    }
    assert s[i + j..i + j + |small|] == small;
    assert OccursAt(s, small, i + j);
  }

  lemma FullNamesContainShortNames(name: string)
    ensures Contains(name, "America/New_York") ==> Contains(name, "New_York")
    ensures Contains(name, "Australia/Perth") ==> Contains(name, "Perth")
  {
    if Contains(name, "America/New_York") {
      assert OccursAt("America/New_York", "New_York", 8);
      ContainsThrough(name, "America/New_York", "New_York", 8);
    }
    if Contains(name, "Australia/Perth") {
      assert OccursAt("Australia/Perth", "Perth", 10);
      ContainsThrough(name, "Australia/Perth", "Perth", 10);
    }
  }

  /**
   * The zone the host's zone name points at. The full names
   * `America/New_York` and `Australia/Perth` are also tested in the program,
   * but each contains a shorter name that is tested too, so only the
   * short names decide.
   */
  function HostZone(name: string): (z: Zone)
    ensures z == ET <==> (Contains(name, "New_York") || Contains(name, "Eastern")
                          || !(Contains(name, "Perth") || Contains(name, "AWST")))
    ensures z == AWST <==> (!(Contains(name, "New_York") || Contains(name, "Eastern"))
                            && (Contains(name, "Perth") || Contains(name, "AWST")))
  {
    FullNamesContainShortNames(name);
    if Contains(name, "New_York") || Contains(name, "America/New_York") || Contains(name, "Eastern") then ET
    else if Contains(name, "Perth") || Contains(name, "Australia/Perth") || Contains(name, "AWST") then AWST
    else ET
  }

  /**
   * `determine_source_and_target(dt_naive, hint)`, with the host zone's name
   * passed in: the hint wins, otherwise the host name decides; the target is
   * the other zone; the source datetime keeps the naive wall-clock fields.
   */
  function DetermineSourceAndTarget(dtNaive: DateTime, hint: Option<Zone>, hostZoneName: string): (r: (ZonedDateTime, Zone, Zone))
    ensures hint.Some? ==> r.1 == hint.value
    ensures hint.None? ==> r.1 == HostZone(hostZoneName)
    ensures r.2 != r.1
    ensures r.0.local == dtNaive && r.0.zone == r.1
  {
    var source := if hint.Some? then hint.value else HostZone(hostZoneName);
    var target := if source == ET then AWST else ET;
    (ZonedDateTime(dtNaive, source), source, target)
  }

  /** `tz_label_for(zone)`. */
  function TzLabelFor(zone: Zone): (tag: string)
    ensures tag == "AWST" <==> zone == AWST
    ensures zone == ET ==> tag == "ET"
  {
    if zone == AWST then "AWST" else "ET"
  }
}
