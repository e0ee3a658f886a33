/**
 * The rule engine's immutable verdict (EligibilityResult.java). A datatype value can never
 * change after it is built, as the Java class's final fields and missing setters promise.
 */
module EligibilityResults {
  import opened Zones

  datatype EligibilityResult = EligibilityResult(
    eligible: bool,
    reason: string,
    matchedZoneNames: seq<string>,
    confidenceScore: real)

  /** `matchedZones.stream().map(EligibilityZone::getZoneName)`: one name per zone, in order. */
  function ZoneNames(zones: seq<Zone>): (names: seq<string>)
    ensures |names| == |zones|
    ensures forall i :: 0 <= i < |zones| ==> names[i] == zones[i].zoneName
  {
    if zones == [] then [] else [zones[0].zoneName] + ZoneNames(zones[1..])
  }

  /** The constructor: the verdict, reason and score as given, and the zones' names. */
  function NewResult(eligible: bool, reason: string, zones: seq<Zone>, confidenceScore: real)
    : (r: EligibilityResult)
    ensures r.eligible == eligible && r.reason == reason && r.confidenceScore == confidenceScore
    ensures |r.matchedZoneNames| == |zones|
    ensures forall i :: 0 <= i < |zones| ==> r.matchedZoneNames[i] == zones[i].zoneName
  {
    EligibilityResult(eligible, reason, ZoneNames(zones), confidenceScore)
  }

  /** Names are mapped element by element, so a repeated zone gives a repeated name. */
  lemma {:induction false} ZoneNamesAppend(a: seq<Zone>, b: seq<Zone>)
    ensures ZoneNames(a + b) == ZoneNames(a) + ZoneNames(b)
  {
    var joined, parts := ZoneNames(a + b), ZoneNames(a) + ZoneNames(b);
    forall i | 0 <= i < |joined|
      ensures joined[i] == parts[i]
    {
      if i < |a| {
        assert (a + b)[i] == a[i];
      } else {
        assert (a + b)[i] == b[i - |a|];
      }
    }
  }
}
