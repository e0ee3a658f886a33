/**
 * The zone-scoring rule engine (EligibilityRuleEngine.java): de-duplicates and orders the
 * candidate zones, scores each by type and priority, combines the scores into a clamped
 * confidence, compares it with the threshold and explains the verdict.
 * Scores and coordinates are exact reals, not IEEE doubles.
 */
module RuleEngine {
  import opened Options
  import opened JavaStrings
  import opened Seqs
  import opened Zones
  import opened EligibilityRequests
  import opened EligibilityResults

  /** The two `@Value` settings of the engine. */
  datatype RuleEngine = RuleEngine(rulesEnabled: bool, minConfidenceScore: real)

  /** `eligibility.rules.enabled:true` and `eligibility.rules.min-confidence-score:0.5`. */
  const DefaultEngine := RuleEngine(true, 0.5)

  const RulesDisabledReason := "Rules disabled - automatically eligible"
  const NoZoneReason := "Address is not in any eligible service area"

  /** The score a zone's type earns when the request meets the type's own criterion. */
  function BaseScore(request: AddressEligibilityRequest, z: Zone): real {
    match z.zoneType
    case ZipCode => if request.zipCode in z.zipCodes then 1.0 else 0.0
    case City => if request.city in z.cities then 0.8 else 0.0
    case State => if request.state in z.states then 0.6 else 0.0
    case Coordinates =>
      if request.latitude.Some? && request.longitude.Some?
         && IsWithinCoordinateBounds(request.latitude.value, request.longitude.value, z)
      then 0.9 else 0.0
    case Custom => 0.7
  }

  function PriorityWeight(priority: int): real {
    1.0 + priority as real * 0.1
  }

  /** The base score scaled by the zone's priority weight. */
  function ZoneScore(request: AddressEligibilityRequest, z: Zone): real {
    BaseScore(request, z) * PriorityWeight(z.priority)
  }

  /** The running sum of the weighted scores. */
  function ScoreSum(request: AddressEligibilityRequest, zones: seq<Zone>): real
    decreases |zones|
  {
    if zones == [] then 0.0
    else ScoreSum(request, zones[..|zones| - 1]) + ZoneScore(request, zones[|zones| - 1])
  }

  /** The running maximum of the weighted scores, starting from 0. */
  function MaxScore(request: AddressEligibilityRequest, zones: seq<Zone>): (m: real)
    ensures m >= 0.0
    decreases |zones|
  {
    if zones == [] then 0.0
    else
      var m := MaxScore(request, zones[..|zones| - 1]);
      var s := ZoneScore(request, zones[|zones| - 1]);
      if s > m then s else m
  }

  /** The running maximum bounds every score and is 0 or the score of some zone. */
  lemma {:induction false} MaxScoreIsMaximum(request: AddressEligibilityRequest, zones: seq<Zone>)
    ensures forall z :: z in zones ==> ZoneScore(request, z) <= MaxScore(request, zones)
    ensures MaxScore(request, zones) == 0.0
         || exists z :: z in zones && ZoneScore(request, z) == MaxScore(request, zones)
    decreases |zones|
  {
    if zones != [] {
      var init := zones[..|zones| - 1];
      MaxScoreIsMaximum(request, init);
      assert zones == init + [zones[|zones| - 1]];
    }
  }

  /** `Math.min(1.0, Math.max(0.0, x))`. */
  function Clamp(x: real): (r: real)
    ensures 0.0 <= r <= 1.0
    ensures 0.0 <= x <= 1.0 ==> r == x
    ensures x >= 1.0 ==> r == 1.0
    ensures x <= 0.0 ==> r == 0.0
  {
    var low := if x > 0.0 then x else 0.0;
    if low < 1.0 then low else 1.0
  }

  /** The mean of the average and the maximum weighted score, clamped to [0, 1]. */
  function Confidence(request: AddressEligibilityRequest, zones: seq<Zone>): (c: real)
    ensures 0.0 <= c <= 1.0
    ensures zones == [] ==> c == 0.0
  {
    if zones == [] then 0.0
    else Clamp((ScoreSum(request, zones) / |zones| as real + MaxScore(request, zones)) / 2.0)
  }

  /** `calculateConfidenceScore`: one pass updating both accumulators. */
  /** Extending a prefix by one zone adds its score to the sum and may raise the maximum. */
  lemma PrefixStep(request: AddressEligibilityRequest, zones: seq<Zone>, i: nat)
    requires i < |zones|
    ensures ScoreSum(request, zones[..i + 1]) == ScoreSum(request, zones[..i]) + ZoneScore(request, zones[i])
    ensures MaxScore(request, zones[..i + 1])
         == if ZoneScore(request, zones[i]) > MaxScore(request, zones[..i]) then ZoneScore(request, zones[i])
            else MaxScore(request, zones[..i])
  {
    assert zones[..i + 1][..i] == zones[..i];
  }

  method CalculateConfidenceScore(request: AddressEligibilityRequest, zones: seq<Zone>)
    returns (confidence: real)
    ensures confidence == Confidence(request, zones)
    ensures 0.0 <= confidence <= 1.0
  {
    if zones == [] {
      return 0.0;
    }
    var baseScore := 0.0;
    var maxScore := 0.0;
    for i := 0 to |zones|
      invariant baseScore == ScoreSum(request, zones[..i])
      invariant maxScore == MaxScore(request, zones[..i])
    {
      var zone := zones[i];
      var zoneScore := BaseScore(request, zone);
      zoneScore := zoneScore * PriorityWeight(zone.priority);
      assert zoneScore == ZoneScore(request, zone);
      PrefixStep(request, zones, i);
      if zoneScore > maxScore {
        maxScore := zoneScore;
      }
      baseScore := baseScore + zoneScore;
    }
    assert zones[..|zones|] == zones;
    var avgScore := baseScore / |zones| as real;
    var finalScore := (avgScore + maxScore) / 2.0;
    confidence := Clamp(finalScore);
  }

  /** `String.format("%.2f", v)`: rounded half up to two decimals (exact, not IEEE). */
  function FormatFixed2(v: real): string {
    if v < 0.0 then "-" + TwoDecimals(Hundredths(-v)) else TwoDecimals(Hundredths(v))
  }

  /** A non-negative value rounded half up to a whole number of hundredths. */
  function Hundredths(v: real): (h: nat)
    requires v >= 0.0
    ensures h as real <= v * 100.0 + 0.5 < h as real + 1.0
  {
    (v * 100.0 + 0.5).Floor
  }

  /** A count of hundredths written as units, a point and exactly two decimals. */
  function TwoDecimals(h: nat): (r: string)
    ensures |r| >= 4 && r[|r| - 3] == '.'
  {
    NatToString(h / 100) + "." + [DigitChar(h % 100 / 10), DigitChar(h % 10)]
  }

  /** Reads back the hundredths from a text shaped like `TwoDecimals`'s. */
  function ParseTwoDecimals(s: string): nat
    requires |s| >= 3
  {
    ParseNat(s[..|s| - 3]) * 100 + DigitValue(s[|s| - 2]) * 10 + DigitValue(s[|s| - 1])
  }

  /** The two-decimal text denotes exactly the rounded value. */
  lemma TwoDecimalsRoundTrip(h: nat)
    ensures ParseTwoDecimals(TwoDecimals(h)) == h
  {
    var r := TwoDecimals(h);
    var units := NatToString(h / 100);
    assert r[..|r| - 3] == units;
    ParseNatRoundTrip(h / 100);
  }

  const EligibleReasonPrefix := "Address is eligible for service (Zone: "
  const ConfidenceLabel := ", Confidence: "
  const IneligibleReasonPrefix := "Address does not meet minimum eligibility requirements (Confidence: "
  const RequiredLabel := "%, Required: "

  /** The reason for an eligible address: the primary zone and the confidence in percent. */
  function EligibleReason(zoneName: string, confidence: real): string {
    Concat([EligibleReasonPrefix, zoneName, ConfidenceLabel, FormatFixed2(confidence * 100.0), "%)"])
  }

  /** The reason for an ineligible address: the confidence and the threshold in percent. */
  function IneligibleReason(confidence: real, threshold: real): string {
    Concat([IneligibleReasonPrefix, FormatFixed2(confidence * 100.0), RequiredLabel,
            FormatFixed2(threshold * 100.0), "%)"])
  }

  /** `generateReason`. */
  function GenerateReason(engine: RuleEngine, isEligible: bool, zones: seq<Zone>, confidence: real)
    : string
  {
    if zones == [] then NoZoneReason
    else if isEligible then EligibleReason(zones[0].zoneName, confidence)
    else IneligibleReason(confidence, engine.minConfidenceScore)
  }

  /** `distinct()` then the stable priority sort. */
  function UniqueZones(zones: seq<Zone>): seq<Zone> {
    SortByPriority(Distinct(zones))
  }

  /** What `evaluate` returns. */
  function Evaluation(engine: RuleEngine, request: AddressEligibilityRequest, matchedZones: seq<Zone>)
    : EligibilityResult
  {
    if !engine.rulesEnabled then NewResult(true, RulesDisabledReason, matchedZones, 1.0)
    else if matchedZones == [] then NewResult(false, NoZoneReason, matchedZones, 0.0)
    else
      var uniqueZones := UniqueZones(matchedZones);
      var confidence := Confidence(request, uniqueZones);
      var isEligible := confidence >= engine.minConfidenceScore;
      NewResult(isEligible, GenerateReason(engine, isEligible, uniqueZones, confidence),
                uniqueZones, confidence)
  }

  /** `evaluate`, running the scoring loop. */
  method Evaluate(engine: RuleEngine, request: AddressEligibilityRequest, matchedZones: seq<Zone>)
    returns (result: EligibilityResult)
    ensures result == Evaluation(engine, request, matchedZones)
  {
    if !engine.rulesEnabled {
      return NewResult(true, RulesDisabledReason, matchedZones, 1.0);
    }
    if matchedZones == [] {
      return NewResult(false, NoZoneReason, matchedZones, 0.0);
    }
    var uniqueZones := SortByPriority(Distinct(matchedZones));
    var confidenceScore := CalculateConfidenceScore(request, uniqueZones);
    var isEligible := confidenceScore >= engine.minConfidenceScore;
    var reason := GenerateReason(engine, isEligible, uniqueZones, confidenceScore);
    result := NewResult(isEligible, reason, uniqueZones, confidenceScore);
  }

  // ---------------------------------------------------------------------------------------
  // Properties of the evaluation
  // ---------------------------------------------------------------------------------------

  /** With rules disabled every address is eligible and the zones pass through untouched. */
  lemma RulesDisabledAlwaysEligible(engine: RuleEngine, request: AddressEligibilityRequest,
                                    zones: seq<Zone>)
    requires !engine.rulesEnabled
    ensures var r := Evaluation(engine, request, zones);
      && r.eligible && r.confidenceScore == 1.0
      && r.reason == "Rules disabled - automatically eligible"
      && r.matchedZoneNames == ZoneNames(zones)
  {
  }

  /** With rules enabled and no candidate zone the address is not eligible. */
  lemma NoZonesNotEligible(engine: RuleEngine, request: AddressEligibilityRequest)
    requires engine.rulesEnabled
    ensures var r := Evaluation(engine, request, []);
      && !r.eligible && r.confidenceScore == 0.0
      && r.reason == "Address is not in any eligible service area"
      && r.matchedZoneNames == []
  {
  }

  /**
   * The zones behind the names: each input zone once, highest priority first, and zones
   * of equal priority in the order of their first occurrence.
   */
  lemma UniqueZonesOrder(zones: seq<Zone>)
    ensures forall z :: z in UniqueZones(zones) <==> z in zones
    ensures NoDuplicates(UniqueZones(zones))
    ensures SortedByPriority(UniqueZones(zones))
    ensures forall p :: WithPriority(UniqueZones(zones), p) == WithPriority(Distinct(zones), p)
  {
    SortKeepsMembers(Distinct(zones));
    SortKeepsNoDuplicates(Distinct(zones));
    forall p ensures WithPriority(UniqueZones(zones), p) == WithPriority(Distinct(zones), p) {
      SortIsStable(Distinct(zones), p);
    }
  }

  /** With rules enabled, the result names the de-duplicated zones in priority order. */
  lemma MatchedNamesFollowPriority(engine: RuleEngine, request: AddressEligibilityRequest,
                                   zones: seq<Zone>)
    requires engine.rulesEnabled && zones != []
    ensures var r := Evaluation(engine, request, zones);
      && r.matchedZoneNames == ZoneNames(UniqueZones(zones))
      && r.confidenceScore == Confidence(request, UniqueZones(zones))
  {
  }

  /** With rules enabled, the reason explains the verdict over the de-duplicated zones. */
  lemma EvaluationReason(engine: RuleEngine, request: AddressEligibilityRequest, zones: seq<Zone>)
    requires engine.rulesEnabled && zones != []
    ensures var r := Evaluation(engine, request, zones);
      r.reason == GenerateReason(engine, r.eligible, UniqueZones(zones), r.confidenceScore)
  {
  }

  /** The verdict is exactly "confidence reaches the threshold". */
  lemma EligibleIffThresholdMet(engine: RuleEngine, request: AddressEligibilityRequest,
                                zones: seq<Zone>)
    requires engine.rulesEnabled && zones != []
    ensures var r := Evaluation(engine, request, zones);
      r.eligible <==> r.confidenceScore >= engine.minConfidenceScore
  {
  }

  /** Raising the threshold never turns an ineligible result into an eligible one. */
  lemma RaisingThresholdNeverAdmits(request: AddressEligibilityRequest, zones: seq<Zone>,
                                    low: real, high: real)
    requires low <= high
    ensures Evaluation(RuleEngine(true, high), request, zones).eligible
        ==> Evaluation(RuleEngine(true, low), request, zones).eligible
  {
  }

  /** With rules enabled, repeating a candidate zone changes nothing. */
  lemma RepeatedZoneChangesNothing(engine: RuleEngine, request: AddressEligibilityRequest,
                                   zones: seq<Zone>, z: Zone)
    requires engine.rulesEnabled
    requires z in zones
    ensures Evaluation(engine, request, zones + [z]) == Evaluation(engine, request, zones)
  {
    DistinctAppendPresent(zones, z);
  }

  /** The primary zone (first after sorting) has the highest priority among the candidates. */
  lemma PrimaryZoneHasTopPriority(zones: seq<Zone>)
    requires zones != []
    ensures UniqueZones(zones) != []
    ensures UniqueZones(zones)[0] in zones
    ensures forall z :: z in zones ==> z.priority <= UniqueZones(zones)[0].priority
  {
    UniqueZonesOrder(zones);
    var u := UniqueZones(zones);
    assert zones[0] in u;
    forall z | z in zones ensures z.priority <= u[0].priority {
      var k :| 0 <= k < |u| && u[k] == z;
    }
  }

  /**
   * An eligible reason names the primary zone, the one of highest priority, and the
   * confidence as a percentage.
   */
  lemma ReasonNamesPrimaryZone(engine: RuleEngine, request: AddressEligibilityRequest,
                               zones: seq<Zone>)
    requires engine.rulesEnabled && zones != []
    ensures UniqueZones(zones) != []
    ensures forall z :: z in zones ==> z.priority <= UniqueZones(zones)[0].priority
    ensures var r := Evaluation(engine, request, zones);
      r.eligible ==>
        r.reason == EligibleReason(UniqueZones(zones)[0].zoneName, r.confidenceScore)
  {
    PrimaryZoneHasTopPriority(zones);
    EvaluationReason(engine, request, zones);
  }

  /** An ineligible reason quotes the confidence and the required threshold as percentages. */
  lemma IneligibleReasonQuotesThreshold(engine: RuleEngine, request: AddressEligibilityRequest,
                                        zones: seq<Zone>)
    requires engine.rulesEnabled && zones != []
    ensures var r := Evaluation(engine, request, zones);
      !r.eligible ==>
        r.reason == IneligibleReason(r.confidenceScore, engine.minConfidenceScore)
  {
    EvaluationReason(engine, request, zones);
  }

  /** Sum of the scores over a concatenation. */
  lemma {:induction false} ScoreSumAppend(request: AddressEligibilityRequest, a: seq<Zone>, b: seq<Zone>)
    ensures ScoreSum(request, a + b) == ScoreSum(request, a) + ScoreSum(request, b)
    decreases |b|
  {
    if b == [] {
      assert a + b == a;
    } else {
      var b' := b[..|b| - 1];
      ScoreSumAppend(request, a, b');
      assert (a + b)[..|a + b| - 1] == a + b';
    }
  }

  /** The sum of the scores does not depend on the order of the zones. */
  lemma {:induction false} ScoreSumPermutation(request: AddressEligibilityRequest, a: seq<Zone>, b: seq<Zone>)
    requires multiset(a) == multiset(b)
    ensures ScoreSum(request, a) == ScoreSum(request, b)
    decreases |a|
  {
    if a != [] {
      var x := a[|a| - 1];
      var a' := a[..|a| - 1];
      assert a == a' + [x];
      assert x in multiset(b);
      var j :| 0 <= j < |b| && b[j] == x;
      var b' := b[..j] + b[j + 1..];
      assert b == b[..j] + [x] + b[j + 1..];
      assert multiset(b) == multiset(b[..j]) + multiset{x} + multiset(b[j + 1..]);
      assert multiset(a) == multiset(a') + multiset{x};
      assert multiset(b') == multiset(b[..j]) + multiset(b[j + 1..]);
      assert multiset(a') == multiset(a) - multiset{x};
      assert multiset(b') == multiset(b) - multiset{x};
      ScoreSumPermutation(request, a', b');
      ScoreSumAppend(request, b[..j] + [x], b[j + 1..]);
      ScoreSumAppend(request, b[..j], [x]);
      ScoreSumAppend(request, b[..j], b[j + 1..]);
      assert ScoreSum(request, [x]) == ZoneScore(request, x) by {
        assert [x][..0] == [];
      }
    } else {
      assert |b| == |multiset(b)| == 0;
    }
  }

  /** The maximum depends only on which zones are present. */
  lemma MaxScoreSameMembers(request: AddressEligibilityRequest, a: seq<Zone>, b: seq<Zone>)
    requires forall z :: z in a <==> z in b
    ensures MaxScore(request, a) == MaxScore(request, b)
  {
    MaxScoreIsMaximum(request, a);
    MaxScoreIsMaximum(request, b);
  }

  /** Two sequences with the same members are empty together. */
  lemma EmptyTogether<T>(a: seq<T>, b: seq<T>)
    requires forall z :: z in a <==> z in b
    ensures a == [] <==> b == []
  {
    if a != [] {
      assert a[0] in b;
    }
    if b != [] {
      assert b[0] in a;
    }
  }

  /**
   * The confidence depends only on which zones were found, not on the order the queries
   * returned them in nor on how often a zone was found.
   */
  lemma ConfidenceDependsOnlyOnZoneSet(request: AddressEligibilityRequest, a: seq<Zone>, b: seq<Zone>)
    requires forall z :: z in a <==> z in b
    ensures Confidence(request, UniqueZones(a)) == Confidence(request, UniqueZones(b))
  {
    UniqueZonesOrder(a);
    UniqueZonesOrder(b);
    var ua, ub := UniqueZones(a), UniqueZones(b);
    SameMembersArePermutations(ua, ub);
    assert |ua| == |multiset(ua)| == |multiset(ub)| == |ub|;
    ScoreSumPermutation(request, ua, ub);
    MaxScoreSameMembers(request, ua, ub);
  }

  /** Hence the verdict and the confidence depend only on the set of candidate zones. */
  lemma VerdictDependsOnlyOnZoneSet(engine: RuleEngine, request: AddressEligibilityRequest,
                                    a: seq<Zone>, b: seq<Zone>)
    requires engine.rulesEnabled
    requires forall z :: z in a <==> z in b
    ensures Evaluation(engine, request, a).eligible == Evaluation(engine, request, b).eligible
    ensures Evaluation(engine, request, a).confidenceScore
         == Evaluation(engine, request, b).confidenceScore
  {
    EmptyTogether(a, b);
    if a != [] {
      ConfidenceDependsOnlyOnZoneSet(request, a, b);
      MatchedNamesFollowPriority(engine, request, a);
      MatchedNamesFollowPriority(engine, request, b);
      EligibleIffThresholdMet(engine, request, a);
      EligibleIffThresholdMet(engine, request, b);
    }
  }

  /** With no negative priority, no zone score is negative. */
  lemma {:induction false} ScoreSumNonNegative(request: AddressEligibilityRequest, zones: seq<Zone>)
    requires forall z :: z in zones ==> z.priority >= 0
    ensures ScoreSum(request, zones) >= 0.0
    decreases |zones|
  {
    if zones != [] {
      var last := zones[|zones| - 1];
      ScoreSumNonNegative(request, zones[..|zones| - 1]);
      assert last in zones;
      assert PriorityWeight(last.priority) >= 1.0;
      assert BaseScore(request, last) >= 0.0;
    }
  }

  /** An average of non-negative scores is non-negative. */
  lemma MeanNonNegative(sum: real, n: nat)
    requires sum >= 0.0 && n > 0
    ensures sum / n as real >= 0.0
  {
  }

  /**
   * With no negative priority, a ZIP_CODE zone listing the request's ZIP lifts the
   * confidence to at least one half.
   */
  lemma MatchingZipZoneConfidence(request: AddressEligibilityRequest, zones: seq<Zone>, zipZone: Zone)
    requires forall z :: z in zones ==> z.priority >= 0
    requires zipZone in zones && zipZone.zoneType == ZipCode && request.zipCode in zipZone.zipCodes
    ensures Confidence(request, UniqueZones(zones)) >= 0.5
  {
    UniqueZonesOrder(zones);
    var u := UniqueZones(zones);
    assert zipZone in u;
    assert ZoneScore(request, zipZone) >= 1.0 by {
      assert BaseScore(request, zipZone) == 1.0;
      assert PriorityWeight(zipZone.priority) >= 1.0;
    }
    MaxScoreIsMaximum(request, u);
    ScoreSumNonNegative(request, u);
    MeanNonNegative(ScoreSum(request, u), |u|);
  }

  /**
   * Hence such a zone makes the address eligible under any threshold up to the default 0.5.
   */
  lemma MatchingZipZoneIsEligible(engine: RuleEngine, request: AddressEligibilityRequest,
                                  zones: seq<Zone>, zipZone: Zone)
    requires engine.rulesEnabled && engine.minConfidenceScore <= 0.5
    requires forall z :: z in zones ==> z.priority >= 0
    requires zipZone in zones && zipZone.zoneType == ZipCode && request.zipCode in zipZone.zipCodes
    ensures Evaluation(engine, request, zones).eligible
    ensures Evaluation(engine, request, zones).confidenceScore >= 0.5
  {
    MatchingZipZoneConfidence(request, zones, zipZone);
    MatchedNamesFollowPriority(engine, request, zones);
    EligibleIffThresholdMet(engine, request, zones);
  }

  /** A lone ZIP_CODE zone of priority 15: weighted score 2.5, confidence clamped to 1.0. */
  lemma SingleHighPriorityZipZone(request: AddressEligibilityRequest, zipZone: Zone)
    requires zipZone.zoneType == ZipCode && request.zipCode in zipZone.zipCodes
    requires zipZone.priority == 15
    ensures ZoneScore(request, zipZone) == 2.5
    ensures Evaluation(DefaultEngine, request, [zipZone]).confidenceScore == 1.0
    ensures Evaluation(DefaultEngine, request, [zipZone]).eligible
  {
    var u := UniqueZones([zipZone]);
    assert Distinct([zipZone]) == [zipZone] by {
      assert [zipZone][..0] == [];
    }
    assert u == [zipZone];
    assert [zipZone][..0] == [];
    assert ScoreSum(request, u) == 2.5;
    assert MaxScore(request, u) == 2.5;
  }
}
