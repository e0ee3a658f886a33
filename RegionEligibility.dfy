/**
 * Region eligibility (RegionEligibilityService.java): state names and two-letter codes are
 * brought to the directory's key form, then the city is checked in one county or, without a
 * county, in any county of the state; a reason explains the verdict.
 */
module RegionEligibility {
  import opened Options
  import opened JavaStrings
  import opened RegionsConfig

  /**
   * The fifty two-letter codes and the lower-case state names the directory is keyed by,
   * grouped by the first letter of the code.
   */
  function Abbreviation(code: string): (r: Option<string>)
    ensures r.Some? ==> |code| == 2 && IsStateName(r.value)
  {
    if |code| != 2 then None
    else ByFirstLetter(code[0], code[1])
  }

  /** The code whose letters are `first` and `second`, looked up by its first letter. */
  function ByFirstLetter(first: char, second: char): (r: Option<string>)
    ensures r.Some? ==> IsStateName(r.value)
  {
    match first
    case 'A' => AbbreviationsA(second)
    case 'C' => AbbreviationsC(second)
    case 'D' => AbbreviationsD(second)
    case 'F' => AbbreviationsF(second)
    case 'G' => AbbreviationsG(second)
    case 'H' => AbbreviationsH(second)
    case 'I' => AbbreviationsI(second)
    case 'K' => AbbreviationsK(second)
    case 'L' => AbbreviationsL(second)
    case 'M' => AbbreviationsM(second)
    case 'N' => AbbreviationsN(second)
    case 'O' => AbbreviationsO(second)
    case 'P' => AbbreviationsP(second)
    case 'R' => AbbreviationsR(second)
    case 'S' => AbbreviationsS(second)
    case 'T' => AbbreviationsT(second)
    case 'U' => AbbreviationsU(second)
    case 'V' => AbbreviationsV(second)
    case 'W' => AbbreviationsW(second)
    case _ => None
  }

  function AbbreviationsA(second: char): (r: Option<string>)
    ensures r.Some? ==> IsStateName(r.value)
  {
    match second
    case 'K' => Some("alaska")
    case 'L' => Some("alabama")
    case 'R' => Some("arkansas")
    case 'Z' => Some("arizona")
    case _ => None
  }

  function AbbreviationsC(second: char): (r: Option<string>)
    ensures r.Some? ==> IsStateName(r.value)
  {
    match second
    case 'A' => Some("california")
    case 'O' => Some("colorado")
    case 'T' => Some("connecticut")
    case _ => None
  }

  function AbbreviationsD(second: char): (r: Option<string>)
    ensures r.Some? ==> IsStateName(r.value)
  {
    match second
    case 'E' => Some("delaware")
    case _ => None
  }

  function AbbreviationsF(second: char): (r: Option<string>)
    ensures r.Some? ==> IsStateName(r.value)
  {
    match second
    case 'L' => Some("florida")
    case _ => None
  }

  function AbbreviationsG(second: char): (r: Option<string>)
    ensures r.Some? ==> IsStateName(r.value)
  {
    match second
    case 'A' => Some("georgia")
    case _ => None
  }

  function AbbreviationsH(second: char): (r: Option<string>)
    ensures r.Some? ==> IsStateName(r.value)
  {
    match second
    case 'I' => Some("hawaii")
    case _ => None
  }

  function AbbreviationsI(second: char): (r: Option<string>)
    ensures r.Some? ==> IsStateName(r.value)
  {
    match second
    case 'A' => Some("iowa")
    case 'D' => Some("idaho")
    case 'L' => Some("illinois")
    case 'N' => Some("indiana")
    case _ => None
  }

  function AbbreviationsK(second: char): (r: Option<string>)
    ensures r.Some? ==> IsStateName(r.value)
  {
    match second
    case 'S' => Some("kansas")
    case 'Y' => Some("kentucky")
    case _ => None
  }

  function AbbreviationsL(second: char): (r: Option<string>)
    ensures r.Some? ==> IsStateName(r.value)
  {
    match second
    case 'A' => Some("louisiana")
    case _ => None
  }

  function AbbreviationsM(second: char): (r: Option<string>)
    ensures r.Some? ==> IsStateName(r.value)
  {
    match second
    case 'A' => Some("massachusetts")
    case 'D' => Some("maryland")
    case 'E' => Some("maine")
    case 'I' => Some("michigan")
    case 'N' => Some("minnesota")
    case 'O' => Some("missouri")
    case 'S' => Some("mississippi")
    case 'T' => Some("montana")
    case _ => None
  }

  function AbbreviationsN(second: char): (r: Option<string>)
    ensures r.Some? ==> IsStateName(r.value)
  {
    match second
    case 'C' => Some("north carolina")
    case 'D' => Some("north dakota")
    case 'E' => Some("nebraska")
    case 'H' => Some("new hampshire")
    case 'J' => Some("new jersey")
    case 'M' => Some("new mexico")
    case 'V' => Some("nevada")
    case 'Y' => Some("new york")
    case _ => None
  }

  function AbbreviationsO(second: char): (r: Option<string>)
    ensures r.Some? ==> IsStateName(r.value)
  {
    match second
    case 'H' => Some("ohio")
    case 'K' => Some("oklahoma")
    case 'R' => Some("oregon")
    case _ => None
  }

  function AbbreviationsP(second: char): (r: Option<string>)
    ensures r.Some? ==> IsStateName(r.value)
  {
    match second
    case 'A' => Some("pennsylvania")
    case _ => None
  }

  function AbbreviationsR(second: char): (r: Option<string>)
    ensures r.Some? ==> IsStateName(r.value)
  {
    match second
    case 'I' => Some("rhode island")
    case _ => None
  }

  function AbbreviationsS(second: char): (r: Option<string>)
    ensures r.Some? ==> IsStateName(r.value)
  {
    match second
    case 'C' => Some("south carolina")
    case 'D' => Some("south dakota")
    case _ => None
  }

  function AbbreviationsT(second: char): (r: Option<string>)
    ensures r.Some? ==> IsStateName(r.value)
  {
    match second
    case 'N' => Some("tennessee")
    case 'X' => Some("texas")
    case _ => None
  }

  function AbbreviationsU(second: char): (r: Option<string>)
    ensures r.Some? ==> IsStateName(r.value)
  {
    match second
    case 'T' => Some("utah")
    case _ => None
  }

  function AbbreviationsV(second: char): (r: Option<string>)
    ensures r.Some? ==> IsStateName(r.value)
  {
    match second
    case 'A' => Some("virginia")
    case 'T' => Some("vermont")
    case _ => None
  }

  function AbbreviationsW(second: char): (r: Option<string>)
    ensures r.Some? ==> IsStateName(r.value)
  {
    match second
    case 'A' => Some("washington")
    case 'I' => Some("wisconsin")
    case 'V' => Some("west virginia")
    case 'Y' => Some("wyoming")
    case _ => None
  }

  /** A state name: lower-case letters and spaces, longer than a code, not starting or ending in a space. */
  predicate IsStateName(name: string) {
    && |name| > 2 && name[0] != ' ' && name[|name| - 1] != ' '
    && forall i :: 0 <= i < |name| ==> name[i] == ' ' || 'a' <= name[i] <= 'z'
  }

  /** A state name is its own lower case and has nothing for `trim` to strip. */
  lemma StateNameIsNormal(name: string)
    requires IsStateName(name)
    ensures IsLower(name) && Trim(name) == name
  {
    TrimOfTrimmed(name);
  }

  /**
   * `normalizeState`: null, or nothing left after `trim`, gives ""; a trimmed two-character
   * code is upper-cased and mapped to its name, or kept as the upper-case code; anything
   * else is lower-cased.
   */
  function NormalizeState(state: Option<string>): (r: string)
    ensures state.None? || Trim(state.value) == [] ==> r == ""
    ensures state.Some? && |Trim(state.value)| == 2 ==>
      r == Abbreviation(ToUpper(Trim(state.value))).GetOr(ToUpper(Trim(state.value)))
    ensures state.Some? && |Trim(state.value)| != 2 ==> r == ToLower(Trim(state.value))
  {
    if state.None? then ""
    else
      var trimmed := Trim(state.value);
      if trimmed == [] then ""
      else if |trimmed| == 2 then
        var upper := ToUpper(trimmed);
        Abbreviation(upper).GetOr(upper)
      else ToLower(trimmed)
  }

  /**
   * Every spelling of the code for California, with any surrounding blanks (" ca ", "CA",
   * "Ca", ...), normalises to "california".
   */
  lemma CaliforniaCodes(s: string)
    requires Trim(s) == "ca" || Trim(s) == "CA" || Trim(s) == "Ca" || Trim(s) == "cA"
    ensures NormalizeState(Some(s)) == "california"
  {
    var upper := ToUpper(Trim(s));
    assert upper[0] == 'C' && upper[1] == 'A';
    assert ByFirstLetter(upper[0], upper[1]) == Some("california") by {
      assert AbbreviationsC('A') == Some("california");
    }
    assert Abbreviation(upper) == Some("california");
  }

  /**
   * The shapes `normalizeState` produces: nothing, a state name, an upper-case code with no
   * name, or trimmed lower-case text of any other length.
   */
  predicate IsNormalState(r: string) {
    || r == []
    || IsStateName(r)
    || (|r| == 2 && Trim(r) == r && ToUpper(r) == r && Abbreviation(r).None?)
    || (|r| != 2 && Trim(r) == r && IsLower(r))
  }

  lemma NormalizeStateIsNormal(state: Option<string>)
    ensures IsNormalState(NormalizeState(state))
  {
    if state.Some? && Trim(state.value) != [] {
      var trimmed := Trim(state.value);
      TrimIsIdempotent(state.value);
      if |trimmed| == 2 {
        var upper := ToUpper(trimmed);
        if Abbreviation(upper).None? {
          UpperOfTrimmedIsTrimmed(trimmed);
          UpperIsIdempotent(trimmed);
        }
      } else {
        LowerOfTrimmedIsTrimmed(trimmed);
        ToLowerIsLower(trimmed);
      }
    }
  }

  lemma NormalStateIsFixed(r: string)
    requires IsNormalState(r)
    ensures NormalizeState(Some(r)) == r
    ensures NormalizeKey(r) == r
  {
    if IsStateName(r) {
      StateNameIsNormal(r);
      LowerIsFixed(r);
    } else if |r| != 2 && r != [] {
      LowerIsFixed(r);
    }
  }

  /** A normalised state is a fixed point: names stay names, unmapped codes stay codes. */
  lemma NormalizeStateIsIdempotent(state: Option<string>)
    ensures NormalizeState(Some(NormalizeState(state))) == NormalizeState(state)
  {
    NormalizeStateIsNormal(state);
    NormalStateIsFixed(NormalizeState(state));
  }

  /** The directory's own key normalisation leaves a normalised state as it is. */
  lemma NormalizeKeyKeepsNormalizedState(state: Option<string>)
    ensures NormalizeKey(NormalizeState(state)) == NormalizeState(state)
  {
    NormalizeStateIsNormal(state);
    NormalStateIsFixed(NormalizeState(state));
  }

  /** `county != null && !county.trim().isEmpty()`. */
  predicate HasCounty(county: Option<string>) {
    county.Some? && !IsBlank(county.value)
  }

  /**
   * `isAddressEligible(city, county, state)`: false without a city or state; with a county,
   * the county check; otherwise the state-wide check, both on the normalised state.
   */
  function IsAddressEligible(config: EligibleRegionsConfig, city: Option<string>, county: Option<string>,
                             state: Option<string>): (r: bool)
    ensures city.None? || state.None? ==> !r
    ensures city.Some? && state.Some? && HasCounty(county) ==>
      r == IsCityEligible(config, Some(NormalizeState(state)), county, city)
    ensures city.Some? && state.Some? && !HasCounty(county) ==>
      r == IsCityEligibleInState(config, Some(NormalizeState(state)), city)
  {
    if city.None? || state.None? then false
    else if HasCounty(county) then IsCityEligible(config, Some(NormalizeState(state)), county, city)
    else IsCityEligibleInState(config, Some(NormalizeState(state)), city)
  }

  /** `isAddressEligible(city, state)`: the three-argument form with no county. */
  function IsAddressEligibleInState(config: EligibleRegionsConfig, city: Option<string>, state: Option<string>)
    : (r: bool)
    ensures r == IsAddressEligible(config, city, None, state)
  {
    IsAddressEligible(config, city, None, state)
  }

  /** Naming a county can only narrow the verdict: eligible in a county means eligible in the state. */
  lemma CountyNarrowsVerdict(config: EligibleRegionsConfig, city: Option<string>, county: Option<string>,
                             state: Option<string>)
    requires IsAddressEligible(config, city, county, state)
    ensures IsAddressEligibleInState(config, city, state)
  {
    if HasCounty(county) {
      CityEligibleImpliesInState(config, Some(NormalizeState(state)), county, city);
    }
  }

  /** A state whose normalised name is not a configured key is never eligible. */
  lemma UnconfiguredStateIsNeverEligible(config: EligibleRegionsConfig, city: Option<string>,
                                         county: Option<string>, state: Option<string>)
    requires NormalizeState(state) !in GetEligibleStates(config)
    ensures !IsAddressEligible(config, city, county, state)
  {
    NormalizeKeyKeepsNormalizedState(state);
    if city.Some? && state.Some? {
      UnlistedStateHasNoCity(config, NormalizeState(state), city);
    }
  }

  /** `getEligibleCitiesInCounty` on the normalised state. */
  function EligibleCitiesInCounty(config: EligibleRegionsConfig, state: Option<string>, county: Option<string>)
    : (r: seq<Option<string>>)
    ensures forall city :: ListsCity(r, city) <==>
      IsCityEligible(config, Some(NormalizeState(state)), county, Some(city))
  {
    forall city ensures ListsCity(GetEligibleCitiesInCounty(config, Some(NormalizeState(state)), county), city)
                    <==> IsCityEligible(config, Some(NormalizeState(state)), county, Some(city)) {
      CitiesAccessorAgreesWithCheck(config, Some(NormalizeState(state)), county, city);
    }
    GetEligibleCitiesInCounty(config, Some(NormalizeState(state)), county)
  }

  /** `getEligibleStates`. */
  function EligibleStates(config: EligibleRegionsConfig): (r: set<string>)
    ensures config.states.Some? ==> r == config.states.value.Keys
  {
    GetEligibleStates(config)
  }

  /** `getEligibleCountiesInState` on the normalised state. */
  function EligibleCountiesInState(config: EligibleRegionsConfig, state: Option<string>): (r: set<string>)
    ensures r == GetEligibleCountiesInState(config, Some(NormalizeState(state)))
  {
    GetEligibleCountiesInState(config, Some(NormalizeState(state)))
  }

  /** `EligibilityCheckResult`. */
  datatype EligibilityCheckResult = EligibilityCheckResult(eligible: bool, reason: string)

  const EligibleRegionSuffix := " is in an eligible region"
  const NotListedSuffix := " is not in the list of eligible cities"

  function EligibleWithCountyReason(city: Option<string>, county: Option<string>, state: Option<string>): string {
    Concat(["Address in ", Show(city), ", ", Show(county), " County, ", Show(state), EligibleRegionSuffix])
  }

  function EligibleReason(city: Option<string>, state: Option<string>): string {
    Concat(["Address in ", Show(city), ", ", Show(state), EligibleRegionSuffix])
  }

  function StateNotConfiguredReason(state: Option<string>): string {
    Concat(["State '", Show(state), "' does not have any eligible regions configured"])
  }

  function NotListedWithCountyReason(city: Option<string>, county: Option<string>, state: Option<string>): string {
    Concat(["City '", Show(city), "' in ", Show(county), " County, ", Show(state), NotListedSuffix])
  }

  function NotListedReason(city: Option<string>, state: Option<string>): string {
    Concat(["City '", Show(city), "' in ", Show(state), NotListedSuffix])
  }

  /**
   * `checkEligibilityWithReason`: the verdict of `isAddressEligible`, explained. An ineligible
   * address in a state with no configured key is blamed on the state; otherwise on the city.
   */
  function CheckEligibilityWithReason(config: EligibleRegionsConfig, city: Option<string>,
                                      county: Option<string>, state: Option<string>)
    : (r: EligibilityCheckResult)
    ensures r.eligible == IsAddressEligible(config, city, county, state)
    ensures r.eligible && HasCounty(county) ==> r.reason == EligibleWithCountyReason(city, county, state)
    ensures r.eligible && !HasCounty(county) ==> r.reason == EligibleReason(city, state)
    ensures !r.eligible && NormalizeState(state) !in EligibleStates(config) ==>
      r.reason == StateNotConfiguredReason(state)
    ensures !r.eligible && NormalizeState(state) in EligibleStates(config) && HasCounty(county) ==>
      r.reason == NotListedWithCountyReason(city, county, state)
    ensures !r.eligible && NormalizeState(state) in EligibleStates(config) && !HasCounty(county) ==>
      r.reason == NotListedReason(city, state)
  {
    var eligible := IsAddressEligible(config, city, county, state);
    var reason :=
      if eligible then
        if HasCounty(county) then EligibleWithCountyReason(city, county, state) else EligibleReason(city, state)
      else if NormalizeState(state) !in EligibleStates(config) then StateNotConfiguredReason(state)
      else if HasCounty(county) then NotListedWithCountyReason(city, county, state)
      else NotListedReason(city, state);
    EligibilityCheckResult(eligible, reason)
  }

  /**
   * The state message is given exactly when the normalised state has no configured key: the
   * other messages begin "Address in " or "City '", never "State '".
   */
  lemma StateMessageIffUnconfigured(config: EligibleRegionsConfig, city: Option<string>,
                                    county: Option<string>, state: Option<string>)
    ensures NormalizeState(state) !in EligibleStates(config) <==>
      CheckEligibilityWithReason(config, city, county, state).reason == StateNotConfiguredReason(state)
  {
    if NormalizeState(state) !in EligibleStates(config) {
      UnconfiguredStateIsNeverEligible(config, city, county, state);
    } else {
      var r := CheckEligibilityWithReason(config, city, county, state);
      ConcatStartsWithFirst(["State '", Show(state), "' does not have any eligible regions configured"]);
      assert StateNotConfiguredReason(state)[0] == 'S';
      if r.eligible {
        ConcatStartsWithFirst(["Address in ", Show(city), ", ", Show(county), " County, ", Show(state), EligibleRegionSuffix]);
        ConcatStartsWithFirst(["Address in ", Show(city), ", ", Show(state), EligibleRegionSuffix]);
        assert r.reason[0] == 'A';
      } else {
        ConcatStartsWithFirst(["City '", Show(city), "' in ", Show(county), " County, ", Show(state), NotListedSuffix]);
        ConcatStartsWithFirst(["City '", Show(city), "' in ", Show(state), NotListedSuffix]);
        assert r.reason[0] == 'C';
      }
    }
  }
}
