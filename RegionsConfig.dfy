/**
 * The eligible-regions directory (EligibleRegionsConfig.java): state, then county, then a
 * list of cities, bound from configuration. Queries normalise their keys; the configured
 * keys are used exactly as written.
 */
module RegionsConfig {
  import opened Options
  import opened JavaStrings

  /** A county's city list may be missing; an entry of the list may be null. */
  datatype CountyConfig = CountyConfig(cities: Option<seq<Option<string>>>)

  /** A state's county map may be missing. */
  datatype StateConfig = StateConfig(counties: Option<map<string, CountyConfig>>)

  /** The bound configuration; the state map itself may be missing. */
  datatype EligibleRegionsConfig = EligibleRegionsConfig(states: Option<map<string, StateConfig>>)

  /** `normalizeKey`: a trimmed two-character key is upper-cased, anything else lower-cased. */
  function NormalizeKey(key: string): (r: string)
    ensures |r| == |Trim(key)|
    ensures |r| == 2 ==> r == ToUpper(Trim(key))
    ensures |r| != 2 ==> r == ToLower(Trim(key))
  {
    var trimmed := Trim(key);
    if |trimmed| == 2 then ToUpper(trimmed) else ToLower(trimmed)
  }

  /** Normalising a normalised key changes nothing. */
  lemma NormalizeKeyIsIdempotent(key: string)
    ensures NormalizeKey(NormalizeKey(key)) == NormalizeKey(key)
  {
    var trimmed := Trim(key);
    if |trimmed| == 2 {
      UpperOfTrimmedIsTrimmed(trimmed);
      UpperIsIdempotent(trimmed);
    } else {
      LowerOfTrimmedIsTrimmed(trimmed);
      ToLowerIsLower(trimmed);
      LowerIsFixed(ToLower(trimmed));
    }
  }

  /** `normalizeCity`: lower-cased then trimmed; a null entry becomes "". */
  function NormalizeCity(city: Option<string>): (r: string)
    ensures city.None? ==> r == ""
    ensures IsLower(r)
  {
    match city
    case None => ""
    case Some(c) =>
      ToLowerIsLower(c);
      Trim(ToLower(c))
  }

  /** `anyMatch` over a city list: some entry normalises to the same text as the query. */
  predicate ListsCity(cities: seq<Option<string>>, city: string) {
    exists i :: 0 <= i < |cities| && NormalizeCity(cities[i]) == NormalizeCity(Some(city))
  }

  /** The state entry a query reaches, after normalising its key. */
  function StateEntry(config: EligibleRegionsConfig, state: string): Option<StateConfig> {
    match config.states
    case None => None
    case Some(states) => Get(states, NormalizeKey(state))
  }

  /** The county map of the state a query reaches, if both exist. */
  function CountiesOf(config: EligibleRegionsConfig, state: string): Option<map<string, CountyConfig>> {
    match StateEntry(config, state)
    case None => None
    case Some(sc) => sc.counties
  }

  /** `isCityEligible`: false on any null, missing state, county or list; else `anyMatch`. */
  predicate IsCityEligible(config: EligibleRegionsConfig, state: Option<string>, county: Option<string>,
                           city: Option<string>) {
    && state.Some? && county.Some? && city.Some?
    && CountiesOf(config, state.value).Some?
    && NormalizeKey(county.value) in CountiesOf(config, state.value).value
    && var cities := CountiesOf(config, state.value).value[NormalizeKey(county.value)].cities;
       cities.Some? && ListsCity(cities.value, city.value)
  }

  /** `isCityEligibleInState`: some county of the state, with a list, lists the city. */
  predicate IsCityEligibleInState(config: EligibleRegionsConfig, state: Option<string>, city: Option<string>) {
    && state.Some? && city.Some?
    && CountiesOf(config, state.value).Some?
    && exists k :: k in CountiesOf(config, state.value).value
         && CountiesOf(config, state.value).value[k].cities.Some?
         && ListsCity(CountiesOf(config, state.value).value[k].cities.value, city.value)
  }

  /** A city eligible in one county of a state is eligible in the state. */
  lemma CityEligibleImpliesInState(config: EligibleRegionsConfig, state: Option<string>,
                                   county: Option<string>, city: Option<string>)
    requires IsCityEligible(config, state, county, city)
    ensures IsCityEligibleInState(config, state, city)
  {
    var k := NormalizeKey(county.value);
    assert k in CountiesOf(config, state.value).value;
  }

  /**
   * When every configured county key is already in normal form, the state-wide check holds
   * exactly when the county check holds for some configured county.
   */
  lemma InStateIffSomeCounty(config: EligibleRegionsConfig, state: string, city: string)
    requires CountiesOf(config, state).Some?
    requires forall k :: k in CountiesOf(config, state).value ==> NormalizeKey(k) == k
    ensures IsCityEligibleInState(config, Some(state), Some(city))
        <==> exists k :: k in CountiesOf(config, state).value && IsCityEligible(config, Some(state), Some(k), Some(city))
  {
    if IsCityEligibleInState(config, Some(state), Some(city)) {
      var k :| k in CountiesOf(config, state).value
               && CountiesOf(config, state).value[k].cities.Some?
               && ListsCity(CountiesOf(config, state).value[k].cities.value, city);
      assert IsCityEligible(config, Some(state), Some(k), Some(city));
    }
    if exists k :: k in CountiesOf(config, state).value && IsCityEligible(config, Some(state), Some(k), Some(city)) {
      var k :| k in CountiesOf(config, state).value && IsCityEligible(config, Some(state), Some(k), Some(city));
      CityEligibleImpliesInState(config, Some(state), Some(k), Some(city));
    }
  }

  /**
   * A configured county key that is not in normal form (say "Los Angeles") can never be
   * reached by the county check, while the state-wide check still sees its cities.
   */
  lemma UnnormalisedCountyIsUnreachable(config: EligibleRegionsConfig, state: string, key: string,
                                        county: string, city: string)
    requires CountiesOf(config, state).Some?
    requires key in CountiesOf(config, state).value
    requires CountiesOf(config, state).value[key].cities.Some?
    requires ListsCity(CountiesOf(config, state).value[key].cities.value, city)
    requires NormalizeKey(county) !in CountiesOf(config, state).value
    ensures !IsCityEligible(config, Some(state), Some(county), Some(city))
    ensures IsCityEligibleInState(config, Some(state), Some(city))
  {
  }

  /** `getEligibleCitiesInCounty`: the configured list as it is, or an empty one. */
  function GetEligibleCitiesInCounty(config: EligibleRegionsConfig, state: Option<string>, county: Option<string>)
    : (r: seq<Option<string>>)
  {
    if state.None? || county.None? then []
    else match CountiesOf(config, state.value)
      case None => []
      case Some(counties) =>
        if NormalizeKey(county.value) !in counties then []
        else counties[NormalizeKey(county.value)].cities.GetOr([])
  }

  /** The county check is exactly a search of the list the accessor returns. */
  lemma CitiesAccessorAgreesWithCheck(config: EligibleRegionsConfig, state: Option<string>,
                                      county: Option<string>, city: string)
    ensures IsCityEligible(config, state, county, Some(city))
        <==> ListsCity(GetEligibleCitiesInCounty(config, state, county), city)
  {
    var listed := GetEligibleCitiesInCounty(config, state, county);
    if state.Some? && county.Some? && CountiesOf(config, state.value).Some? {
      var counties := CountiesOf(config, state.value).value;
      var key := NormalizeKey(county.value);
      if key in counties && counties[key].cities.Some? {
        assert listed == counties[key].cities.value;
        return;
      }
    }
    assert !IsCityEligible(config, state, county, Some(city));
    assert listed == [];
    NothingListedInEmpty(city);
  }

  lemma NothingListedInEmpty(city: string)
    ensures !ListsCity([], city)
  {
  }

  /** `getEligibleStates`: the configured state keys, or none. */
  function GetEligibleStates(config: EligibleRegionsConfig): (r: set<string>)
    ensures config.states.Some? ==> r == config.states.value.Keys
    ensures config.states.None? ==> r == {}
  {
    match config.states
    case None => {}
    case Some(states) => states.Keys
  }

  /** `getEligibleCountiesInState`: the configured county keys of the state, or none. */
  function GetEligibleCountiesInState(config: EligibleRegionsConfig, state: Option<string>): (r: set<string>)
    ensures state.Some? && CountiesOf(config, state.value).Some? ==> r == CountiesOf(config, state.value).value.Keys
    ensures state.None? || CountiesOf(config, state.value).None? ==> r == {}
  {
    if state.None? then {}
    else match CountiesOf(config, state.value)
      case None => {}
      case Some(counties) => counties.Keys
  }

  /** A state the directory does not list has no eligible city. */
  lemma UnlistedStateHasNoCity(config: EligibleRegionsConfig, state: string, city: Option<string>)
    requires NormalizeKey(state) !in GetEligibleStates(config)
    ensures !IsCityEligibleInState(config, Some(state), city)
    ensures forall county :: !IsCityEligible(config, Some(state), county, city)
  {
  }
}
