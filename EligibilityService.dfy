/**
 * The eligibility pipeline (AddressEligibilityService.java): the response cache first, then
 * the preloaded address data behind the lookup service, then a stored verdict in the address
 * table, and last the zone queries and the rule engine, whose verdict is stored and cached.
 */
module EligibilityService {
  import opened Options
  import opened JavaStrings
  import opened Zones
  import ZoneRepository
  import Addresses
  import opened EligibilityRequests
  import opened EligibilityResults
  import RuleEngine
  import opened Responses
  import opened AddressCache
  import opened AddressLookup

  // ---------------------------------------------------------------------------------------
  // Cache key
  // ---------------------------------------------------------------------------------------

  /** `buildCacheKey`: the four identifying fields joined by ':' and lower-cased. */
  function CacheKey(request: AddressEligibilityRequest): (key: string)
    ensures IsLower(key)
    ensures |key| == |request.streetAddress| + |request.city| + |request.state| + |request.zipCode| + 3
  {
    ToLowerIsLower(request.streetAddress + ":" + request.city + ":" + request.state + ":" + request.zipCode);
    ToLower(request.streetAddress + ":" + request.city + ":" + request.state + ":" + request.zipCode)
  }

  lemma ToLowerAppend(a: string, b: string)
    ensures ToLower(a + b) == ToLower(a) + ToLower(b)
  {
  }

  /** Lower-casing the joined fields is joining the lower-cased fields. */
  lemma CacheKeyParts(r: AddressEligibilityRequest)
    ensures CacheKey(r)
         == ToLower(r.streetAddress) + ":" + ToLower(r.city) + ":" + ToLower(r.state) + ":" + ToLower(r.zipCode)
  {
    var colon := ":";
    assert ToLower(colon) == colon;
    ToLowerAppend(r.streetAddress, colon);
    ToLowerAppend(r.streetAddress + colon, r.city);
    ToLowerAppend(r.streetAddress + colon + r.city, colon);
    ToLowerAppend(r.streetAddress + colon + r.city + colon, r.state);
    ToLowerAppend(r.streetAddress + colon + r.city + colon + r.state, colon);
    ToLowerAppend(r.streetAddress + colon + r.city + colon + r.state + colon, r.zipCode);
  }

  /**
   * Two requests whose four identifying fields agree up to letter case share a key, whatever
   * their second street line, country, coordinates or `includeReason` flag.
   */
  lemma CacheKeyIgnoresCase(r1: AddressEligibilityRequest, r2: AddressEligibilityRequest)
    requires EqualsIgnoreCase(r1.streetAddress, r2.streetAddress)
    requires EqualsIgnoreCase(r1.city, r2.city)
    requires EqualsIgnoreCase(r1.state, r2.state)
    requires EqualsIgnoreCase(r1.zipCode, r2.zipCode)
    ensures CacheKey(r1) == CacheKey(r2)
  {
    CacheKeyParts(r1);
    CacheKeyParts(r2);
  }

  /**
   * The fields are joined without escaping, so moving a ':'-separated piece from the street
   * into the city gives a different address with the same key.
   */
  lemma CacheKeyCollides(r1: AddressEligibilityRequest, r2: AddressEligibilityRequest, piece: string)
    requires r1.streetAddress == r2.streetAddress + ":" + piece
    requires r2.city == piece + ":" + r1.city
    requires r1.state == r2.state && r1.zipCode == r2.zipCode
    ensures r1.streetAddress != r2.streetAddress
    ensures CacheKey(r1) == CacheKey(r2)
  {
    assert r1.streetAddress + ":" + r1.city == r2.streetAddress + ":" + r2.city;
  }

  // ---------------------------------------------------------------------------------------
  // Preloaded address data
  // ---------------------------------------------------------------------------------------

  const YamlEligiblePrefix := "Address is in eligible region: "
  const YamlIneligiblePrefix := "Address is not in an eligible region: "

  /** `map.getOrDefault(key, default)`. */
  function GetOrDefault(data: map<string, string>, key: string, default: string): (r: string)
    ensures key in data ==> r == data[key]
    ensures key !in data ==> r == default
  {
    if key in data then data[key] else default
  }

  /** The reason given for preloaded data; a missing county or state prints as "null". */
  function RegionReason(eligible: bool, county: Option<string>, state: Option<string>): string {
    Concat([if eligible then YamlEligiblePrefix else YamlIneligiblePrefix,
            Show(county), " County, ", Show(state)])
  }

  /** The verdict can be read back from the reason's opening words. */
  lemma RegionReasonTellsVerdict(eligible: bool, county: Option<string>, state: Option<string>)
    ensures StartsWith(RegionReason(eligible, county, state), YamlEligiblePrefix) <==> eligible
    ensures StartsWith(RegionReason(eligible, county, state), YamlIneligiblePrefix) <==> !eligible
  {
    var parts := [if eligible then YamlEligiblePrefix else YamlIneligiblePrefix,
                  Show(county), " County, ", Show(state)];
    ConcatStartsWithFirst(parts);
    var r := RegionReason(eligible, county, state);
    if eligible {
      assert r[11] == YamlEligiblePrefix[11] != YamlIneligiblePrefix[11];
    } else {
      assert r[11] == YamlIneligiblePrefix[11] != YamlEligiblePrefix[11];
    }
  }

  /** `formatYamlAddress`: missing fields print empty; a missing or empty country is left off. */
  function FormatYamlAddress(data: map<string, string>): (r: string)
    ensures StartsWith(r, GetOrDefault(data, "street", ""))
  {
    var r := GetOrDefault(data, "street", "") + (", " + GetOrDefault(data, "city", "")
             + ", " + GetOrDefault(data, "state", "") + " " + GetOrDefault(data, "zip", "")
             + if "country" in data && data["country"] != "" then ", " + data["country"] else "");
    assert r[..|GetOrDefault(data, "street", "")|] == GetOrDefault(data, "street", "");
    r
  }

  /** An empty country and a missing one format alike. */
  lemma YamlEmptyCountryIsOmitted(data: map<string, string>)
    ensures FormatYamlAddress(data["country" := ""]) == FormatYamlAddress(data - {"country"})
  {
    var d1 := data["country" := ""];
    var d2 := data - {"country"};
    assert forall k :: k != "country" ==> GetOrDefault(d1, k, "") == GetOrDefault(d2, k, "");
  }

  /** The address block of a preloaded answer: the data's fields, the request's where missing. */
  function YamlDetails(request: AddressEligibilityRequest, data: map<string, string>): AddressDetails {
    AddressDetails(
      GetOrDefault(data, "street", request.streetAddress),
      request.streetAddress2,
      GetOrDefault(data, "city", request.city),
      GetOrDefault(data, "state", request.state),
      GetOrDefault(data, "zip", request.zipCode),
      if "country" in data then Some(data["country"]) else request.country,
      FormatYamlAddress(data),
      request.latitude,
      request.longitude)
  }

  /**
   * `checkYamlAddress` once the lookup has returned `data`: an answer exactly when the data
   * carries an "eligible" entry, with full confidence, one matched region when eligible, and
   * a reason whether or not the request asked for one.
   */
  function YamlResponse(request: AddressEligibilityRequest, data: map<string, string>)
    : (r: Option<AddressEligibilityResponse>)
    ensures r.Some? <==> "eligible" in data
    ensures r.Some? ==> && r.value.eligible == EqualsIgnoreCase(data["eligible"], "true")
                        && r.value.reason.Some? && r.value.confidenceScore == Some(1.0)
                        && !r.value.cacheHit
                        && r.value.matchedZones.Some?
                        && (|r.value.matchedZones.value| == 1 <==> r.value.eligible)
                        && (|r.value.matchedZones.value| == 0 <==> !r.value.eligible)
  {
    if "eligible" !in data then None
    else
      var eligible := ParseBoolean(Some(data["eligible"]));
      var county := Get(data, "county");
      var state := Get(data, "state");
      Some(AddressEligibilityResponse(
        eligible,
        Some(RegionReason(eligible, county, state)),
        YamlDetails(request, data),
        Some(if eligible then [Show(county) + ", " + Show(state)] else []),
        Some(1.0),
        false))
  }

  // ---------------------------------------------------------------------------------------
  // Responses built from a stored address
  // ---------------------------------------------------------------------------------------

  /** `formatAddress`: an empty second line is skipped, an empty country is not. */
  function FormatAddress(a: Addresses.Address): (r: string)
    ensures StartsWith(r, a.streetAddress)
    ensures a.country.None? ==> |r| >= |a.zipCode| + 1 && r[|r| - |a.zipCode| - 1..] == " " + a.zipCode
  {
    var r := a.streetAddress
      + ((if a.streetAddress2.Some? && a.streetAddress2.value != "" then ", " + a.streetAddress2.value else "")
      + ", " + a.city + ", " + a.state + " " + a.zipCode
      + if a.country.Some? then ", " + a.country.value else "");
    assert r[..|a.streetAddress|] == a.streetAddress;
    r
  }

  /** An empty second street line formats like a missing one; an empty country leaves ", ". */
  lemma FormatAddressEmptyFields(a: Addresses.Address)
    ensures FormatAddress(a.(streetAddress2 := Some(""))) == FormatAddress(a.(streetAddress2 := None))
    ensures FormatAddress(a.(country := Some(""))) == FormatAddress(a.(country := None)) + ", "
  {
  }

  /** The address block of a stored row. */
  function Details(a: Addresses.Address): AddressDetails {
    AddressDetails(a.streetAddress, a.streetAddress2, a.city, a.state, a.zipCode, a.country,
                   FormatAddress(a), a.latitude, a.longitude)
  }

  /**
   * `buildResponse`: the rule engine's verdict, zones and score about the saved row; the
   * reason only when the request asked for it.
   */
  function BuildResponse(request: AddressEligibilityRequest, result: EligibilityResult,
                         address: Addresses.Address): (r: AddressEligibilityResponse)
    ensures r.eligible == result.eligible && !r.cacheHit
    ensures r.reason.Some? <==> request.includeReason
    ensures r.reason.Some? ==> r.reason.value == result.reason
    ensures r.matchedZones == Some(result.matchedZoneNames)
    ensures r.confidenceScore == Some(result.confidenceScore)
    ensures r.address.formattedAddress == FormatAddress(address)
  {
    AddressEligibilityResponse(
      result.eligible,
      if request.includeReason then Some(result.reason) else None,
      Details(address),
      Some(result.matchedZoneNames),
      Some(result.confidenceScore),
      false)
  }

  /**
   * `buildResponseFromAddress`: the stored verdict and reason, no zones and no score. Its only
   * caller passes a row with a stored verdict; a null one would fail to unbox.
   */
  function BuildResponseFromAddress(address: Addresses.Address, cacheHit: bool)
    : (r: AddressEligibilityResponse)
    requires address.isEligible.Some?
    ensures Some(r.eligible) == address.isEligible && r.reason == address.eligibilityReason
    ensures r.matchedZones.None? && r.confidenceScore.None? && r.cacheHit == cacheHit
  {
    AddressEligibilityResponse(address.isEligible.value, address.eligibilityReason, Details(address),
                               None, None, cacheHit)
  }

  // ---------------------------------------------------------------------------------------
  // Zone matching and the address table
  // ---------------------------------------------------------------------------------------

  /**
   * The zones `performEligibilityCheck` collects: by ZIP, then by city and state, then, when
   * asked and both coordinates are given, by coordinates. A zone may appear more than once.
   */
  function CandidateZones(rows: seq<Zone>, request: AddressEligibilityRequest): (r: seq<Zone>)
    ensures forall z :: z in r <==>
      (&& z in rows && z.isActive
       && (|| request.zipCode in z.zipCodes
           || (request.city in z.cities && request.state in z.states)
           || (&& request.checkCoordinates && request.latitude.Some? && request.longitude.Some?
               && IsWithinCoordinateBounds(request.latitude.value, request.longitude.value, z))))
  {
    ZoneRepository.FindActiveZonesByZipCode(rows, request.zipCode)
    + ZoneRepository.FindActiveZonesByCityAndState(rows, request.city, request.state)
    + if request.checkCoordinates && request.latitude.Some? && request.longitude.Some?
      then ZoneRepository.FindActiveZonesByCoordinates(rows, request.latitude.value, request.longitude.value)
      else []
  }

  /** `findExistingAddress`: the row at the request's exact location. */
  function FindExisting(rows: seq<Addresses.Address>, request: AddressEligibilityRequest)
    : (r: Option<Addresses.Address>)
    ensures r.Some? ==> r.value in rows
    ensures r.Some? ==> Addresses.SameLocation(r.value, request.streetAddress, request.city,
                                               request.state, request.zipCode)
  {
    Addresses.FindByStreetAddressAndCityAndStateAndZipCode(
      rows, request.streetAddress, request.city, request.state, request.zipCode)
  }

  function ExistingIndex(rows: seq<Addresses.Address>, request: AddressEligibilityRequest): Option<nat> {
    Addresses.IndexOfLocation(rows, request.streetAddress, request.city, request.state, request.zipCode)
  }

  /** A new row built from the request, with the id the table assigns on insert. */
  function NewAddress(request: AddressEligibilityRequest, id: int): Addresses.Address {
    Addresses.Address(Some(id), request.streetAddress, request.streetAddress2, request.city,
                      request.state, request.zipCode, request.country, None, None, None, None)
  }

  /** The verdict, reason and the request's coordinates written onto a row. */
  function Stamped(a: Addresses.Address, request: AddressEligibilityRequest, result: EligibilityResult)
    : Addresses.Address
  {
    a.(isEligible := Some(result.eligible), eligibilityReason := Some(result.reason),
       latitude := request.latitude, longitude := request.longitude)
  }

  /** The row `saveOrUpdateAddress` returns: the existing one updated, or a new one. */
  function SavedAddress(rows: seq<Addresses.Address>, nextId: int, request: AddressEligibilityRequest,
                        result: EligibilityResult): (a: Addresses.Address)
    ensures a.isEligible == Some(result.eligible) && a.eligibilityReason == Some(result.reason)
    ensures Addresses.SameLocation(a, request.streetAddress, request.city, request.state, request.zipCode)
  {
    match ExistingIndex(rows, request)
    case Some(i) => Stamped(rows[i], request, result)
    case None => Stamped(NewAddress(request, nextId), request, result)
  }

  /** The table after `saveOrUpdateAddress`. */
  function SavedRows(rows: seq<Addresses.Address>, nextId: int, request: AddressEligibilityRequest,
                     result: EligibilityResult): seq<Addresses.Address>
  {
    match ExistingIndex(rows, request)
    case Some(i) => rows[i := SavedAddress(rows, nextId, request, result)]
    case None => rows + [SavedAddress(rows, nextId, request, result)]
  }

  /** The id counter after `saveOrUpdateAddress`: advanced only by an insert. */
  function NextIdAfterSave(rows: seq<Addresses.Address>, nextId: int, request: AddressEligibilityRequest): int {
    if ExistingIndex(rows, request).Some? then nextId else nextId + 1
  }

  /** At most one row per location. */
  predicate UniqueLocations(rows: seq<Addresses.Address>) {
    forall i, j :: 0 <= i < j < |rows| ==>
      !Addresses.SameLocation(rows[j], rows[i].streetAddress, rows[i].city, rows[i].state, rows[i].zipCode)
  }

  /** After saving, the exact-match lookup finds the saved row, which carries the verdict. */
  lemma SavedAddressIsFound(rows: seq<Addresses.Address>, nextId: int, request: AddressEligibilityRequest,
                            result: EligibilityResult)
    ensures FindExisting(SavedRows(rows, nextId, request, result), request)
         == Some(SavedAddress(rows, nextId, request, result))
  {
    var saved := SavedAddress(rows, nextId, request, result);
    var after := SavedRows(rows, nextId, request, result);
    var pos := if ExistingIndex(rows, request).Some? then ExistingIndex(rows, request).value else |rows|;
    assert after[pos] == saved;
    assert forall j :: 0 <= j < pos ==> after[j] == rows[j];
    var found := ExistingIndex(after, request);
    assert found == Some(pos) by {
      assert after[pos] in after;
      if found.Some? && found.value > pos {
        assert false;
      }
    }
  }

  /** Saving keeps the table free of two rows at one location. */
  lemma SaveKeepsLocationsUnique(rows: seq<Addresses.Address>, nextId: int,
                                 request: AddressEligibilityRequest, result: EligibilityResult)
    requires UniqueLocations(rows)
    ensures UniqueLocations(SavedRows(rows, nextId, request, result))
  {
    var after := SavedRows(rows, nextId, request, result);
    var saved := SavedAddress(rows, nextId, request, result);
    match ExistingIndex(rows, request)
    case Some(p) =>
      forall i, j | 0 <= i < j < |after|
        ensures !Addresses.SameLocation(after[j], after[i].streetAddress, after[i].city,
                                        after[i].state, after[i].zipCode)
      {
        if i == p {
          assert Addresses.SameLocation(rows[p], after[i].streetAddress, after[i].city,
                                        after[i].state, after[i].zipCode);
        } else if j == p {
          assert Addresses.SameLocation(rows[p], after[j].streetAddress, after[j].city,
                                        after[j].state, after[j].zipCode);
        }
      }
    case None =>
      assert forall a :: a in rows ==>
        !Addresses.SameLocation(a, request.streetAddress, request.city, request.state, request.zipCode);
      forall i, j | 0 <= i < j < |after|
        ensures !Addresses.SameLocation(after[j], after[i].streetAddress, after[i].city,
                                        after[i].state, after[i].zipCode)
      {
        if j == |rows| {
          assert after[i] == rows[i] && rows[i] in rows;
        }
      }
  }

  /** Saving leaves every row at another location as it was. */
  lemma SaveKeepsOtherRows(rows: seq<Addresses.Address>, nextId: int,
                           request: AddressEligibilityRequest, result: EligibilityResult, a: Addresses.Address)
    requires a in rows
    requires !Addresses.SameLocation(a, request.streetAddress, request.city, request.state, request.zipCode)
    ensures a in SavedRows(rows, nextId, request, result)
  {
    var i :| 0 <= i < |rows| && rows[i] == a;
    var after := SavedRows(rows, nextId, request, result);
    match ExistingIndex(rows, request)
    case Some(p) =>
      assert i != p && after[i] == a;
    case None =>
      assert after[i] == a;
  }

  // ---------------------------------------------------------------------------------------
  // The service
  // ---------------------------------------------------------------------------------------

  /** The response, the cache store, the address table and the id counter after a check. */
  datatype Outcome = Outcome(
    response: AddressEligibilityResponse,
    store: map<string, Entry>,
    addresses: seq<Addresses.Address>,
    nextAddressId: int)

  class AddressEligibilityService {
    const cache: AddressCacheService
    const lookup: AddressLookupService
    const zones: seq<Zone>
    const engine: RuleEngine.RuleEngine
    var addresses: seq<Addresses.Address>
    var nextAddressId: int

    /** The lookup service and this one share one cache connection. */
    predicate Valid() {
      lookup.cache == cache
    }

    constructor (lookup: AddressLookupService, zones: seq<Zone>, engine: RuleEngine.RuleEngine,
                 addresses: seq<Addresses.Address>, nextAddressId: int)
      ensures Valid() && this.lookup == lookup && this.zones == zones && this.engine == engine
      ensures this.addresses == addresses && this.nextAddressId == nextAddressId
    {
      this.cache := lookup.cache;
      this.lookup := lookup;
      this.zones := zones;
      this.engine := engine;
      this.addresses := addresses;
      this.nextAddressId := nextAddressId;
    }

    /** The store after `cacheEligibility(key, response)`. */
    function CachedAt(available: bool, store: map<string, Entry>, key: string,
                      response: AddressEligibilityResponse): map<string, Entry>
    {
      if cache.WriteSucceeds(available)
      then store[EligibilityKey(key) := Entry(ResponseDoc(response), cache.cacheDurationSeconds)]
      else store
    }

    /** What the preloaded data says about the request, given the cache before the lookup. */
    function YamlAnswer(available: bool, store: map<string, Entry>, request: AddressEligibilityRequest)
      : Option<AddressEligibilityResponse>
    {
      match lookup.LookupResult(available, store, Some(request.streetAddress))
      case None => None
      case Some(data) => YamlResponse(request, data)
    }

    /** What the rule engine decides about the request. */
    function Verdict(request: AddressEligibilityRequest): EligibilityResult {
      RuleEngine.Evaluation(engine, request, CandidateZones(zones, request))
    }

    /** `checkEligibility` from a given cache, address table and id counter. */
    function Check(available: bool, store: map<string, Entry>, rows: seq<Addresses.Address>,
                   nextId: int, request: AddressEligibilityRequest): Outcome
    {
      var key := CacheKey(request);
      var hit := if available then ReadEligibility(store, key) else None;
      if hit.Some? then Outcome(hit.value.(cacheHit := true), store, rows, nextId)
      else
        var afterLookup := lookup.StoreAfterLookup(available, store, Some(request.streetAddress));
        var yaml := YamlAnswer(available, store, request);
        if yaml.Some? then Outcome(yaml.value, CachedAt(available, afterLookup, key, yaml.value), rows, nextId)
        else
          var existing := FindExisting(rows, request);
          if existing.Some? && existing.value.isEligible.Some?
          then Outcome(BuildResponseFromAddress(existing.value, true), afterLookup, rows, nextId)
          else
            var result := Verdict(request);
            var response := BuildResponse(request, result, SavedAddress(rows, nextId, request, result));
            Outcome(response, CachedAt(available, afterLookup, key, response),
                    SavedRows(rows, nextId, request, result), NextIdAfterSave(rows, nextId, request))
    }

    /** `performEligibilityCheck`: collect the candidate zones and run the rule engine. */
    method PerformEligibilityCheck(request: AddressEligibilityRequest) returns (result: EligibilityResult)
      ensures result == Verdict(request)
    {
      var byZip := ZoneRepository.FindActiveZonesByZipCode(zones, request.zipCode);
      var byCityAndState := ZoneRepository.FindActiveZonesByCityAndState(zones, request.city, request.state);
      var byCoordinates := [];
      if request.checkCoordinates && request.latitude.Some? && request.longitude.Some? {
        byCoordinates := ZoneRepository.FindActiveZonesByCoordinates(
          zones, request.latitude.value, request.longitude.value);
      }
      var matchedZones := byZip + byCityAndState + byCoordinates;
      assert matchedZones == CandidateZones(zones, request);
      result := RuleEngine.Evaluate(engine, request, matchedZones);
    }

    /** `saveOrUpdateAddress`: stamp the verdict on the existing row, or insert a new one. */
    method SaveOrUpdateAddress(request: AddressEligibilityRequest, result: EligibilityResult)
      returns (address: Addresses.Address)
      modifies this
      ensures address == SavedAddress(old(addresses), old(nextAddressId), request, result)
      ensures addresses == SavedRows(old(addresses), old(nextAddressId), request, result)
      ensures nextAddressId == NextIdAfterSave(old(addresses), old(nextAddressId), request)
    {
      var index := ExistingIndex(addresses, request);
      if index.Some? {
        address := Stamped(addresses[index.value], request, result);
        addresses := addresses[index.value := address];
      } else {
        address := Stamped(NewAddress(request, nextAddressId), request, result);
        addresses := addresses + [address];
        nextAddressId := nextAddressId + 1;
      }
    }

    /** `checkEligibility`. */
    method CheckEligibility(request: AddressEligibilityRequest) returns (response: AddressEligibilityResponse)
      requires Valid()
      modifies this, cache
      ensures cache.available == old(cache.available)
      ensures Outcome(response, cache.store, addresses, nextAddressId)
           == Check(cache.available, old(cache.store), old(addresses), old(nextAddressId), request)
    {
      var cacheKey := CacheKey(request);
      var cachedResponse := cache.GetCachedEligibility(cacheKey);
      if cachedResponse.Some? {
        return cachedResponse.value.(cacheHit := true);
      }
      var yamlData := lookup.Lookup(Some(request.streetAddress));
      var yamlResponse := if yamlData.Some? then YamlResponse(request, yamlData.value) else None;
      if yamlResponse.Some? {
        cache.CacheEligibility(cacheKey, yamlResponse.value);
        return yamlResponse.value;
      }
      var existingAddress := FindExisting(addresses, request);
      if existingAddress.Some? && existingAddress.value.isEligible.Some? {
        return BuildResponseFromAddress(existingAddress.value, true);
      }
      var result := PerformEligibilityCheck(request);
      var address := SaveOrUpdateAddress(request, result);
      response := BuildResponse(request, result, address);
      cache.CacheEligibility(cacheKey, response);
    }

    // -------------------------------------------------------------------------------------
    // Properties of the pipeline
    // -------------------------------------------------------------------------------------

    /**
     * A freshly computed answer is cached: with the cache up and a positive expiry configured,
     * asking again returns the same response marked as a cache hit.
     */
    lemma RepeatIsServedFromCache(store: map<string, Entry>, rows: seq<Addresses.Address>, nextId: int,
                                  request: AddressEligibilityRequest)
      requires cache.cacheDurationSeconds > 0
      requires !Check(true, store, rows, nextId, request).response.cacheHit
      ensures var o := Check(true, store, rows, nextId, request);
        Check(true, o.store, o.addresses, o.nextAddressId, request).response == o.response.(cacheHit := true)
    {
      var o := Check(true, store, rows, nextId, request);
      var afterLookup := lookup.StoreAfterLookup(true, store, Some(request.streetAddress));
      ReadAfterCacheEligibility(afterLookup, CacheKey(request), o.response, cache.cacheDurationSeconds);
    }

    /**
     * The key ignores `includeReason`, so once an answer without a reason is cached, a request
     * for the same address that asks for the reason is served that answer, still without one.
     */
    lemma ReasonlessAnswerIsReplayed(store: map<string, Entry>, rows: seq<Addresses.Address>, nextId: int,
                                     request: AddressEligibilityRequest)
      requires cache.cacheDurationSeconds > 0
      requires !request.includeReason
      requires !Check(true, store, rows, nextId, request).response.cacheHit
      ensures var o := Check(true, store, rows, nextId, request);
        var asking := request.(includeReason := true);
        Check(true, o.store, o.addresses, o.nextAddressId, asking).response == o.response.(cacheHit := true)
    {
      RepeatIsServedFromCache(store, rows, nextId, request);
      var asking := request.(includeReason := true);
      assert CacheKey(asking) == CacheKey(request);
    }

    /**
     * With a non-positive expiry configured every write is refused, so no eligibility answer
     * is ever added or changed, whichever path answers.
     */
    lemma NonPositiveDurationCachesNothing(available: bool, store: map<string, Entry>,
                                           rows: seq<Addresses.Address>, nextId: int,
                                           request: AddressEligibilityRequest, key: string)
      requires cache.cacheDurationSeconds <= 0
      ensures ReadEligibility(Check(available, store, rows, nextId, request).store, key)
           == ReadEligibility(store, key)
    {
      lookup.LookupKeepsEligibility(available, store, Some(request.streetAddress), key);
    }

    /** On the rule-engine path that replayed answer indeed carries no reason. */
    lemma RuleAnswerWithoutReason(store: map<string, Entry>, rows: seq<Addresses.Address>, nextId: int,
                                  request: AddressEligibilityRequest)
      requires !request.includeReason
      requires ReadEligibility(store, CacheKey(request)).None?
      requires YamlAnswer(true, store, request).None?
      requires FindExisting(rows, request).None?
      ensures Check(true, store, rows, nextId, request).response.reason.None?
      ensures !Check(true, store, rows, nextId, request).response.cacheHit
    {
    }

    /**
     * A verdict stored in the table but not in the cache is reported as a cache hit, without
     * zones or score, and is not cached, so the next request takes the same path again.
     */
    lemma StoredVerdictIsReportedAsCacheHit(available: bool, store: map<string, Entry>,
                                            rows: seq<Addresses.Address>, nextId: int,
                                            request: AddressEligibilityRequest)
      requires available ==> ReadEligibility(store, CacheKey(request)).None?
      requires YamlAnswer(available, store, request).None?
      requires FindExisting(rows, request).Some? && FindExisting(rows, request).value.isEligible.Some?
      ensures var o := Check(available, store, rows, nextId, request);
        && o.response.cacheHit && o.response.matchedZones.None? && o.response.confidenceScore.None?
        && (available ==> ReadEligibility(o.store, CacheKey(request)).None?)
        && o.addresses == rows
    {
      lookup.LookupKeepsEligibility(available, store, Some(request.streetAddress), CacheKey(request));
    }

    /** Asking twice gives the same verdict, whichever path answered the first time. */
    lemma VerdictIsStable(available: bool, store: map<string, Entry>, rows: seq<Addresses.Address>,
                          nextId: int, request: AddressEligibilityRequest)
      ensures var o := Check(available, store, rows, nextId, request);
        Check(available, o.store, o.addresses, o.nextAddressId, request).response.eligible == o.response.eligible
    {
      var hit := if available then ReadEligibility(store, CacheKey(request)) else None;
      if hit.None? {
        if YamlAnswer(available, store, request).Some? {
          YamlVerdictIsStable(available, store, rows, nextId, request);
        } else {
          TableVerdictIsStable(available, store, rows, nextId, request);
        }
      }
    }

    /** The second request sees the same preloaded answer, or the first one cached. */
    lemma YamlVerdictIsStable(available: bool, store: map<string, Entry>, rows: seq<Addresses.Address>,
                              nextId: int, request: AddressEligibilityRequest)
      requires available ==> ReadEligibility(store, CacheKey(request)).None?
      requires YamlAnswer(available, store, request).Some?
      ensures var o := Check(available, store, rows, nextId, request);
        Check(available, o.store, o.addresses, o.nextAddressId, request).response.eligible == o.response.eligible
    {
      var key := CacheKey(request);
      var address := Some(request.streetAddress);
      var afterLookup := lookup.StoreAfterLookup(available, store, address);
      lookup.LookupKeepsEligibility(available, store, address, key);
      lookup.LookupIsStable(available, store, address);
      var yaml := YamlAnswer(available, store, request);
      assert YamlAnswer(available, afterLookup, request) == yaml;
      var o := Check(available, store, rows, nextId, request);
      assert o.response == yaml.value && o.store == CachedAt(available, afterLookup, key, yaml.value);
      if cache.WriteSucceeds(available) {
        ReadAfterCacheEligibility(afterLookup, key, yaml.value, cache.cacheDurationSeconds);
      } else {
        assert o.store == afterLookup;
      }
    }

    /** Without a preloaded answer, the stored row or the cached verdict answers the second time. */
    lemma TableVerdictIsStable(available: bool, store: map<string, Entry>, rows: seq<Addresses.Address>,
                               nextId: int, request: AddressEligibilityRequest)
      requires available ==> ReadEligibility(store, CacheKey(request)).None?
      requires YamlAnswer(available, store, request).None?
      ensures var o := Check(available, store, rows, nextId, request);
        Check(available, o.store, o.addresses, o.nextAddressId, request).response.eligible == o.response.eligible
    {
      var address := Some(request.streetAddress);
      var afterLookup := lookup.StoreAfterLookup(available, store, address);
      lookup.LookupKeepsEligibility(available, store, address, CacheKey(request));
      lookup.LookupIsStable(available, store, address);
      assert YamlAnswer(available, afterLookup, request).None?;
      var existing := FindExisting(rows, request);
      if !(existing.Some? && existing.value.isEligible.Some?) {
        RuleVerdictIsStable(available, store, rows, nextId, request);
      }
    }

    /** A verdict the rule engine computed is cached or saved, and found again. */
    lemma RuleVerdictIsStable(available: bool, store: map<string, Entry>, rows: seq<Addresses.Address>,
                              nextId: int, request: AddressEligibilityRequest)
      requires available ==> ReadEligibility(store, CacheKey(request)).None?
      requires YamlAnswer(available, store, request).None?
      requires var existing := FindExisting(rows, request); !(existing.Some? && existing.value.isEligible.Some?)
      requires var afterLookup := lookup.StoreAfterLookup(available, store, Some(request.streetAddress));
        && (available ==> ReadEligibility(afterLookup, CacheKey(request)).None?)
        && YamlAnswer(available, afterLookup, request).None?
      ensures var o := Check(available, store, rows, nextId, request);
        Check(available, o.store, o.addresses, o.nextAddressId, request).response.eligible == o.response.eligible
    {
      var key := CacheKey(request);
      var afterLookup := lookup.StoreAfterLookup(available, store, Some(request.streetAddress));
      var result := Verdict(request);
      var o := Check(available, store, rows, nextId, request);
      if cache.WriteSucceeds(available) {
        ReadAfterCacheEligibility(afterLookup, key, o.response, cache.cacheDurationSeconds);
      } else {
        assert o.store == afterLookup;
        SavedAddressIsFound(rows, nextId, request, result);
      }
    }
  }
}
