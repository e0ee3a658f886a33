/**
 * The address lookup (AddressLookupService.java): a cache in front of either the geocoder or
 * a fixture table, and the folding of a geocoder result into a flat map of address fields.
 * The geocoder itself is a function parameter; the fixture file is a given map.
 */
module AddressLookup {
  import opened Options
  import opened JavaStrings
  import opened AddressCache

  /** One entry of a geocoder result's `address_components`; `types` may be null. */
  datatype GeoComponent = GeoComponent(types: Option<seq<string>>, longName: string)

  /** One entry of `results`; `address_components` may be missing. */
  datatype GeoResult = GeoResult(addressComponents: Option<seq<GeoComponent>>)

  /** The geocoder's response body; `results` may be missing. */
  datatype GeoResponse = GeoResponse(results: Option<seq<GeoResult>>)

  const CountySuffix := " County"

  /** The only type `formatResult` reads: the first one, if the list is present and non-empty. */
  function FirstType(c: GeoComponent): Option<string> {
    if c.types.Some? && c.types.value != [] then Some(c.types.value[0]) else None
  }

  /** Street-number and route components make up the street. */
  predicate IsStreetPart(c: GeoComponent) {
    FirstType(c) == Some("street_number") || FirstType(c) == Some("route")
  }

  /** The key under which a component of type `t` is stored, for the five stored types. */
  function HashKey(t: string): Option<string> {
    if t == "locality" then Some("city")
    else if t == "administrative_area_level_2" then Some("county")
    else if t == "administrative_area_level_1" then Some("state")
    else if t == "country" then Some("country")
    else if t == "postal_code" then Some("zip")
    else None
  }

  /** The stored value: the county loses every " County", the others are kept as they are. */
  function HashValue(t: string, longName: string): string {
    if t == "administrative_area_level_2" then RemoveAll(longName, CountySuffix) else longName
  }

  /** One step of the switch: store the component's value under its key, if it has one. */
  function PutComponent(hash: map<string, string>, c: GeoComponent): map<string, string> {
    match FirstType(c)
    case None => hash
    case Some(t) =>
      match HashKey(t)
      case None => hash
      case Some(key) => hash[key := HashValue(t, c.longName)]
  }

  /** The map the loop has built after the given components, street aside. */
  function ComponentHash(cs: seq<GeoComponent>): map<string, string>
    decreases |cs|
  {
    if cs == [] then map[] else PutComponent(ComponentHash(cs[..|cs| - 1]), cs[|cs| - 1])
  }

  /** The street parts collected after the given components, in encounter order. */
  function StreetParts(cs: seq<GeoComponent>): seq<string>
    decreases |cs|
  {
    if cs == [] then []
    else StreetParts(cs[..|cs| - 1]) + (if IsStreetPart(cs[|cs| - 1]) then [cs[|cs| - 1].longName] else [])
  }

  /** What `formatResult` returns for one geocoder result. */
  function FormattedResult(result: GeoResult): map<string, string> {
    match result.addressComponents
    case None => map[]
    case Some(cs) =>
      var parts := StreetParts(cs);
      if parts == [] then ComponentHash(cs) else ComponentHash(cs)["street" := Join(" ", parts)]
  }

  /** `formatResult`: one pass over the components, filling the map and the street list. */
  method FormatResult(result: GeoResult) returns (addressHash: map<string, string>)
    ensures addressHash == FormattedResult(result)
  {
    addressHash := map[];
    var streetComponents: seq<string> := [];
    if result.addressComponents.None? {
      return;
    }
    var components := result.addressComponents.value;
    for i := 0 to |components|
      invariant addressHash == ComponentHash(components[..i])
      invariant streetComponents == StreetParts(components[..i])
    {
      var component := components[i];
      assert components[..i + 1][..i] == components[..i];
      if component.types.None? || component.types.value == [] {
        continue;
      }
      var t := component.types.value[0];
      var longName := component.longName;
      if t == "street_number" {
        streetComponents := streetComponents + [longName];
      } else if t == "route" {
        streetComponents := streetComponents + [longName];
      } else if t == "locality" {
        addressHash := addressHash["city" := longName];
      } else if t == "administrative_area_level_2" {
        addressHash := addressHash["county" := RemoveAll(longName, CountySuffix)];
      } else if t == "administrative_area_level_1" {
        addressHash := addressHash["state" := longName];
      } else if t == "country" {
        addressHash := addressHash["country" := longName];
      } else if t == "postal_code" {
        addressHash := addressHash["zip" := longName];
      }
    }
    assert components[..|components|] == components;
    if streetComponents != [] {
      addressHash := addressHash["street" := Join(" ", streetComponents)];
    }
  }

  /** The long name of the last component whose first type is `t` (reference definition). */
  function LastOfType(cs: seq<GeoComponent>, t: string): Option<string>
    decreases |cs|
  {
    if cs == [] then None
    else if FirstType(cs[|cs| - 1]) == Some(t) then Some(cs[|cs| - 1].longName)
    else LastOfType(cs[..|cs| - 1], t)
  }

  /**
   * Last write wins: each stored field holds the value of the last component of its type,
   * and a field no component supplied is absent.
   */
  lemma {:induction false} ComponentHashHoldsLastOfType(cs: seq<GeoComponent>, t: string)
    requires HashKey(t).Some?
    ensures HashKey(t).value in ComponentHash(cs) <==> LastOfType(cs, t).Some?
    ensures LastOfType(cs, t).Some? ==>
      ComponentHash(cs)[HashKey(t).value] == HashValue(t, LastOfType(cs, t).value)
    decreases |cs|
  {
    if cs != [] {
      ComponentHashHoldsLastOfType(cs[..|cs| - 1], t);
    }
  }

  /** Only the five known fields are ever stored by the switch; the street is added after it. */
  lemma {:induction false} ComponentHashKeys(cs: seq<GeoComponent>)
    ensures ComponentHash(cs).Keys <= {"city", "county", "state", "country", "zip"}
    decreases |cs|
  {
    if cs != [] {
      ComponentHashKeys(cs[..|cs| - 1]);
    }
  }

  /** The street is present exactly when some component is a street number or a route. */
  lemma {:induction false} StreetPresentIffStreetPart(cs: seq<GeoComponent>)
    ensures StreetParts(cs) != [] <==> exists i :: 0 <= i < |cs| && IsStreetPart(cs[i])
    decreases |cs|
  {
    if cs != [] {
      var init := cs[..|cs| - 1];
      StreetPresentIffStreetPart(init);
      if exists i :: 0 <= i < |init| && IsStreetPart(init[i]) {
        var i :| 0 <= i < |init| && IsStreetPart(init[i]);
        assert IsStreetPart(cs[i]);
      }
      if exists i :: 0 <= i < |cs| && IsStreetPart(cs[i]) {
        var i :| 0 <= i < |cs| && IsStreetPart(cs[i]);
        if i < |init| {
          assert IsStreetPart(init[i]);
        }
      }
    }
  }

  /** Two street parts are joined with a single space. */
  lemma StreetJoinsNumberAndRoute(number: string, route: string)
    ensures var cs := [GeoComponent(Some(["street_number"]), number), GeoComponent(Some(["route"]), route)];
      FormattedResult(GeoResult(Some(cs)))["street"] == number + " " + route
  {
    var cs := [GeoComponent(Some(["street_number"]), number), GeoComponent(Some(["route"]), route)];
    assert cs[..1][..0] == [];
    assert StreetParts(cs[..1]) == [number];
    assert cs[..|cs| - 1] == cs[..1];
    assert StreetParts(cs) == [number, route];
    assert Join(" ", [number, route]) == number + " " + Join(" ", [route]);
  }

  /**
   * A county name that does not itself contain " County", followed by the suffix, comes back
   * bare: the suffix starts with the only space it holds, so no match can straddle the join.
   */
  lemma {:induction false} CountySuffixIsRemoved(name: string)
    requires !Contains(name, CountySuffix)
    ensures RemoveAll(name + CountySuffix, CountySuffix) == name
    decreases |name|
  {
    var s := name + CountySuffix;
    if name == [] {
      assert s[..|CountySuffix|] == CountySuffix;
      assert s[|CountySuffix|..] == [];
    } else {
      if |name| < |CountySuffix| {
        // The suffix's only space is its first character, so it cannot reappear at |name|.
        assert s[|name|] == ' ' && CountySuffix[|name|] != ' ';
      } else {
        assert s[..|CountySuffix|] == name[..|CountySuffix|];
      }
      assert s[..|CountySuffix|] != CountySuffix;
      assert s[1..] == name[1..] + CountySuffix;
      CountySuffixIsRemoved(name[1..]);
    }
  }

  /** `lookupInGoogleMaps`: nothing without results, otherwise the first result, formatted. */
  function GoogleMapsResult(response: Option<GeoResponse>): (r: Option<map<string, string>>)
    ensures r.Some? <==> response.Some? && response.value.results.Some? && response.value.results.value != []
    ensures r.Some? ==> r.value == FormattedResult(response.value.results.value[0])
  {
    match response
    case None => None
    case Some(body) =>
      match body.results
      case None => None
      case Some(results) => if results == [] then None else Some(FormattedResult(results[0]))
  }

  /** The lookup service with its cache, source switch, fixtures and geocoder. */
  class AddressLookupService {
    const cache: AddressCacheService
    const useGoogleMapsApi: bool
    const fixtures: map<string, map<string, string>>
    const geocode: string -> Option<GeoResponse>

    constructor (cache: AddressCacheService, useGoogleMapsApi: bool,
                 fixtures: map<string, map<string, string>>, geocode: string -> Option<GeoResponse>)
      ensures this.cache == cache && this.useGoogleMapsApi == useGoogleMapsApi
      ensures this.fixtures == fixtures && this.geocode == geocode
    {
      this.cache := cache;
      this.useGoogleMapsApi := useGoogleMapsApi;
      this.fixtures := fixtures;
      this.geocode := geocode;
    }

    /** The source `lookup` falls back to: the geocoder when enabled, else the fixture entry. */
    function Source(address: string): (r: Option<map<string, string>>)
      ensures !useGoogleMapsApi ==> r == Get(fixtures, address)
      ensures useGoogleMapsApi ==> r == GoogleMapsResult(geocode(address))
    {
      if useGoogleMapsApi then GoogleMapsResult(geocode(address)) else Get(fixtures, address)
    }

    /** A parseable map cached for the address, if the cache is up and holds one. */
    function Cached(available: bool, store: map<string, Entry>, address: string)
      : (r: Option<map<string, string>>)
      ensures r.Some? <==> available && ReadLookup(store, address).Some?
                           && ReadLookup(store, address).value.ComponentsDoc?
    {
      if !available then None
      else
        match ReadLookup(store, address)
        case Some(ComponentsDoc(components)) => Some(components)
        case _ => None
    }

    /**
     * What `lookup` answers: nothing for blank input, a parseable cached map as it is,
     * otherwise whatever the source gives.
     */
    function LookupResult(available: bool, store: map<string, Entry>, address: Option<string>)
      : (r: Option<map<string, string>>)
      ensures address.None? || IsBlank(address.value) ==> r.None?
      ensures address.Some? && !IsBlank(address.value) && Cached(available, store, address.value).Some?
              ==> r == Cached(available, store, address.value)
      ensures address.Some? && !IsBlank(address.value) && Cached(available, store, address.value).None?
              ==> r == Source(address.value)
    {
      if address.None? || IsBlank(address.value) then None
      else if Cached(available, store, address.value).Some? then Cached(available, store, address.value)
      else Source(address.value)
    }

    /**
     * The store after `lookup`: only a result fetched from the source is written back, under
     * the address's lookup key; blank input, a cache hit, a miss at the source or a refused
     * write leave the store as it was.
     */
    function StoreAfterLookup(available: bool, store: map<string, Entry>, address: Option<string>)
      : (r: map<string, Entry>)
      ensures address.None? || IsBlank(address.value) || Cached(available, store, address.value).Some?
              || Source(address.value).None? || !cache.WriteSucceeds(available)
              ==> r == store
      ensures r != store ==>
                && address.Some?
                && LookupKey(address.value) in r
                && r[LookupKey(address.value)].value == ComponentsDoc(LookupResult(available, store, address).value)
                && forall k :: k != LookupKey(address.value) ==> (k in r <==> k in store) && (k in r ==> r[k] == store[k])
    {
      if address.None? || IsBlank(address.value) || Cached(available, store, address.value).Some?
      then store
      else
        match Source(address.value)
        case None => store
        case Some(found) =>
          if cache.WriteSucceeds(available)
          then store[LookupKey(address.value) := Entry(ComponentsDoc(found), cache.cacheDurationSeconds)]
          else store
    }

    /** `lookup` over the cache and the configured source. */
    method Lookup(address: Option<string>) returns (r: Option<map<string, string>>)
      modifies cache
      ensures cache.available == old(cache.available)
      ensures r == LookupResult(cache.available, old(cache.store), address)
      ensures cache.store == StoreAfterLookup(cache.available, old(cache.store), address)
    {
      if address.None? || IsBlank(address.value) {
        return None;
      }
      var a := address.value;
      var cachedResult := cache.Get(a);
      if cachedResult.Some? && cachedResult.value.ComponentsDoc? {
        return Some(cachedResult.value.components);
      }
      assert Cached(cache.available, cache.store, a).None?;
      if useGoogleMapsApi {
        r := GoogleMapsResult(geocode(a));
      } else {
        r := Get(fixtures, a);
      }
      if r.Some? {
        cache.Set(a, ComponentsDoc(r.value));
      }
    }

    /** A lookup never touches the cached eligibility responses. */
    lemma LookupKeepsEligibility(available: bool, store: map<string, Entry>, address: Option<string>,
                                 key: string)
      ensures ReadEligibility(StoreAfterLookup(available, store, address), key)
           == ReadEligibility(store, key)
    {
      if address.Some? {
        var found := Source(address.value);
        if found.Some? {
          SetKeepsEligibility(store, address.value,
            Entry(ComponentsDoc(found.value), cache.cacheDurationSeconds), key);
        }
      }
    }

    /** Looking the same address up again gives the same answer: a found result is now cached. */
    lemma LookupIsStable(available: bool, store: map<string, Entry>, address: Option<string>)
      ensures LookupResult(available, StoreAfterLookup(available, store, address), address)
           == LookupResult(available, store, address)
    {
      if address.Some? && !IsBlank(address.value) {
        var found := Source(address.value);
        if found.Some? && cache.WriteSucceeds(available) {
          ReadAfterSet(store, address.value, ComponentsDoc(found.value), cache.cacheDurationSeconds);
        }
      }
    }
  }

  /** After a found result is cached, the next lookup of the same address is a cache hit. */
  lemma CachedResultIsHitNextTime(store: map<string, Entry>, address: string,
                                  result: map<string, string>, ttl: int)
    ensures var after := store[LookupKey(address) := Entry(ComponentsDoc(result), ttl)];
      ReadLookup(after, address) == Some(ComponentsDoc(result))
  {
  }
}
