/**
 * The persisted address (Address.java) and the queries on the address table
 * (AddressRepository.java). Audit timestamps and the optimistic-lock version are not modelled.
 */
module Addresses {
  import opened Options

  /**
   * One row of the address table; every nullable column is an `Option`. `isEligible` is
   * `None` until an eligibility check has stored a verdict.
   */
  datatype Address = Address(
    id: Option<int>,
    streetAddress: string,
    streetAddress2: Option<string>,
    city: string,
    state: string,
    zipCode: string,
    country: Option<string>,
    latitude: Option<real>,
    longitude: Option<real>,
    isEligible: Option<bool>,
    eligibilityReason: Option<string>)

  /** Exact, case-sensitive equality on the four identifying fields. */
  predicate SameLocation(a: Address, streetAddress: string, city: string, state: string,
                         zipCode: string) {
    a.streetAddress == streetAddress && a.city == city && a.state == state && a.zipCode == zipCode
  }

  /** The `WHERE` clauses of the address queries. */
  datatype AddressQuery =
    | WithZipCode(zipCode: string)
    | WithCityAndState(city: string, state: string)
    | WithEligibility(eligible: bool)
    | InCoordinatesRange(minLat: real, maxLat: real, minLon: real, maxLon: real)

  predicate Matches(q: AddressQuery, a: Address) {
    match q
    case WithZipCode(zip) => a.zipCode == zip
    case WithCityAndState(city, state) => a.city == city && a.state == state
    case WithEligibility(b) => a.isEligible == Some(b)
    case InCoordinatesRange(minLat, maxLat, minLon, maxLon) =>
      && a.latitude.Some? && minLat <= a.latitude.value <= maxLat
      && a.longitude.Some? && minLon <= a.longitude.value <= maxLon
  }

  /** The rows satisfying `q`, in table order. */
  function Select(rows: seq<Address>, q: AddressQuery): (r: seq<Address>)
    ensures forall a :: a in r <==> a in rows && Matches(q, a)
    ensures |r| <= |rows|
    decreases |rows|
  {
    if rows == [] then []
    else
      var init := Select(rows[..|rows| - 1], q);
      var last := rows[|rows| - 1];
      assert rows == rows[..|rows| - 1] + [last];
      if Matches(q, last) then init + [last] else init
  }

  /** The position of the first row at the given location, if any. */
  function IndexOfLocation(rows: seq<Address>, streetAddress: string, city: string, state: string,
                           zipCode: string): (r: Option<nat>)
    ensures r.Some? ==> r.value < |rows| && SameLocation(rows[r.value], streetAddress, city, state, zipCode)
    ensures r.Some? ==> forall j :: 0 <= j < r.value ==> !SameLocation(rows[j], streetAddress, city, state, zipCode)
    ensures r.None? ==> forall a :: a in rows ==> !SameLocation(a, streetAddress, city, state, zipCode)
    decreases |rows|
  {
    if rows == [] then None
    else if SameLocation(rows[0], streetAddress, city, state, zipCode) then Some(0)
    else
      match IndexOfLocation(rows[1..], streetAddress, city, state, zipCode)
      case None => None
      case Some(i) => Some(i + 1)
  }

  /** `findByStreetAddressAndCityAndStateAndZipCode`: the first row at that location. */
  function FindByStreetAddressAndCityAndStateAndZipCode(
    rows: seq<Address>, streetAddress: string, city: string, state: string, zipCode: string)
    : (r: Option<Address>)
    ensures r.Some? ==> r.value in rows && SameLocation(r.value, streetAddress, city, state, zipCode)
    ensures r.None? <==> forall a :: a in rows ==> !SameLocation(a, streetAddress, city, state, zipCode)
  {
    match IndexOfLocation(rows, streetAddress, city, state, zipCode)
    case None => None
    case Some(i) => Some(rows[i])
  }

  /** `findByZipCode`. */
  function FindByZipCode(rows: seq<Address>, zipCode: string): (r: seq<Address>)
    ensures forall a :: a in r <==> a in rows && a.zipCode == zipCode
  {
    Select(rows, WithZipCode(zipCode))
  }

  /** `findByCityAndState`. */
  function FindByCityAndState(rows: seq<Address>, city: string, state: string): (r: seq<Address>)
    ensures forall a :: a in r <==> a in rows && a.city == city && a.state == state
  {
    Select(rows, WithCityAndState(city, state))
  }

  /** `findByEligibility`: rows with a stored verdict equal to `eligible`; unchecked rows never. */
  function FindByEligibility(rows: seq<Address>, eligible: bool): (r: seq<Address>)
    ensures forall a :: a in r <==> a in rows && a.isEligible == Some(eligible)
  {
    Select(rows, WithEligibility(eligible))
  }

  /** `findByCoordinatesRange`: SQL `BETWEEN` on both axes, bounds included. */
  function FindByCoordinatesRange(rows: seq<Address>, minLat: real, maxLat: real, minLon: real,
                                  maxLon: real): (r: seq<Address>)
    ensures forall a :: a in r <==>
      (&& a in rows && a.latitude.Some? && a.longitude.Some?
       && minLat <= a.latitude.value <= maxLat && minLon <= a.longitude.value <= maxLon)
  {
    Select(rows, InCoordinatesRange(minLat, maxLat, minLon, maxLon))
  }

  /** `existsWithEligibilityCheck`: some row at that location already carries a verdict. */
  predicate ExistsWithEligibilityCheck(rows: seq<Address>, streetAddress: string, city: string,
                                       state: string, zipCode: string) {
    exists i :: 0 <= i < |rows| && SameLocation(rows[i], streetAddress, city, state, zipCode)
                && rows[i].isEligible.Some?
  }

  /**
   * A checked row at the location implies the exact-match lookup finds a row there; the
   * converse holds when the row it finds is itself checked.
   */
  lemma ExistsCheckedAndLookup(rows: seq<Address>, streetAddress: string, city: string,
                               state: string, zipCode: string)
    ensures ExistsWithEligibilityCheck(rows, streetAddress, city, state, zipCode)
        ==> FindByStreetAddressAndCityAndStateAndZipCode(rows, streetAddress, city, state, zipCode).Some?
    ensures var found := FindByStreetAddressAndCityAndStateAndZipCode(rows, streetAddress, city, state, zipCode);
      (found.Some? && found.value.isEligible.Some?)
        ==> ExistsWithEligibilityCheck(rows, streetAddress, city, state, zipCode)
  {
    if ExistsWithEligibilityCheck(rows, streetAddress, city, state, zipCode) {
      var i :| 0 <= i < |rows| && SameLocation(rows[i], streetAddress, city, state, zipCode)
               && rows[i].isEligible.Some?;
      assert rows[i] in rows;
    }
    var found := IndexOfLocation(rows, streetAddress, city, state, zipCode);
    if found.Some? {
      assert FindByStreetAddressAndCityAndStateAndZipCode(rows, streetAddress, city, state, zipCode)
          == Some(rows[found.value]);
    }
  }

  /** The eligible and the ineligible rows are disjoint; unchecked rows are in neither. */
  lemma VerdictQueriesAreDisjoint(rows: seq<Address>, a: Address)
    ensures !(a in FindByEligibility(rows, true) && a in FindByEligibility(rows, false))
    ensures a.isEligible.None? ==> a !in FindByEligibility(rows, true) && a !in FindByEligibility(rows, false)
  {
  }
}
