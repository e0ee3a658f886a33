/**
 * The zone table and the queries the service asks of it (EligibilityZoneRepository.java).
 * Every query is a filter over the table in table order; `DISTINCT` keeps the first
 * occurrence of each zone, and the priority query sorts the active zones.
 */
module ZoneRepository {
  import opened Options
  import opened Seqs
  import opened Zones

  /** The `WHERE` clauses of the queries, one constructor per query shape. */
  datatype ZoneQuery =
    | ActiveZones
    | WithActive(isActive: bool)
    | ActiveWithZipCode(zipCode: string)
    | ActiveWithCityAndState(city: string, state: string)
    | ActiveContaining(latitude: real, longitude: real)
    | OfType(zoneType: ZoneType)
    | OfTypeWithActive(zoneType: ZoneType, isActive: bool)
    | ActiveWithState(state: string)
    | ActiveWithCity(city: string)

  /** Whether one row satisfies a query's condition. */
  predicate Matches(q: ZoneQuery, z: Zone) {
    match q
    case ActiveZones => z.isActive
    case WithActive(b) => z.isActive == b
    case ActiveWithZipCode(zip) => z.isActive && zip in z.zipCodes
    case ActiveWithCityAndState(city, state) => z.isActive && city in z.cities && state in z.states
    case ActiveContaining(lat, lon) => z.isActive && IsWithinCoordinateBounds(lat, lon, z)
    case OfType(t) => z.zoneType == t
    case OfTypeWithActive(t, b) => z.zoneType == t && z.isActive == b
    case ActiveWithState(state) => z.isActive && state in z.states
    case ActiveWithCity(city) => z.isActive && city in z.cities
  }

  /** The rows satisfying `q`, in table order. */
  function Select(rows: seq<Zone>, q: ZoneQuery): (r: seq<Zone>)
    ensures forall z :: z in r <==> z in rows && Matches(q, z)
    ensures |r| <= |rows|
    decreases |rows|
  {
    if rows == [] then []
    else
      var init := Select(rows[..|rows| - 1], q);
      var last := rows[|rows| - 1];
      assert rows == rows[..|rows| - 1] + [last];
      if Matches(q, last) then init + [last] else init
  }

  /** Adding one row at the end adds it to the selection exactly when it matches. */
  lemma SelectSnoc(rows: seq<Zone>, last: Zone, q: ZoneQuery)
    ensures Select(rows + [last], q) == Select(rows, q) + (if Matches(q, last) then [last] else [])
  {
    assert (rows + [last])[..|rows|] == rows;
  }

  /** Selection distributes over concatenation, so it keeps the table order. */
  lemma {:induction false} SelectAppend(a: seq<Zone>, b: seq<Zone>, q: ZoneQuery)
    ensures Select(a + b, q) == Select(a, q) + Select(b, q)
    decreases |b|
  {
    if b == [] {
      assert a + b == a;
    } else {
      var b', last := b[..|b| - 1], b[|b| - 1];
      assert b == b' + [last];
      assert a + b == (a + b') + [last];
      var tail := if Matches(q, last) then [last] else [];
      calc {
        Select(a + b, q);
        { SelectSnoc(a + b', last, q); }
        Select(a + b', q) + tail;
        { SelectAppend(a, b', q); }
        (Select(a, q) + Select(b', q)) + tail;
        Select(a, q) + (Select(b', q) + tail);
        { SelectSnoc(b', last, q); }
        Select(a, q) + Select(b, q);
      }
    }
  }

  /** `findByIsActiveTrue`. */
  function FindByIsActiveTrue(rows: seq<Zone>): (r: seq<Zone>)
    ensures forall z :: z in r <==> z in rows && z.isActive
  {
    Select(rows, ActiveZones)
  }

  /** `findByZoneName`: the first row with that name, if any. */
  function FindByZoneName(rows: seq<Zone>, zoneName: string): (r: Option<Zone>)
    ensures r.Some? ==> r.value in rows && r.value.zoneName == zoneName
    ensures r.None? ==> forall z :: z in rows ==> z.zoneName != zoneName
  {
    if rows == [] then None
    else if rows[0].zoneName == zoneName then Some(rows[0])
    else FindByZoneName(rows[1..], zoneName)
  }

  /** `findActiveZonesByZipCode`: active zones listing the ZIP, each once. */
  function FindActiveZonesByZipCode(rows: seq<Zone>, zipCode: string): (r: seq<Zone>)
    ensures forall z :: z in r <==> z in rows && z.isActive && zipCode in z.zipCodes
    ensures NoDuplicates(r)
  {
    Distinct(Select(rows, ActiveWithZipCode(zipCode)))
  }

  /** `findActiveZonesByCityAndState`: active zones listing both the city and the state. */
  function FindActiveZonesByCityAndState(rows: seq<Zone>, city: string, state: string)
    : (r: seq<Zone>)
    ensures forall z :: z in r <==> z in rows && z.isActive && city in z.cities && state in z.states
    ensures NoDuplicates(r)
  {
    Distinct(Select(rows, ActiveWithCityAndState(city, state)))
  }

  /** `findActiveZonesByCoordinates`: active zones whose box holds the point, bounds included. */
  function FindActiveZonesByCoordinates(rows: seq<Zone>, latitude: real, longitude: real)
    : (r: seq<Zone>)
    ensures forall z :: z in r <==>
      (&& z in rows && z.isActive
       && z.minLatitude.Some? && z.maxLatitude.Some? && z.minLongitude.Some? && z.maxLongitude.Some?
       && z.minLatitude.value <= latitude <= z.maxLatitude.value
       && z.minLongitude.value <= longitude <= z.maxLongitude.value)
  {
    Select(rows, ActiveContaining(latitude, longitude))
  }

  /** `findAllActiveOrderByPriority`: the active zones, highest priority first. */
  function FindAllActiveOrderByPriority(rows: seq<Zone>): (r: seq<Zone>)
    ensures SortedByPriority(r)
    ensures multiset(r) == multiset(FindByIsActiveTrue(rows))
  {
    SortByPriority(Select(rows, ActiveZones))
  }

  /** `findByZoneType`, active or not. */
  function FindByZoneType(rows: seq<Zone>, zoneType: ZoneType): (r: seq<Zone>)
    ensures forall z :: z in r <==> z in rows && z.zoneType == zoneType
  {
    Select(rows, OfType(zoneType))
  }

  /** `findByZoneTypeAndIsActive`. */
  function FindByZoneTypeAndIsActive(rows: seq<Zone>, zoneType: ZoneType, isActive: bool)
    : (r: seq<Zone>)
    ensures forall z :: z in r <==> z in rows && z.zoneType == zoneType && z.isActive == isActive
  {
    Select(rows, OfTypeWithActive(zoneType, isActive))
  }

  /** `countByIsActiveTrue`, counted row by row. */
  function CountByIsActiveTrue(rows: seq<Zone>): (n: nat)
    ensures n <= |rows|
  {
    if rows == [] then 0
    else (if rows[0].isActive then 1 else 0) + CountByIsActiveTrue(rows[1..])
  }

  /** `existsByZoneName`. */
  predicate ExistsByZoneName(rows: seq<Zone>, zoneName: string) {
    exists i :: 0 <= i < |rows| && rows[i].zoneName == zoneName
  }

  /** `findActiveZonesByState`: active zones listing the state, each once. */
  function FindActiveZonesByState(rows: seq<Zone>, state: string): (r: seq<Zone>)
    ensures forall z :: z in r <==> z in rows && z.isActive && state in z.states
    ensures NoDuplicates(r)
  {
    Distinct(Select(rows, ActiveWithState(state)))
  }

  /** `findActiveZonesByCity`: active zones listing the city, each once. */
  function FindActiveZonesByCity(rows: seq<Zone>, city: string): (r: seq<Zone>)
    ensures forall z :: z in r <==> z in rows && z.isActive && city in z.cities
    ensures NoDuplicates(r)
  {
    Distinct(Select(rows, ActiveWithCity(city)))
  }

  // ---------------------------------------------------------------------------------------
  // Properties of the queries
  // ---------------------------------------------------------------------------------------

  /** The count query agrees with the size of the active-zone query. */
  lemma {:induction false} CountIsSizeOfActive(rows: seq<Zone>)
    ensures CountByIsActiveTrue(rows) == |FindByIsActiveTrue(rows)|
  {
    if rows != [] {
      CountIsSizeOfActive(rows[1..]);
      assert rows == [rows[0]] + rows[1..];
      SelectAppend([rows[0]], rows[1..], ActiveZones);
      assert [rows[0]][..0] == [];
    }
  }

  /** The existence query holds exactly when the lookup by name finds a zone. */
  lemma ExistsIffFound(rows: seq<Zone>, zoneName: string)
    ensures ExistsByZoneName(rows, zoneName) <==> FindByZoneName(rows, zoneName).Some?
  {
    if ExistsByZoneName(rows, zoneName) {
      var i :| 0 <= i < |rows| && rows[i].zoneName == zoneName;
      assert rows[i] in rows;
    }
  }

  /** A zone without any state is never a city-and-state candidate. */
  lemma StatelessZoneNeverMatchesCityAndState(rows: seq<Zone>, city: string, state: string, z: Zone)
    requires z.states == {}
    ensures z !in FindActiveZonesByCityAndState(rows, city, state)
  {
  }

  /** A zone missing any bound is never a coordinate candidate. */
  lemma UnboundedZoneNeverMatchesCoordinates(rows: seq<Zone>, latitude: real, longitude: real,
                                             z: Zone)
    requires z.minLatitude.None? || z.maxLatitude.None? || z.minLongitude.None? || z.maxLongitude.None?
    ensures z !in FindActiveZonesByCoordinates(rows, latitude, longitude)
  {
  }

  /** The priority query returns exactly the active zones. */
  lemma PriorityOrderKeepsActiveZones(rows: seq<Zone>)
    ensures forall z :: z in FindAllActiveOrderByPriority(rows) <==> z in rows && z.isActive
  {
    SortKeepsMembers(Select(rows, ActiveZones));
  }

  /** Every row is either active or inactive: the two selections split the table. */
  lemma {:induction false} ActiveSplitsTable(rows: seq<Zone>, isActive: bool)
    ensures |Select(rows, WithActive(isActive))| + |Select(rows, WithActive(!isActive))| == |rows|
    decreases |rows|
  {
    if rows != [] {
      ActiveSplitsTable(rows[..|rows| - 1], isActive);
    }
  }

  /** The table the repository reads and `deleteByIsActive` deletes from. */
  class ZoneTable {
    var rows: seq<Zone>

    constructor (rows: seq<Zone>)
      ensures this.rows == rows
    {
      this.rows := rows;
    }

    /**
     * `deleteByIsActive`: removes every row whose flag equals `isActive`, keeps the others in
     * order, and returns how many it removed.
     */
    method DeleteByIsActive(isActive: bool) returns (deleted: nat)
      modifies this
      ensures rows == Select(old(rows), WithActive(!isActive))
      ensures deleted == |Select(old(rows), WithActive(isActive))|
      ensures deleted == |old(rows)| - |rows|
    {
      var kept: seq<Zone> := [];
      deleted := 0;
      for i := 0 to |rows|
        invariant kept == Select(rows[..i], WithActive(!isActive))
        invariant deleted == |Select(rows[..i], WithActive(isActive))|
      {
        assert rows[..i + 1][..i] == rows[..i];
        if rows[i].isActive == isActive {
          deleted := deleted + 1;
        } else {
          kept := kept + [rows[i]];
        }
      }
      assert rows[..|rows|] == rows;
      ActiveSplitsTable(rows, isActive);
      rows := kept;
    }
  }
}
