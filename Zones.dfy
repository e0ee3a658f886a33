/**
 * The eligibility zone entity (EligibilityZone.java) and the priority order the rule
 * engine and the priority query put zones in.
 */
module Zones {
  import opened Options
  import opened Seqs

  /** The closed set of zone kinds; the rule engine's scoring matches on it exhaustively. */
  datatype ZoneType = ZipCode | City | State | Coordinates | Custom

  /**
   * One row of the zone table. Equality is value equality over every field, as Lombok's
   * `@Data` gives the Java class; the audit timestamps are not modelled.
   * A null bound is `None`.
   */
  datatype Zone = Zone(
    id: int,
    zoneName: string,
    zoneType: ZoneType,
    zipCodes: set<string>,
    cities: set<string>,
    states: set<string>,
    minLatitude: Option<real>,
    maxLatitude: Option<real>,
    minLongitude: Option<real>,
    maxLongitude: Option<real>,
    isActive: bool,
    priority: int)

  /**
   * Inclusive box containment. The query compares with SQL, where a null bound makes the
   * comparison fail; the rule engine's Java comparison would throw while unboxing a null
   * bound. The model answers "outside" for both.
   */
  predicate IsWithinCoordinateBounds(latitude: real, longitude: real, z: Zone) {
    && z.minLatitude.Some? && z.maxLatitude.Some?
    && z.minLongitude.Some? && z.maxLongitude.Some?
    && z.minLatitude.value <= latitude <= z.maxLatitude.value
    && z.minLongitude.value <= longitude <= z.maxLongitude.value
  }

  /** Highest priority first. */
  predicate SortedByPriority(s: seq<Zone>) {
    forall i, j :: 0 <= i < j < |s| ==> s[i].priority >= s[j].priority
  }

  /** A zone no lower than the head of a sorted sequence can go in front of it. */
  lemma ConsIsSorted(x: Zone, t: seq<Zone>)
    requires SortedByPriority(t)
    requires t == [] || x.priority >= t[0].priority
    ensures SortedByPriority([x] + t)
  {
    var r := [x] + t;
    forall i, j | 0 <= i < j < |r| ensures r[i].priority >= r[j].priority {
      if i == 0 && j > 1 {
        assert r[j] == t[j - 1] && t[0].priority >= t[j - 1].priority;
      }
    }
  }

  /** Places `z` in front of every zone of equal or lower priority. */
  function InsertByPriority(z: Zone, s: seq<Zone>): (r: seq<Zone>)
    requires SortedByPriority(s)
    ensures SortedByPriority(r)
    ensures |r| == |s| + 1
    ensures r[0] == z || (s != [] && r[0] == s[0])
    ensures multiset(r) == multiset(s) + multiset{z}
  {
    if s == [] || z.priority >= s[0].priority then
      ConsIsSorted(z, s);
      [z] + s
    else
      var rest := InsertByPriority(z, s[1..]);
      ConsIsSorted(s[0], rest);
      assert s == [s[0]] + s[1..];
      [s[0]] + rest
  }

  /**
   * `sorted((z1, z2) -> Integer.compare(z2.getPriority(), z1.getPriority()))`: a stable
   * sort, highest priority first, which keeps zones of equal priority in encounter order.
   */
  function SortByPriority(s: seq<Zone>): (r: seq<Zone>)
    ensures SortedByPriority(r)
    ensures multiset(r) == multiset(s)
  {
    if s == [] then []
    else
      assert s == [s[0]] + s[1..];
      InsertByPriority(s[0], SortByPriority(s[1..]))
  }

  /** The zones of priority `p`, in order. */
  function WithPriority(s: seq<Zone>, p: int): seq<Zone> {
    if s == [] then []
    else (if s[0].priority == p then [s[0]] else []) + WithPriority(s[1..], p)
  }

  /** `WithPriority` of a sequence with a known head. */
  lemma WithPriorityCons(x: Zone, t: seq<Zone>, p: int)
    ensures WithPriority([x] + t, p) == (if x.priority == p then [x] else []) + WithPriority(t, p)
  {
    assert ([x] + t)[1..] == t;
  }

  lemma {:induction false} InsertIsStable(z: Zone, s: seq<Zone>, p: int)
    requires SortedByPriority(s)
    ensures WithPriority(InsertByPriority(z, s), p)
         == (if z.priority == p then [z] else []) + WithPriority(s, p)
  {
    if s == [] || z.priority >= s[0].priority {
      WithPriorityCons(z, s, p);
    } else {
      var rest := InsertByPriority(z, s[1..]);
      assert InsertByPriority(z, s) == [s[0]] + rest;
      InsertIsStable(z, s[1..], p);
      WithPriorityCons(s[0], rest, p);
      WithPriorityCons(s[0], s[1..], p);
      assert [s[0]] + s[1..] == s;
      assert !(z.priority == p && s[0].priority == p);
    }
  }

  /** Stability: among zones of one priority, the sort keeps the order they came in. */
  lemma {:induction false} SortIsStable(s: seq<Zone>, p: int)
    ensures WithPriority(SortByPriority(s), p) == WithPriority(s, p)
  {
    if s != [] {
      SortIsStable(s[1..], p);
      InsertIsStable(s[0], SortByPriority(s[1..]), p);
    }
  }

  /** Sorting keeps exactly the zones it was given. */
  lemma SortKeepsMembers(s: seq<Zone>)
    ensures forall z :: z in SortByPriority(s) <==> z in s
  {
    var r := SortByPriority(s);
    assert forall z :: z in r <==> z in multiset(r);
    assert forall z :: z in s <==> z in multiset(s);
  }

  /** A head not in a duplicate-free tail keeps the sequence duplicate-free. */
  lemma ConsNoDuplicates(x: Zone, t: seq<Zone>)
    requires NoDuplicates(t) && x !in t
    ensures NoDuplicates([x] + t)
  {
  }

  /** Inserting a zone that is not yet present keeps the sequence free of duplicates. */
  lemma {:induction false} InsertKeepsNoDuplicates(z: Zone, s: seq<Zone>)
    requires SortedByPriority(s)
    requires NoDuplicates(s) && z !in s
    ensures NoDuplicates(InsertByPriority(z, s))
  {
    if s == [] || z.priority >= s[0].priority {
      ConsNoDuplicates(z, s);
    } else {
      assert s == [s[0]] + s[1..];
      var rest := InsertByPriority(z, s[1..]);
      InsertKeepsNoDuplicates(z, s[1..]);
      assert s[0] !in multiset(rest);
      ConsNoDuplicates(s[0], rest);
    }
  }

  /** Sorting never introduces duplicates. */
  lemma {:induction false} SortKeepsNoDuplicates(s: seq<Zone>)
    requires NoDuplicates(s)
    ensures NoDuplicates(SortByPriority(s))
  {
    if s != [] {
      assert NoDuplicates(s[1..]);
      SortKeepsNoDuplicates(s[1..]);
      var t := SortByPriority(s[1..]);
      assert s[0] !in s[1..];
      assert forall x :: x in t <==> x in multiset(t);
      assert s[0] !in multiset(s[1..]);
      InsertKeepsNoDuplicates(s[0], t);
    }
  }
}
