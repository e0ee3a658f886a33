/**
 * The Redis-backed cache (AddressCacheService.java). Redis is a map from key to stored
 * document and time-to-live; Jackson (de)serialisation is the identity on `Json` values; an
 * unreachable Redis is the `available` flag, and every failure is swallowed as the source does.
 */
module AddressCache {
  import opened Options
  import opened JavaStrings
  import opened Responses

  /**
   * A stored JSON document: a serialised eligibility response, a serialised map of address
   * components, or text that parses as neither.
   */
  datatype Json =
    | ResponseDoc(response: AddressEligibilityResponse)
    | ComponentsDoc(components: map<string, string>)
    | Malformed(text: string)

  /** A Redis value with the expiry it was last given, in seconds. */
  datatype Entry = Entry(value: Json, ttl: int)

  /** `CacheStats`: the number of eligibility keys and the whole database's size, if known. */
  datatype CacheStats = CacheStats(eligibilityEntries: nat, totalDbSize: Option<nat>)

  const EligibilityPrefix := "eligibility:"
  const LookupPrefix := "address:lookup:"

  /** `eligibility.rules.cache-duration` when the property is not set. */
  const DefaultCacheDurationSeconds := 3600

  /** Redis's answer to a TTL query on a key that does not exist. */
  const MissingKeyTtl := -2

  /** What `getCacheTTL` answers when Redis cannot be reached. */
  const FailedTtl := -1

  function EligibilityKey(key: string): (k: string)
    ensures StartsWith(k, EligibilityPrefix)
  {
    EligibilityPrefix + key
  }

  function LookupKey(address: string): (k: string)
    ensures StartsWith(k, LookupPrefix) && !StartsWith(k, EligibilityPrefix)
  {
    var k := LookupPrefix + address;
    assert k[0] == 'a';
    k
  }

  /** The two namespaces never share a key. */
  lemma NamespacesAreDisjoint(key: string, address: string)
    ensures EligibilityKey(key) != LookupKey(address)
  {
    assert EligibilityKey(key)[0] != LookupKey(address)[0];
  }

  /** Distinct cache keys are stored under distinct Redis keys. */
  lemma EligibilityKeyIsInjective(key1: string, key2: string)
    requires EligibilityKey(key1) == EligibilityKey(key2)
    ensures key1 == key2
  {
    assert key1 == EligibilityKey(key1)[|EligibilityPrefix|..];
    assert key2 == EligibilityKey(key2)[|EligibilityPrefix|..];
  }

  /** The response stored for `key`, when the stored document parses as one. */
  function ReadEligibility(store: map<string, Entry>, key: string): Option<AddressEligibilityResponse> {
    var k := EligibilityKey(key);
    if k in store && store[k].value.ResponseDoc? then Some(store[k].value.response) else None
  }

  /** The raw document stored for an address lookup. */
  function ReadLookup(store: map<string, Entry>, address: string): Option<Json> {
    var k := LookupKey(address);
    if k in store then Some(store[k].value) else None
  }

  /** The keys `keys("eligibility:*")` returns. */
  function EligibilityKeys(store: map<string, Entry>): (keys: set<string>)
    ensures forall k :: k in keys <==> k in store && StartsWith(k, EligibilityPrefix)
  {
    set k | k in store && StartsWith(k, EligibilityPrefix)
  }

  /** The store after `delete(keys("eligibility:*"))`. */
  function WithoutEligibility(store: map<string, Entry>): (r: map<string, Entry>)
    ensures forall k :: k in r <==> k in store && !StartsWith(k, EligibilityPrefix)
    ensures forall k :: k in r ==> r[k] == store[k]
  {
    map k | k in store && !StartsWith(k, EligibilityPrefix) :: store[k]
  }

  // ---------------------------------------------------------------------------------------
  // Properties of the store operations
  // ---------------------------------------------------------------------------------------

  /** Reading an eligibility entry right after writing it gives back the response. */
  lemma ReadAfterCacheEligibility(store: map<string, Entry>, key: string,
                                  response: AddressEligibilityResponse, ttl: int)
    ensures ReadEligibility(store[EligibilityKey(key) := Entry(ResponseDoc(response), ttl)], key)
         == Some(response)
  {
  }

  /** Reading a lookup entry right after writing it gives back the document. */
  lemma ReadAfterSet(store: map<string, Entry>, address: string, value: Json, ttl: int)
    ensures ReadLookup(store[LookupKey(address) := Entry(value, ttl)], address) == Some(value)
  {
  }

  /** An eligibility write leaves every lookup read unchanged. */
  lemma CacheEligibilityKeepsLookups(store: map<string, Entry>, key: string, e: Entry,
                                     address: string)
    ensures ReadLookup(store[EligibilityKey(key) := e], address) == ReadLookup(store, address)
  {
    NamespacesAreDisjoint(key, address);
  }

  /** A lookup write leaves every eligibility read unchanged. */
  lemma SetKeepsEligibility(store: map<string, Entry>, address: string, e: Entry, key: string)
    ensures ReadEligibility(store[LookupKey(address) := e], key) == ReadEligibility(store, key)
  {
    NamespacesAreDisjoint(key, address);
  }

  /** Eviction forgets exactly the evicted key. */
  lemma EvictForgetsOnlyThatKey(store: map<string, Entry>, key: string, other: string)
    ensures ReadEligibility(store - {EligibilityKey(key)}, key).None?
    ensures other != key ==>
      ReadEligibility(store - {EligibilityKey(key)}, other) == ReadEligibility(store, other)
    ensures forall a :: ReadLookup(store - {EligibilityKey(key)}, a) == ReadLookup(store, a)
  {
    if other != key && EligibilityKey(other) == EligibilityKey(key) {
      EligibilityKeyIsInjective(other, key);
    }
    forall a ensures ReadLookup(store - {EligibilityKey(key)}, a) == ReadLookup(store, a) {
      NamespacesAreDisjoint(key, a);
    }
  }

  /** Clearing forgets every eligibility entry and keeps every lookup entry. */
  lemma ClearKeepsLookups(store: map<string, Entry>, key: string, address: string)
    ensures ReadEligibility(WithoutEligibility(store), key).None?
    ensures ReadLookup(WithoutEligibility(store), address) == ReadLookup(store, address)
    ensures EligibilityKeys(WithoutEligibility(store)) == {}
  {
    assert !StartsWith(LookupKey(address), EligibilityPrefix);
  }

  /** Caching a response adds one to the eligibility count unless the key was already there. */
  lemma CachingCountsNewKeysOnce(store: map<string, Entry>, key: string, e: Entry)
    ensures |EligibilityKeys(store[EligibilityKey(key) := e])|
         == |EligibilityKeys(store)| + (if EligibilityKey(key) in store then 0 else 1)
  {
    var k := EligibilityKey(key);
    if k in store {
      assert EligibilityKeys(store[k := e]) == EligibilityKeys(store);
    } else {
      assert EligibilityKeys(store[k := e]) == EligibilityKeys(store) + {k};
    }
  }

  /** The cache service over one Redis connection. */
  class AddressCacheService {
    var store: map<string, Entry>
    var available: bool
    const cacheDurationSeconds: int

    constructor (cacheDurationSeconds: int)
      ensures store == map[] && available
      ensures this.cacheDurationSeconds == cacheDurationSeconds
    {
      store := map[];
      available := true;
      this.cacheDurationSeconds := cacheDurationSeconds;
    }

    /** `get`: the raw lookup document, or empty on a miss or a failure. */
    method Get(address: string) returns (r: Option<Json>)
      ensures r == (if available then ReadLookup(store, address) else None)
    {
      if !available {
        return None;
      }
      r := ReadLookup(store, address);
    }

    /**
     * Whether a write takes effect: Redis must be reachable and must accept the configured
     * expiry, which it refuses when it is not positive (the error is swallowed).
     */
    predicate WriteSucceeds(available: bool) {
      available && cacheDurationSeconds > 0
    }

    /** `set`: stores the document with the configured TTL; a no-op on failure. */
    method Set(address: string, value: Json)
      modifies this
      ensures available == old(available)
      ensures store == if WriteSucceeds(available)
                       then old(store)[LookupKey(address) := Entry(value, cacheDurationSeconds)]
                       else old(store)
    {
      if WriteSucceeds(available) {
        store := store[LookupKey(address) := Entry(value, cacheDurationSeconds)];
      }
    }

    /** `getCachedEligibility`: the stored response, or empty on a miss, a parse error or a failure. */
    method GetCachedEligibility(key: string) returns (r: Option<AddressEligibilityResponse>)
      ensures r == (if available then ReadEligibility(store, key) else None)
    {
      if !available {
        return None;
      }
      var k := EligibilityKey(key);
      if k in store && store[k].value.ResponseDoc? {
        r := Some(store[k].value.response);
      } else {
        r := None;
      }
    }

    /** `cacheEligibility`: stores the response with the configured TTL; a no-op on failure. */
    method CacheEligibility(key: string, response: AddressEligibilityResponse)
      modifies this
      ensures available == old(available)
      ensures store == if WriteSucceeds(available)
                       then old(store)[EligibilityKey(key) := Entry(ResponseDoc(response), cacheDurationSeconds)]
                       else old(store)
    {
      if WriteSucceeds(available) {
        store := store[EligibilityKey(key) := Entry(ResponseDoc(response), cacheDurationSeconds)];
      }
    }

    /** `evictCache`: deletes the one eligibility key; a no-op on failure. */
    method EvictCache(key: string)
      modifies this
      ensures available == old(available)
      ensures store == if available then old(store) - {EligibilityKey(key)} else old(store)
    {
      if available {
        store := store - {EligibilityKey(key)};
      }
    }

    /** `clearAllCache`: deletes every eligibility key; a no-op on failure. */
    method ClearAllCache()
      modifies this
      ensures available == old(available)
      ensures store == if available then WithoutEligibility(old(store)) else old(store)
    {
      if available {
        store := WithoutEligibility(store);
      }
    }

    /** `isCached`: whether the eligibility key exists; false on failure. */
    method IsCached(key: string) returns (r: bool)
      ensures r <==> available && EligibilityKey(key) in store
    {
      r := available && EligibilityKey(key) in store;
    }

    /** `getCacheTTL`: the key's TTL, Redis's -2 for a missing key, or -1 on failure. */
    method GetCacheTtl(key: string) returns (r: int)
      ensures !available ==> r == FailedTtl
      ensures available && EligibilityKey(key) !in store ==> r == MissingKeyTtl
      ensures available && EligibilityKey(key) in store ==> r == store[EligibilityKey(key)].ttl
    {
      if !available {
        return FailedTtl;
      }
      var k := EligibilityKey(key);
      if k !in store {
        return MissingKeyTtl;
      }
      r := store[k].ttl;
    }

    /**
     * `updateCacheTTL`: true exactly when the key existed; Redis deletes a key given a
     * non-positive expiry. False and no change on failure.
     */
    method UpdateCacheTtl(key: string, seconds: int) returns (r: bool)
      modifies this
      ensures available == old(available)
      ensures r <==> available && EligibilityKey(key) in old(store)
      ensures store == if !r then old(store)
                       else if seconds > 0
                       then old(store)[EligibilityKey(key) := Entry(old(store)[EligibilityKey(key)].value, seconds)]
                       else old(store) - {EligibilityKey(key)}
    {
      var k := EligibilityKey(key);
      if !available || k !in store {
        return false;
      }
      if seconds > 0 {
        store := store[k := Entry(store[k].value, seconds)];
      } else {
        store := store - {k};
      }
      r := true;
    }

    /** `getCacheStats`: the eligibility-key count and the database size; (0, null) on failure. */
    method GetCacheStats() returns (r: CacheStats)
      ensures available ==> r == CacheStats(|EligibilityKeys(store)|, Some(|store|))
      ensures !available ==> r == CacheStats(0, None)
    {
      if !available {
        return CacheStats(0, None);
      }
      r := CacheStats(|EligibilityKeys(store)|, Some(|store|));
    }
  }
}
