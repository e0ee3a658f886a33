# LocationServiceMaster address eligibility, modelled in Dafny

LocationServiceMaster answers one question: may an address be served? This project models
the core of the service and proves properties about it.

## What is modelled

- **Rule engine** (`RuleEngine`). It de-duplicates the matched zones and sorts them by priority
  (`Zones`, `Seqs`). Each zone gets a type score, weighted by priority. The confidence is the
  clamped mean of the average and the maximum score, and it is compared with the threshold. A
  reason is then written. `CalculateConfidenceScore` is the accumulator loop, proved against
  the `Confidence` function.
- **Result** (`EligibilityResults`). The immutable verdict, holding the names of the matched zones.
- **Request** (`EligibilityRequests`). The builder defaults and the validation constraints.
- **Zone table** (`ZoneRepository`). Each query is a filter over a table of zones, held as a
  `seq<Zone>`. `ZoneTable.DeleteByIsActive` changes the table in place.
- **Address table** (`Addresses`). The exact-match, verdict, existence and coordinate-range queries.
- **Two-namespace cache** (`AddressCache`). `AddressCacheService` is a class over a Redis-like
  map whose entries carry a TTL.
  - Eligibility answers live under `eligibility:`. Lookups live under `address:lookup:`.
  - A store failure is modelled by the flag `available`. When the store is unavailable, reads
    come back empty, false or -1, and writes do nothing.
- **Address lookup** (`AddressLookup`).
  - The lookup goes to the cache first, then to the source. It caches what it finds.
  - The source is a fixtures map or a geocoder.
  - `FormatResult` folds the geocoder's components into a flat map. It is a loop proved
    against `FormattedResult`.
- **Orchestrating service** (`EligibilityService`). `AddressEligibilityService.CheckEligibility`
  tries these steps in order:
  1. the eligibility cache;
  2. the preloaded (YAML fixture) address;
  3. a stored verdict;
  4. the candidate zones, then the rule engine, then saving the address and caching the answer.

  The whole pipeline is also the function `Check`, and the lemmas reason on `Check`.
- **Region directory** (`RegionsConfig`, `RegionEligibility`, `PropertyEligibility`). Lookups go
  state → county → city, with key normalisation. The 50-entry state abbreviation table is split
  by the first letter of the code.
- **API-token gate** (`ApiTokenFilter`). It extracts the token, then answers 401 or 403, or lets
  the request through. Public prefixes skip the gate.

Where the code and its documentation disagree, the model follows the code:
- The eligibility cache key is lower-cased but not trimmed (`CacheKey`).
- A verdict found in the address table is reported with `cacheHit = true`, and it is not
  written to the cache (`StoredVerdictIsReportedAsCacheHit`).
- `getCacheTTL`'s comment swaps the Redis sentinels. The model follows Redis: -2 for a missing key.

## Model

Source paths are relative to the repository root.

| member | source | states |
|---|---|---|
| RuleEngine.MaxScore | src/main/java/com/locationservicemaster/service/rule/EligibilityRuleEngine.java:62-102 | the running maximum starts at 0 and is never negative |
| RuleEngine.MaxScoreIsMaximum | src/main/java/com/locationservicemaster/service/rule/EligibilityRuleEngine.java:99-102 | the maximum bounds every zone's weighted score and is either 0 or attained by some zone |
| RuleEngine.Clamp | src/main/java/com/locationservicemaster/service/rule/EligibilityRuleEngine.java:112 | `min(1, max(0, x))` lies in [0, 1], is x inside that range, and is the nearer bound outside it |
| RuleEngine.Confidence | src/main/java/com/locationservicemaster/service/rule/EligibilityRuleEngine.java:56-113 | the confidence always lies in [0, 1] and is 0 for no zones |
| RuleEngine.CalculateConfidenceScore | src/main/java/com/locationservicemaster/service/rule/EligibilityRuleEngine.java:56-113 | the loop with its sum and max accumulators computes exactly `Confidence`, hence a value in [0, 1] |
| RuleEngine.Hundredths | src/main/java/com/locationservicemaster/service/rule/EligibilityRuleEngine.java:129-133 | `%.2f` rounds to the nearest hundredth, half up |
| RuleEngine.TwoDecimals | src/main/java/com/locationservicemaster/service/rule/EligibilityRuleEngine.java:129-133 | the printed figure has at least one integer digit, a point and two decimals |
| RuleEngine.TwoDecimalsRoundTrip | src/main/java/com/locationservicemaster/service/rule/EligibilityRuleEngine.java:129-133 | reading the printed percentage back gives the number of hundredths that was printed |
| RuleEngine.Evaluate | src/main/java/com/locationservicemaster/service/rule/EligibilityRuleEngine.java:23-54 | `evaluate` returns the result the specification function `Evaluation` describes |
| RuleEngine.RulesDisabledAlwaysEligible | src/main/java/com/locationservicemaster/service/rule/EligibilityRuleEngine.java:26-29 | with rules off: eligible, confidence 1.0, the fixed reason, and the input zones' names without de-duplication |
| RuleEngine.NoZonesNotEligible | src/main/java/com/locationservicemaster/service/rule/EligibilityRuleEngine.java:32-35 | with rules on and no zones: ineligible, confidence 0.0, the "not in any eligible service area" reason, no names |
| RuleEngine.UniqueZonesOrder | src/main/java/com/locationservicemaster/service/rule/EligibilityRuleEngine.java:38-41 | distinct-then-sort keeps exactly the input zones, once each, highest priority first, equal priorities in first-occurrence order |
| RuleEngine.MatchedNamesFollowPriority | src/main/java/com/locationservicemaster/service/rule/EligibilityRuleEngine.java:38-53 | the result's names are those of the de-duplicated, sorted zones, and the confidence is computed over them |
| RuleEngine.EvaluationReason | src/main/java/com/locationservicemaster/service/rule/EligibilityRuleEngine.java:122-134 | the reason is `generateReason` applied to the verdict, the sorted zones and the confidence |
| RuleEngine.EligibleIffThresholdMet | src/main/java/com/locationservicemaster/service/rule/EligibilityRuleEngine.java:47 | eligible exactly when confidence ≥ `minConfidenceScore` |
| RuleEngine.RaisingThresholdNeverAdmits | src/main/java/com/locationservicemaster/service/rule/EligibilityRuleEngine.java:47 | an address eligible under a higher threshold is eligible under any lower one |
| RuleEngine.RepeatedZoneChangesNothing | src/main/java/com/locationservicemaster/service/rule/EligibilityRuleEngine.java:38-41 | with rules on, appending a zone already in the input leaves the whole result unchanged |
| RuleEngine.PrimaryZoneHasTopPriority | src/main/java/com/locationservicemaster/service/rule/EligibilityRuleEngine.java:38-41 | the first sorted zone is an input zone whose priority is at least every input zone's |
| RuleEngine.ReasonNamesPrimaryZone | src/main/java/com/locationservicemaster/service/rule/EligibilityRuleEngine.java:127-130 | an eligible reason names the highest-priority zone and quotes the confidence |
| RuleEngine.IneligibleReasonQuotesThreshold | src/main/java/com/locationservicemaster/service/rule/EligibilityRuleEngine.java:131-133 | an ineligible reason quotes the confidence and the required threshold |
| RuleEngine.ScoreSumAppend | src/main/java/com/locationservicemaster/service/rule/EligibilityRuleEngine.java:104 | the score sum over a concatenation is the sum of the two sums |
| RuleEngine.ScoreSumPermutation | src/main/java/com/locationservicemaster/service/rule/EligibilityRuleEngine.java:104 | the score sum does not depend on the order of the zones |
| RuleEngine.MaxScoreSameMembers | src/main/java/com/locationservicemaster/service/rule/EligibilityRuleEngine.java:99-102 | the maximum depends only on which zones are present |
| RuleEngine.ConfidenceDependsOnlyOnZoneSet | src/main/java/com/locationservicemaster/service/rule/EligibilityRuleEngine.java:38-44 | two inputs with the same zones, in any order or multiplicity, get the same confidence |
| RuleEngine.VerdictDependsOnlyOnZoneSet | src/main/java/com/locationservicemaster/service/rule/EligibilityRuleEngine.java:38-47 | with rules on, the verdict and confidence depend only on the set of matched zones |
| RuleEngine.ScoreSumNonNegative | src/main/java/com/locationservicemaster/service/rule/EligibilityRuleEngine.java:97-104 | with non-negative priorities the score sum is non-negative |
| RuleEngine.MatchingZipZoneConfidence | src/main/java/com/locationservicemaster/service/rule/EligibilityRuleEngine.java:69-112 | a matching ZIP zone (non-negative priorities) lifts the confidence to at least 0.5 |
| RuleEngine.MatchingZipZoneIsEligible | src/main/java/com/locationservicemaster/service/rule/EligibilityRuleEngine.java:47-73 | with a threshold of at most 0.5, a matching ZIP zone makes the address eligible |
| RuleEngine.SingleHighPriorityZipZone | src/main/java/com/locationservicemaster/service/rule/EligibilityRuleEngine.java:97-112 | one matching ZIP zone of priority 15 scores 2.5, is clamped to confidence 1.0 and is eligible under the default threshold |
| EligibilityResults.ZoneNames | src/main/java/com/locationservicemaster/dto/EligibilityResult.java:22-24 | one name per zone, in the zones' order |
| EligibilityResults.NewResult | src/main/java/com/locationservicemaster/dto/EligibilityResult.java:19-26 | the constructor keeps the verdict, reason and score and maps each zone to its name |
| EligibilityResults.ZoneNamesAppend | src/main/java/com/locationservicemaster/dto/EligibilityResult.java:22-24 | mapping to names commutes with concatenation |
| Zones.InsertByPriority | src/main/java/com/locationservicemaster/service/rule/EligibilityRuleEngine.java:40 | inserting into a priority-sorted list keeps it sorted and adds exactly that zone |
| Zones.SortByPriority | src/main/java/com/locationservicemaster/service/rule/EligibilityRuleEngine.java:40 | the sort yields a priority-descending permutation of its input |
| Zones.InsertIsStable | src/main/java/com/locationservicemaster/service/rule/EligibilityRuleEngine.java:40 | insertion places a zone after the zones of equal priority already there |
| Zones.SortIsStable | src/main/java/com/locationservicemaster/service/rule/EligibilityRuleEngine.java:40 | the sort is stable: zones of equal priority keep their input order |
| Zones.SortKeepsMembers | src/main/java/com/locationservicemaster/service/rule/EligibilityRuleEngine.java:40 | sorting neither adds nor drops a zone |
| Zones.SortKeepsNoDuplicates | src/main/java/com/locationservicemaster/service/rule/EligibilityRuleEngine.java:39-40 | sorting a duplicate-free list leaves it duplicate-free |
| Seqs.Distinct | src/main/java/com/locationservicemaster/service/rule/EligibilityRuleEngine.java:39 | `distinct()` keeps every element once, and only elements of the input |
| Seqs.DistinctAppendPresent | src/main/java/com/locationservicemaster/service/rule/EligibilityRuleEngine.java:39 | appending an element already present does not change `distinct()` |
| Seqs.DistinctAppendNew | src/main/java/com/locationservicemaster/service/rule/EligibilityRuleEngine.java:39 | appending an element not yet present appends it to `distinct()`: first occurrences keep their order |
| Seqs.DistinctIsIdempotent | src/main/java/com/locationservicemaster/service/rule/EligibilityRuleEngine.java:39 | `distinct()` of a distinct list is the list itself |
| EligibilityRequests.Build | src/main/java/com/locationservicemaster/dto/AddressEligibilityRequest.java:37-53 | the builder's defaults: country "USA", no coordinate check, reason included, no second line or coordinates |
| EligibilityRequests.ZipShape | src/main/java/com/locationservicemaster/dto/AddressEligibilityRequest.java:33 | the ZIP pattern accepts exactly five digits, or five digits, a dash and four digits |
| EligibilityRequests.ValidZipLength | src/main/java/com/locationservicemaster/dto/AddressEligibilityRequest.java:32-33 | a valid request's ZIP has 5 or 10 characters |
| EligibilityRequests.ControllerRequestIsNotValid | src/main/java/com/locationservicemaster/controller/AddressEligibilityController.java:58-63 | the request the eligibility endpoint builds (empty city and state) fails the `@NotBlank` constraints |
| ZoneRepository.Select | src/main/java/com/locationservicemaster/repository/EligibilityZoneRepository.java:17-132 | a query returns exactly the table rows that satisfy its condition |
| ZoneRepository.SelectAppend | src/main/java/com/locationservicemaster/repository/EligibilityZoneRepository.java:17-132 | filtering distributes over concatenating tables |
| ZoneRepository.FindByIsActiveTrue | src/main/java/com/locationservicemaster/repository/EligibilityZoneRepository.java:23 | exactly the active zones |
| ZoneRepository.FindByZoneName | src/main/java/com/locationservicemaster/repository/EligibilityZoneRepository.java:30 | a zone with that name if one exists, otherwise nothing |
| ZoneRepository.FindActiveZonesByZipCode | src/main/java/com/locationservicemaster/repository/EligibilityZoneRepository.java:37-40 | exactly the active zones listing the ZIP, each once (DISTINCT) |
| ZoneRepository.FindActiveZonesByCityAndState | src/main/java/com/locationservicemaster/repository/EligibilityZoneRepository.java:48-54 | exactly the active zones listing both the city and the state, each once |
| ZoneRepository.FindActiveZonesByCoordinates | src/main/java/com/locationservicemaster/repository/EligibilityZoneRepository.java:62-67 | exactly the active zones with all four bounds whose box contains the point, bounds included |
| ZoneRepository.FindAllActiveOrderByPriority | src/main/java/com/locationservicemaster/repository/EligibilityZoneRepository.java:73-75 | the active zones, highest priority first |
| ZoneRepository.FindByZoneType | src/main/java/com/locationservicemaster/repository/EligibilityZoneRepository.java:82 | exactly the zones of that type |
| ZoneRepository.FindByZoneTypeAndIsActive | src/main/java/com/locationservicemaster/repository/EligibilityZoneRepository.java:90-92 | exactly the zones of that type and activity |
| ZoneRepository.CountByIsActiveTrue | src/main/java/com/locationservicemaster/repository/EligibilityZoneRepository.java:98 | the count never exceeds the table size |
| ZoneRepository.FindActiveZonesByState | src/main/java/com/locationservicemaster/repository/EligibilityZoneRepository.java:112-115 | exactly the active zones listing the state, each once |
| ZoneRepository.FindActiveZonesByCity | src/main/java/com/locationservicemaster/repository/EligibilityZoneRepository.java:122-125 | exactly the active zones listing the city, each once |
| ZoneRepository.CountIsSizeOfActive | src/main/java/com/locationservicemaster/repository/EligibilityZoneRepository.java:98 | the active count is the size of the active-zone query |
| ZoneRepository.ExistsIffFound | src/main/java/com/locationservicemaster/repository/EligibilityZoneRepository.java:105 | `existsByZoneName` holds exactly when `findByZoneName` finds a zone |
| ZoneRepository.StatelessZoneNeverMatchesCityAndState | src/main/java/com/locationservicemaster/repository/EligibilityZoneRepository.java:48-51 | the inner join never matches a zone with no states |
| ZoneRepository.UnboundedZoneNeverMatchesCoordinates | src/main/java/com/locationservicemaster/repository/EligibilityZoneRepository.java:62-64 | a zone missing any bound never matches a point |
| ZoneRepository.PriorityOrderKeepsActiveZones | src/main/java/com/locationservicemaster/repository/EligibilityZoneRepository.java:73-75 | the ordered query holds exactly the active zones |
| ZoneRepository.ActiveSplitsTable | src/main/java/com/locationservicemaster/repository/EligibilityZoneRepository.java:132 | the rows with and without a given activity partition the table |
| ZoneRepository.ZoneTable.DeleteByIsActive | src/main/java/com/locationservicemaster/repository/EligibilityZoneRepository.java:132 | removes exactly the rows with that activity, keeps the rest in order, and returns how many it removed |
| Addresses.Select | src/main/java/com/locationservicemaster/repository/AddressRepository.java:18-32 | a query returns exactly the rows satisfying its condition |
| Addresses.IndexOfLocation | src/main/java/com/locationservicemaster/repository/AddressRepository.java:15-16 | the first row at exactly that street, city, state and ZIP, or none when no row matches |
| Addresses.FindByStreetAddressAndCityAndStateAndZipCode | src/main/java/com/locationservicemaster/repository/AddressRepository.java:15-16 | a row with exactly those four fields, and nothing exactly when no row matches |
| Addresses.FindByZipCode | src/main/java/com/locationservicemaster/repository/AddressRepository.java:18 | exactly the rows with that ZIP |
| Addresses.FindByCityAndState | src/main/java/com/locationservicemaster/repository/AddressRepository.java:20 | exactly the rows with that city and state |
| Addresses.FindByEligibility | src/main/java/com/locationservicemaster/repository/AddressRepository.java:22-23 | exactly the rows whose stored verdict equals the argument (a null verdict never matches) |
| Addresses.FindByCoordinatesRange | src/main/java/com/locationservicemaster/repository/AddressRepository.java:25-32 | exactly the rows with both coordinates inside the range, bounds included |
| Addresses.ExistsCheckedAndLookup | src/main/java/com/locationservicemaster/repository/AddressRepository.java:15-44 | a checked row at a location means the exact lookup finds a row there; a found row that carries a verdict means a checked row exists |
| Addresses.VerdictQueriesAreDisjoint | src/main/java/com/locationservicemaster/repository/AddressRepository.java:22-23 | no row is both eligible and ineligible, and an unchecked row is in neither list |
| AddressCache.EligibilityKey | src/main/java/com/locationservicemaster/service/AddressCacheService.java:30-88 | eligibility keys carry the `eligibility:` prefix |
| AddressCache.LookupKey | src/main/java/com/locationservicemaster/service/AddressCacheService.java:31-45 | lookup keys carry `address:lookup:` and never the eligibility prefix |
| AddressCache.NamespacesAreDisjoint | src/main/java/com/locationservicemaster/service/AddressCacheService.java:30-31 | no eligibility key equals a lookup key |
| AddressCache.EligibilityKeyIsInjective | src/main/java/com/locationservicemaster/service/AddressCacheService.java:88 | distinct keys get distinct Redis keys |
| AddressCache.EligibilityKeys | src/main/java/com/locationservicemaster/service/AddressCacheService.java:156 | `keys("eligibility:*")` is exactly the stored keys with that prefix |
| AddressCache.WithoutEligibility | src/main/java/com/locationservicemaster/service/AddressCacheService.java:154-166 | clearing drops exactly the eligibility keys and keeps every other entry unchanged |
| AddressCache.ReadAfterCacheEligibility | src/main/java/com/locationservicemaster/service/AddressCacheService.java:86-135 | reading an eligibility answer after caching it gives the answer back |
| AddressCache.ReadAfterSet | src/main/java/com/locationservicemaster/service/AddressCacheService.java:43-79 | `get(a)` after `set(a, v)` gives v |
| AddressCache.CacheEligibilityKeepsLookups | src/main/java/com/locationservicemaster/service/AddressCacheService.java:116-135 | caching an answer changes no lookup entry |
| AddressCache.SetKeepsEligibility | src/main/java/com/locationservicemaster/service/AddressCacheService.java:66-79 | storing a lookup changes no eligibility answer |
| AddressCache.EvictForgetsOnlyThatKey | src/main/java/com/locationservicemaster/service/AddressCacheService.java:141-149 | eviction removes that answer and no other answer or lookup |
| AddressCache.ClearKeepsLookups | src/main/java/com/locationservicemaster/service/AddressCacheService.java:154-166 | clearing removes every answer and keeps every lookup |
| AddressCache.CachingCountsNewKeysOnce | src/main/java/com/locationservicemaster/service/AddressCacheService.java:116-135 | caching adds one to the entry count for a new key and nothing for an existing one |
| AddressCache.AddressCacheService.Get | src/main/java/com/locationservicemaster/service/AddressCacheService.java:43-59 | the lookup entry if the store is reachable, else empty |
| AddressCache.AddressCacheService.Set | src/main/java/com/locationservicemaster/service/AddressCacheService.java:66-79 | writes the lookup entry with the configured TTL when Redis is reachable and the TTL is positive; otherwise (Redis refuses a non-positive expiry and the error is swallowed) changes nothing |
| AddressCache.AddressCacheService.GetCachedEligibility | src/main/java/com/locationservicemaster/service/AddressCacheService.java:86-109 | the stored answer if reachable and well-formed, else empty |
| AddressCache.AddressCacheService.CacheEligibility | src/main/java/com/locationservicemaster/service/AddressCacheService.java:116-135 | writes the answer with the configured TTL when Redis is reachable and the TTL is positive; otherwise changes nothing |
| AddressCache.AddressCacheService.EvictCache | src/main/java/com/locationservicemaster/service/AddressCacheService.java:141-149 | deletes that key when reachable |
| AddressCache.AddressCacheService.ClearAllCache | src/main/java/com/locationservicemaster/service/AddressCacheService.java:154-166 | deletes every eligibility key when reachable |
| AddressCache.AddressCacheService.IsCached | src/main/java/com/locationservicemaster/service/AddressCacheService.java:173-181 | true exactly when reachable and the key is stored |
| AddressCache.AddressCacheService.GetCacheTtl | src/main/java/com/locationservicemaster/service/AddressCacheService.java:188-196 | the stored TTL, -2 for a missing key, -1 when the store fails |
| AddressCache.AddressCacheService.UpdateCacheTtl | src/main/java/com/locationservicemaster/service/AddressCacheService.java:204-214 | succeeds exactly for a stored key on a reachable store; a positive TTL is set, a non-positive one deletes the key |
| AddressCache.AddressCacheService.GetCacheStats | src/main/java/com/locationservicemaster/service/AddressCacheService.java:220-241 | the eligibility key count and database size, or (0, null) on failure |
| AddressLookup.FormatResult | src/main/java/com/locationservicemaster/service/AddressLookupService.java:116-173 | the component loop builds exactly `FormattedResult` |
| AddressLookup.ComponentHashHoldsLastOfType | src/main/java/com/locationservicemaster/service/AddressLookupService.java:128-165 | each mapped key is present exactly when a component of its type exists, and holds the last such component's name (county without " County") |
| AddressLookup.ComponentHashKeys | src/main/java/com/locationservicemaster/service/AddressLookupService.java:139-164 | the fold writes only city, county, state, country and zip |
| AddressLookup.StreetPresentIffStreetPart | src/main/java/com/locationservicemaster/service/AddressLookupService.java:140-170 | "street" is written exactly when some component is a street number or route |
| AddressLookup.StreetJoinsNumberAndRoute | src/main/java/com/locationservicemaster/service/AddressLookupService.java:168-170 | number and route are joined with one space |
| AddressLookup.CountySuffixIsRemoved | src/main/java/com/locationservicemaster/service/AddressLookupService.java:152 | any county name that does not itself contain " County" (e.g. a two-word name) loses exactly its " County" suffix |
| AddressLookup.GoogleMapsResult | src/main/java/com/locationservicemaster/service/AddressLookupService.java:87-111 | a result exactly when the response has a non-empty `results`, and then it is the first result formatted |
| AddressLookup.AddressLookupService.Source | src/main/java/com/locationservicemaster/service/AddressLookupService.java:67-69 | the fixtures entry, or the geocoder's first result, as configured |
| AddressLookup.AddressLookupService.Cached | src/main/java/com/locationservicemaster/service/AddressLookupService.java:52-64 | a cached map exactly when the store is reachable and holds a well-formed component map |
| AddressLookup.AddressLookupService.LookupResult | src/main/java/com/locationservicemaster/service/AddressLookupService.java:46-75 | empty for a null or blank address; a usable cached map is returned as is; otherwise the source's answer (geocoder or fixtures) |
| AddressLookup.AddressLookupService.StoreAfterLookup | src/main/java/com/locationservicemaster/service/AddressLookupService.java:46-75 | blank input, a cache hit, a miss at the source or a refused write leave the store unchanged; any change is the found map under the address's lookup key, every other key kept |
| AddressLookup.AddressLookupService.Lookup | src/main/java/com/locationservicemaster/service/AddressLookupService.java:46-75 | returns `LookupResult` and leaves the store as `StoreAfterLookup` |
| AddressLookup.AddressLookupService.LookupKeepsEligibility | src/main/java/com/locationservicemaster/service/AddressLookupService.java:178-186 | a lookup never changes a cached eligibility answer |
| AddressLookup.AddressLookupService.LookupIsStable | src/main/java/com/locationservicemaster/service/AddressLookupService.java:46-75 | looking the same address up again gives the same answer |
| AddressLookup.CachedResultIsHitNextTime | src/main/java/com/locationservicemaster/service/AddressLookupService.java:178-186 | a cached result is read back unchanged |
| EligibilityService.CacheKey | src/main/java/com/locationservicemaster/service/AddressEligibilityService.java:277-283 | the key is lower case and as long as the four fields and three colons |
| EligibilityService.CacheKeyParts | src/main/java/com/locationservicemaster/service/AddressEligibilityService.java:277-283 | the key is the four lower-cased fields joined by ':' |
| EligibilityService.CacheKeyIgnoresCase | src/main/java/com/locationservicemaster/service/AddressEligibilityService.java:277-283 | requests differing only in letter case share a key |
| EligibilityService.CacheKeyCollides | src/main/java/com/locationservicemaster/service/AddressEligibilityService.java:277-283 | different requests whose fields contain ':' can share a key |
| EligibilityService.GetOrDefault | src/main/java/com/locationservicemaster/service/AddressEligibilityService.java:117-157 | `getOrDefault`: the mapped value, else the default |
| EligibilityService.RegionReasonTellsVerdict | src/main/java/com/locationservicemaster/service/AddressEligibilityService.java:128-132 | the preloaded reason starts "Address is in eligible" exactly when eligible |
| EligibilityService.FormatYamlAddress | src/main/java/com/locationservicemaster/service/AddressEligibilityService.java:152-163 | the formatted address starts with the street |
| EligibilityService.YamlEmptyCountryIsOmitted | src/main/java/com/locationservicemaster/service/AddressEligibilityService.java:158-161 | an empty country is printed like a missing one |
| EligibilityService.YamlResponse | src/main/java/com/locationservicemaster/service/AddressEligibilityService.java:97-150 | a preloaded answer exactly when the entry has "eligible"; then the verdict is `parseBoolean`, confidence 1.0, not a cache hit, one matched zone exactly when eligible |
| EligibilityService.FormatAddress | src/main/java/com/locationservicemaster/service/AddressEligibilityService.java:262-275 | starts with the street and, without a country, ends with a space and the ZIP |
| EligibilityService.FormatAddressEmptyFields | src/main/java/com/locationservicemaster/service/AddressEligibilityService.java:265-273 | an empty second line is skipped, but an empty country still adds ", " |
| EligibilityService.BuildResponse | src/main/java/com/locationservicemaster/service/AddressEligibilityService.java:214-238 | the engine's verdict, names and score, the reason exactly when asked for, not a cache hit |
| EligibilityService.BuildResponseFromAddress | src/main/java/com/locationservicemaster/service/AddressEligibilityService.java:240-260 | the stored verdict and reason, no zones or score, the given cache flag |
| EligibilityService.CandidateZones | src/main/java/com/locationservicemaster/service/AddressEligibilityService.java:174-188 | a zone is a candidate exactly when it is active and matches the ZIP, or the city and state, or (when asked and both coordinates are given) contains the point |
| EligibilityService.FindExisting | src/main/java/com/locationservicemaster/service/AddressEligibilityService.java:165-172 | a stored row at exactly the request's location |
| EligibilityService.SavedAddress | src/main/java/com/locationservicemaster/service/AddressEligibilityService.java:195-212 | the saved row carries the engine's verdict and reason at the request's location |
| EligibilityService.SavedAddressIsFound | src/main/java/com/locationservicemaster/service/AddressEligibilityService.java:165-212 | after saving, the exact lookup finds the saved row |
| EligibilityService.SaveKeepsLocationsUnique | src/main/java/com/locationservicemaster/service/AddressEligibilityService.java:195-212 | saving updates an existing row rather than adding a second row at the same location |
| EligibilityService.SaveKeepsOtherRows | src/main/java/com/locationservicemaster/service/AddressEligibilityService.java:195-212 | rows at other locations survive a save |
| EligibilityService.AddressEligibilityService.PerformEligibilityCheck | src/main/java/com/locationservicemaster/service/AddressEligibilityService.java:174-192 | the engine's evaluation of the ZIP, city-and-state and coordinate matches, in that order |
| EligibilityService.AddressEligibilityService.SaveOrUpdateAddress | src/main/java/com/locationservicemaster/service/AddressEligibilityService.java:195-212 | the address table and id counter after saving, and the saved row |
| EligibilityService.AddressEligibilityService.CheckEligibility | src/main/java/com/locationservicemaster/service/AddressEligibilityService.java:42-92 | the response, cache, address table and id counter are those the pipeline function `Check` gives |
| EligibilityService.AddressEligibilityService.RepeatIsServedFromCache | src/main/java/com/locationservicemaster/service/AddressEligibilityService.java:48-89 | on a reachable cache with a positive TTL, asking again returns the same answer marked as a cache hit |
| EligibilityService.AddressEligibilityService.NonPositiveDurationCachesNothing | src/main/java/com/locationservicemaster/service/AddressEligibilityService.java:48-89 | with a non-positive configured TTL no eligibility entry is ever added or changed |
| EligibilityService.AddressEligibilityService.ReasonlessAnswerIsReplayed | src/main/java/com/locationservicemaster/service/AddressEligibilityService.java:48-57 | with a positive TTL, a reason-less answer is replayed from the cache to a later caller who asks for the reason |
| EligibilityService.AddressEligibilityService.RuleAnswerWithoutReason | src/main/java/com/locationservicemaster/service/AddressEligibilityService.java:79-91 | a fresh rule-engine answer without `includeReason` carries no reason and is not a cache hit |
| EligibilityService.AddressEligibilityService.StoredVerdictIsReportedAsCacheHit | src/main/java/com/locationservicemaster/service/AddressEligibilityService.java:69-76 | a stored verdict is answered with `cacheHit = true`, no zones or score, and neither cached nor re-saved |
| EligibilityService.AddressEligibilityService.VerdictIsStable | src/main/java/com/locationservicemaster/service/AddressEligibilityService.java:42-92 | asking twice gives the same verdict |
| EligibilityService.AddressEligibilityService.YamlVerdictIsStable | src/main/java/com/locationservicemaster/service/AddressEligibilityService.java:59-65 | when the preloaded data answered, asking again gives the same verdict, from the cache or the same data |
| EligibilityService.AddressEligibilityService.TableVerdictIsStable | src/main/java/com/locationservicemaster/service/AddressEligibilityService.java:67-89 | without preloaded data, asking again gives the same verdict, from the stored row or the cache |
| EligibilityService.AddressEligibilityService.RuleVerdictIsStable | src/main/java/com/locationservicemaster/service/AddressEligibilityService.java:78-89 | a rule-engine verdict is cached, or saved and found again, so asking again gives the same verdict |
| JavaStrings.Trim | src/main/java/com/locationservicemaster/service/AddressLookupService.java:47 | `trim` returns a slice of the input that is empty or starts and ends above U+0020, everything cut on either side being at or below U+0020 |
| JavaStrings.BlankIffTrimsToEmpty | src/main/java/com/locationservicemaster/service/AddressLookupService.java:47 | `trim().isEmpty()` holds exactly when every character is at or below U+0020 |
| JavaStrings.TrimIsIdempotent | src/main/java/com/locationservicemaster/config/EligibleRegionsConfig.java:175 | trimming twice is trimming once |
| JavaStrings.RemoveAll | src/main/java/com/locationservicemaster/service/AddressLookupService.java:152 | `replace(target, "")` never lengthens the text and leaves text without the target unchanged |
| JavaStrings.ParseNatRoundTrip | src/main/java/com/locationservicemaster/security/ApiTokenAuthenticationFilter.java:122 | `String.valueOf(status)` reads back as the status |
| RegionsConfig.NormalizeKey | src/main/java/com/locationservicemaster/config/EligibleRegionsConfig.java:172-184 | the key is trimmed; a two-character result is upper-cased, any other length lower-cased |
| RegionsConfig.NormalizeKeyIsIdempotent | src/main/java/com/locationservicemaster/config/EligibleRegionsConfig.java:172-184 | normalising twice is normalising once |
| RegionsConfig.NormalizeCity | src/main/java/com/locationservicemaster/config/EligibleRegionsConfig.java:189-192 | null becomes "", any city becomes lower case |
| RegionsConfig.CityEligibleImpliesInState | src/main/java/com/locationservicemaster/config/EligibleRegionsConfig.java:55-114 | a city eligible in a county is eligible in its state |
| RegionsConfig.InStateIffSomeCounty | src/main/java/com/locationservicemaster/config/EligibleRegionsConfig.java:55-114 | with normalised county keys, the state-wide check is the county check for some county |
| RegionsConfig.UnnormalisedCountyIsUnreachable | src/main/java/com/locationservicemaster/config/EligibleRegionsConfig.java:69-108 | a county key not in normal form is missed by the county check but seen by the state-wide check |
| RegionsConfig.CitiesAccessorAgreesWithCheck | src/main/java/com/locationservicemaster/config/EligibleRegionsConfig.java:119-139 | the county check is exactly a search of the list `getEligibleCitiesInCounty` returns |
| RegionsConfig.GetEligibleStates | src/main/java/com/locationservicemaster/config/EligibleRegionsConfig.java:144-149 | the configured state keys, or none |
| RegionsConfig.GetEligibleCountiesInState | src/main/java/com/locationservicemaster/config/EligibleRegionsConfig.java:154-167 | the configured county keys of the normalised state, or none |
| RegionsConfig.UnlistedStateHasNoCity | src/main/java/com/locationservicemaster/config/EligibleRegionsConfig.java:56-102 | a state without a configured key has no eligible city in any county |
| RegionEligibility.Abbreviation | src/main/java/com/locationservicemaster/service/RegionEligibilityService.java:23-79 | every mapped code has two characters and maps to a lower-case state name longer than a code |
| RegionEligibility.StateNameIsNormal | src/main/java/com/locationservicemaster/service/RegionEligibilityService.java:23-79 | a mapped name is its own lower case and its own trim |
| RegionEligibility.NormalizeState | src/main/java/com/locationservicemaster/service/RegionEligibilityService.java:172-188 | "" for null or blank; a two-character code goes through the table or stays upper case; anything else is lower-cased |
| RegionEligibility.CaliforniaCodes | src/main/java/com/locationservicemaster/service/RegionEligibilityService.java:172-188 | any text that trims to "ca", "CA", "Ca" or "cA" (so " ca " too) normalises to "california" |
| RegionEligibility.NormalizeStateIsNormal | src/main/java/com/locationservicemaster/service/RegionEligibilityService.java:172-188 | the result is "", a state name, an unmapped upper-case code, or trimmed lower-case text of another length |
| RegionEligibility.NormalStateIsFixed | src/main/java/com/locationservicemaster/service/RegionEligibilityService.java:172-188 | every such result is left unchanged by `normalizeState` and by the directory's `normalizeKey` |
| RegionEligibility.NormalizeStateIsIdempotent | src/main/java/com/locationservicemaster/service/RegionEligibilityService.java:172-188 | normalising a normalised state changes nothing |
| RegionEligibility.NormalizeKeyKeepsNormalizedState | src/main/java/com/locationservicemaster/service/RegionEligibilityService.java:180-183 | the directory's key normalisation leaves a normalised state as it is |
| RegionEligibility.IsAddressEligible | src/main/java/com/locationservicemaster/service/RegionEligibilityService.java:84-105 | false without city or state; a non-blank county uses the county check, otherwise the state-wide check, on the normalised state |
| RegionEligibility.IsAddressEligibleInState | src/main/java/com/locationservicemaster/service/RegionEligibilityService.java:110-112 | the two-argument form is the three-argument form with a null county |
| RegionEligibility.CountyNarrowsVerdict | src/main/java/com/locationservicemaster/service/RegionEligibilityService.java:84-112 | naming a county can only narrow the verdict |
| RegionEligibility.UnconfiguredStateIsNeverEligible | src/main/java/com/locationservicemaster/service/RegionEligibilityService.java:84-105 | a normalised state outside the configured keys is never eligible |
| RegionEligibility.EligibleCitiesInCounty | src/main/java/com/locationservicemaster/service/RegionEligibilityService.java:117-120 | a city is in the returned list exactly when the county check holds for it |
| RegionEligibility.EligibleStates | src/main/java/com/locationservicemaster/service/RegionEligibilityService.java:125-127 | the configured state keys |
| RegionEligibility.EligibleCountiesInState | src/main/java/com/locationservicemaster/service/RegionEligibilityService.java:132-135 | the counties of the normalised state |
| RegionEligibility.CheckEligibilityWithReason | src/main/java/com/locationservicemaster/service/RegionEligibilityService.java:140-167 | the verdict is `isAddressEligible`; the reason is the eligible text, the unconfigured-state text, or the county or no-county "not in the list" text, chosen as the source chooses |
| RegionEligibility.StateMessageIffUnconfigured | src/main/java/com/locationservicemaster/service/RegionEligibilityService.java:153-157 | the state message is given exactly when the normalised state is not a configured key |
| PropertyEligibility.CheckEligibility | src/main/java/com/locationservicemaster/service/PropertyEligibilityService.java:31-58 | "address not found" exactly for a null or empty map; otherwise "address_eligible" with the map exactly when the region verdict holds, else "address not eligible" alone; never a reason |
| PropertyEligibility.CheckEligibilityWithReason | src/main/java/com/locationservicemaster/service/PropertyEligibilityService.java:63-89 | always a reason; the fixed missing-address reason for empty input; otherwise the region check's reason, with the message and address following its verdict |
| PropertyEligibility.ReasonOnlyAddsReason | src/main/java/com/locationservicemaster/service/PropertyEligibilityService.java:31-89 | both checks give the same message and address |
| PropertyEligibility.UnconfiguredStateIsExplained | src/main/java/com/locationservicemaster/service/PropertyEligibilityService.java:41-86 | an address in an unconfigured state is not eligible and the reason blames the state |
| PropertyEligibility.OnlyRegionEntriesMatter | src/main/java/com/locationservicemaster/service/PropertyEligibilityService.java:41-46 | entries other than city, county and state never change the message |
| ApiTokenFilter.ErrorBody | src/main/java/com/locationservicemaster/security/ApiTokenAuthenticationFilter.java:115-126 | the error body holds exactly "error" (the message) and "status" (the status in decimal) |
| ApiTokenFilter.ApiTokenAuthenticationFilter.ExtractToken | src/main/java/com/locationservicemaster/security/ApiTokenAuthenticationFilter.java:93-101 | API-TOKEN when usable, otherwise HTTP_API_TOKEN; a usable token comes out exactly when either header holds one |
| ApiTokenFilter.ApiTokenAuthenticationFilter.DoFilterInternal | src/main/java/com/locationservicemaster/security/ApiTokenAuthenticationFilter.java:42-74 | security off: continue authenticated; on: 401 exactly when neither header holds a token, 403 exactly for a token outside the set, else continue authenticated |
| ApiTokenFilter.ApiTokenAuthenticationFilter.Dispatch | src/main/java/com/locationservicemaster/security/ApiTokenAuthenticationFilter.java:76-87 | a skipped request continues unauthenticated; any other goes through `doFilterInternal` |
| ApiTokenFilter.ApiTokenAuthenticationFilter.DispatchAsWritten | src/main/java/com/locationservicemaster/security/ApiTokenAuthenticationFilter.java:28-87 | the same, with the filter's public prefixes as written |
| ApiTokenFilter.SecurityOffLetsEverythingThrough | src/main/java/com/locationservicemaster/security/ApiTokenAuthenticationFilter.java:48-81 | with security off nothing is filtered and the filter would let everything through |
| ApiTokenFilter.FirstHeaderWins | src/main/java/com/locationservicemaster/security/ApiTokenAuthenticationFilter.java:94-98 | a usable but invalid API-TOKEN gives 403 whatever HTTP_API_TOKEN holds |
| ApiTokenFilter.FallbackHeaderIsAccepted | src/main/java/com/locationservicemaster/security/ApiTokenAuthenticationFilter.java:96-98 | a valid HTTP_API_TOKEN is accepted when API-TOKEN is missing or blank |
| ApiTokenFilter.PublicEndpointsNarrowTheWrittenOnes | src/main/java/com/locationservicemaster/security/ApiTokenAuthenticationFilter.java:28-86 | every path public under the declared prefixes is public under the written ones |
| ApiTokenFilter.EligibilityCheckBypassesTokenAsWritten | src/main/java/com/locationservicemaster/security/ApiTokenAuthenticationFilter.java:28-86 | as written, with security on, the eligibility endpoint skips the token check, so no request to it is authenticated |
| ApiTokenFilter.EligibilityCheckRequiresToken | src/main/java/com/locationservicemaster/config/ApiSecurityConfig.java:28 | with the declared public paths, the eligibility endpoint gets the full token check and continues exactly with a valid token |
| ApiTokenFilter.DeclaredPublicPathsSkipTheFilter | src/main/java/com/locationservicemaster/config/ApiSecurityConfig.java:28 | health, actuator, Swagger UI and API docs stay public |

## Left out

- JSON (de)serialisation is the identity through the `Json` datatype. A malformed stored value is `Malformed`, and reading it gives an empty result, as the source's catch blocks do.
- Redis expiry over time is left out. An entry keeps the TTL it was given. A non-positive configured TTL is modelled as a write Redis refuses, so nothing is cached. Connection failures are the single flag `available`, fixed for a whole call.
- The clock is left out: `processingTimeMs` and `checkedAt` are not modelled.
- The HTTP geocoder call is the function-valued field `geocode`. Reading the fixtures file is the map `fixtures`, and a failure to load it behaves like a missing entry.
- Exceptions from malformed geocoder responses are left out: a component's `long_name` is always a string, and the casts always succeed.
- Addresses.FindByStreetAddressAndCityAndStateAndZipCode: returns the first matching row. Spring Data would throw when more than one row matches.
- Database persistence is a sequence of rows with an id counter. Transactions, flushing and generated timestamps are left out.
- Scores, coordinates and thresholds are reals, not IEEE doubles. `%.2f` rounds half up on exact values.
- Zones keep their sets non-null, `isActive` as a boolean and `priority` as an integer. A null set or a null priority makes the Java engine throw, and that is not modelled.
- A COORDINATES zone with a missing bound counts as "not within". The Java engine would throw while unboxing it.
- Bean Validation is the predicate `IsValid`. Its enforcement belongs to the controller, which is not part of this model. The service accepts any request.
- Case mapping is ASCII-only. Java's `toLowerCase` and `toUpperCase` are Unicode- and locale-sensitive. This affects `EligibilityService.CacheKey`, `RegionsConfig.NormalizeKey`, `RegionsConfig.NormalizeCity`, `RegionEligibility.NormalizeState` and the `equalsIgnoreCase` checks, which agree with Java on ASCII text only.
- The request's `checkCoordinates` and `includeReason` are plain booleans. In Java they are nullable `Boolean`, and an explicit JSON null makes the service throw when it unboxes them (AddressEligibilityService.java:185 and :231).
- Header names are matched exactly. The servlet container's case-insensitive header lookup is not modelled.
- The region configuration's city lists may hold nulls (`Option`), but the state and county maps never hold a null value here. In the Java, a null county value makes `isCityEligibleInState` throw (EligibleRegionsConfig.java:105-108). `getEligibleStates` and `getEligibleCountiesInState` list a key even when its value is null, and that changes which message `checkEligibilityWithReason` picks.
- `getEligibleStates` and `getEligibleCountiesInState` return sets. The order of the Java lists is unspecified.
- RegionEligibility.Abbreviation: states the shape of the mapped names rather than all 50 pairs. The pairs are in its body and its per-letter helpers.
- Spring Security's own authorisation step after the filter, the email service, the controllers and the Redis configuration are not part of this model.

## Findings

| source | as written | input that shows it | evidently intended | confidence | as-written member | corrected member |
|---|---|---|---|---|---|---|
| src/main/java/com/locationservicemaster/security/ApiTokenAuthenticationFilter.java:28-33 | the filter's public prefixes include "/api/v1/address". With security on, `shouldNotFilter` is therefore true for every address endpoint, and the token is never checked there. | security enabled, URI "/api/v1/address/eligibility_check", any headers (with a valid token, without one, or with a wrong one) | only the health check is public, as `ApiSecurityConfig.java:28` declares ("/api/v1/address/health"). The filter's unit tests expect 401, 403 and authentication on "/api/v1/address/eligibility_check". | medium; not executed | ApiTokenFilter.EligibilityCheckBypassesTokenAsWritten | ApiTokenFilter.EligibilityCheckRequiresToken |
