# OrbitPlus: a verified model of its cache, comparison and job protocols

OrbitPlus keeps a cache of bus trips. A Master receives trip details, splits every entry into a Trip
document, a Stage document and route-index rows, and rebuilds entries on read. A Worker fetches trips
from Bits under a per-zone quota and submits them to the Master. Cold routes are refreshed from Bits,
the live answer is compared with the cached copy, and the cache is repaired. This project models those
parts in Dafny and proves what they keep.

| Modules | What they model |
|---|---|
| Text, Rational, Literals, JsonTree, Progress | blank tests, name order, quoting, reduced fractions, JSON number literals (section 6 of RFC 8259) and those no 64-bit float holds, decoded trees, lists processed up to a failure |
| Canonical, Paths, Comparison, ContentRelation, Collector, Renderings, Pairing | the cache-versus-live comparison: canonical values, difference paths, the lockstep walk, the relation it decides, the capped collector, a reader of the reported texts, pairing by identity |
| Stations, StopCodes, Documents, Storage, Submissions, ConcurrentStores, LastWriter, Overlays, EntryFields, Reader, FailedReads | what a submission asks for, split, store under failing writes and by concurrent requests, index, match and reconstruct, against a last-writer specification, with reads that fail |
| RateLimit, SharedCounter | the in-memory fixed-window limiter, and the counter script Master and Worker share |
| Delivery, SearchBusMapRun, BusMapAnswers, WorkerRoundTrip | one Worker delivery with its event trace, the searchbusmap fan-out and deep merge, and the way from its fetches to a Master read |
| LiveCopy, LiveReads, Restamping, SeatLayouts, Reverification, BusMapReverification, VerificationSlots | freshness, the read / cold refresh / verify recursion with its semaphore, the repair, why a repaired route is warm again, and when a second live read matches |
| InventoryClaims, PublishProtocol, RouteRefresh | in-flight claims under interleaving, and the periodic publish protocol with crashes, failing writes and Worker callbacks |

Code that changes things step by step is modelled by methods and classes that are proved against
specification functions; what the code promises is proved about those functions. Concurrency is
modelled by state machines whose events interleave freely.

Where the code and its own words disagree, the model follows the code:

- Two trees that "match" need not match a third: the match relation is not transitive. The exact
  relation that chains of matches generate is proved (equal normal forms).
- Numbers do not always compare by value: the rational parser refuses exponents outside 64 bits and
  powers of ten beyond a million, a case
  orbitplus/internal/application/master/cache_freshness_comparator.go:123 calls unreachable. Such
  literals compare by text, and can equal a string.
- A station code holding NUL can lose an index row: the index is exact if and only if no two wanted pairs
  read the same once joined by NUL.
- A stop list taken from `stationPoints` or `stations` is not kept by the stored stage, so an indexed pair
  can fail the read-time filter. It passes if and only if the stage decodes and its stops are kept, or the
  pair is just its two ends.
- The read-time filter (orbitplus/internal/application/master/stage_route_matcher.go:6-9) decodes a stage into plain values, which fails for a
  number no 64-bit float holds; ingestion keeps number text. Such a stage is stored, indexed and never found.
- orbitplus/internal/application/master/cold_cache_refresher.go:60 says a refresh reports true only when the cache was refreshed. It reports
  true exactly when Bits answered; the cache was repaired exactly when it could be read and the guards of the
  repair held too. A single live busmap object passes the first and fails the second.
- orbitplus/internal/application/master/cache_freshness_verifier.go:229 says a live busmap object is enriched so that the combined store has
  its key components; that store reads only lists, so a single live object is never stored.
- orbitplus/internal/application/master/cache_freshness_verifier.go:213-214 says a second live read reports a match because the first one
  fixed the cache. A repaired search does if and only if every stage that served the route before is one the
  answer carries, and every live entry comes back: its row is listed, the answer's last entry of its stage
  passes the filter, and the trip fields of the answer's last entry of its trip over those stage fields
  match it. A bus seat layout in any entry rules that out, and so do two stages of one trip whose
  trip-owned fields differ.
- The same comment covers busmap reads. One matches again if and only if some candidate stage still passes
  and every live entry is the busmap left for the first that does. A single object is never stored, so
  without a busmap of the trip every read of it is CACHE_MISSING.
- A busmap read returns the document of the first candidate stage that passes the filter, whichever stage
  of the trip that is; a stored run is read back exactly where that stage is the entry's own.
- Inventory claim keys join six fields with bars. A key stands for one route and trip if and only if no
  field has a bar without a blank beside it.
- orbitplusworker/README.md:17 says only ACCEPTED, DUPLICATE and STALE are acknowledged, and that Bits errors
  and retryable responses are not. The code acknowledges ACCEPTED as it is; every other outcome, Bits errors
  and exhausted retryable replies among them, is reported to the dead-letter endpoint and acknowledged once
  that report is delivered, and an invalid envelope is discarded by acknowledging it. DUPLICATE and STALE
  would take the same way, but the existing client never returns them
  (orbitplusworker/internal/application/worker/orbitplus.go:28-33).
- The two limiters agree only for windows of whole milliseconds.

## Model

| member | source | states |
|---|---|---|
| Rational.ReducedFormIsUnique | orbitplus/internal/application/master/cache_freshness_comparator.go:76 | a rational number has one reduced fraction, so the rendered form identifies it |
| Rational.RationalsAreTheirValues | orbitplus/internal/application/master/cache_freshness_comparator.go:33-37 | reduced fractions are equal exactly when they are the same real number |
| Literals.LiteralsCompareByValue | orbitplus/internal/application/master/cache_freshness_comparator.go:119-124 | two accepted literals parse alike exactly when they denote the same number |
| Literals.RationalTextIsInjective | orbitplus/internal/application/master/cache_freshness_comparator.go:76 | different rationals are never rendered alike |
| Text.UnquoteUndoesQuote | orbitplus/internal/application/master/cache_freshness_comparator.go:75 | quoted text is read back exactly, whatever follows it |
| Canonical.CanonicalFormIsContent | orbitplus/internal/application/master/cache_freshness_comparator.go:111-146 | canonical forms are equal if and only if the content is: no member order, no null members, numbers by value |
| Canonical.SpellingsCompareByValue | orbitplus/internal/application/master/cache_freshness_comparator.go:119-124 | two spellings compare equal exactly when both are accepted and denote one number |
| Canonical.HugeNumbersCompareByText | orbitplus/internal/application/master/cache_freshness_comparator.go:119-124 | concrete literals of equal value that compare different, one of them equal to a string |
| Canonical.RenderingsDecideScalars | orbitplus/internal/application/master/cache_freshness_comparator.go:73-92 | outside two containers of one kind, renderings are equal exactly when the values are |
| Renderings.RenderingIsRead | orbitplus/internal/application/master/cache_freshness_comparator.go:73-92 | a reader of its own recovers every value from its rendering, whatever follows that does not continue a number |
| Renderings.RenderingIsInjective | orbitplus/internal/application/master/cache_freshness_comparator.go:73-92 | two values are rendered alike only if they are equal, containers included |
| Renderings.ReportedTextSays | orbitplus/internal/application/master/cache_freshness_comparator.go:73-146 | the text reported for a decoded value reads as that value: booleans and strings as they are, numbers by value, lists and members throughout |
| Paths.ParseUndoesPrint | orbitplus/internal/application/master/cache_freshness_comparator.go:270-278 | a parser recovers every printed list of member and index steps |
| Paths.ReportedPathIsInjective | orbitplus/internal/application/master/cache_freshness_comparator.go:21-24 | distinct positions have distinct paths, and only the root is `$` |
| Comparison.WalkReportsExactlyTheClashes | orbitplus/internal/application/master/cache_freshness_comparator.go:187-254 | a finding is reported if and only if the two trees clash at its position, with the values they hold there |
| Comparison.WalkIsInOrder | orbitplus/internal/application/master/cache_freshness_comparator.go:191-254 | findings come depth first, members by name, elements by index |
| Comparison.NoPathTwice | orbitplus/internal/application/master/cache_freshness_comparator.go:191-254 | no path is reported twice in one comparison |
| ContentRelation.NoFindingsIffRelated | orbitplus/internal/application/master/cache_freshness_comparator.go:60-71 | the walk reports nothing exactly when the trees are related by the recursive content relation |
| ContentRelation.RelatedIsReflexive | orbitplus/internal/application/master/cache_freshness_comparator.go:187-254 | every tree matches itself |
| ContentRelation.RelatedIsSymmetric | orbitplus/internal/application/master/cache_freshness_comparator.go:187-254 | a match does not depend on which side is cached |
| ContentRelation.SwappingSidesSwapsValues | orbitplus/internal/application/master/cache_freshness_comparator.go:187-254 | swapping sides gives the same paths in the same order with the values swapped |
| ContentRelation.RelatedIsNotTransitive | orbitplus/internal/application/master/cache_freshness_comparator.go:60-71 | three concrete trees break transitivity |
| ContentRelation.TidyValuesRelateByNormalForm | orbitplus/internal/application/master/cache_freshness_comparator.go:60-71 | on trees with no empty member and no empty array tail, related means equal normal forms |
| ContentRelation.RelatedIsTransitiveOnTidyValues | orbitplus/internal/application/master/cache_freshness_comparator.go:60-71 | on such trees matching is an equivalence |
| ContentRelation.ChainsConnectEqualNormalForms | orbitplus/internal/application/master/cache_freshness_comparator.go:60-71 | chains of matches connect two trees exactly when their normal forms are equal |
| Collector.UnionNames | orbitplus/internal/application/master/cache_freshness_comparator.go:256-268 | the strictly sorted union of both name lists |
| Collector.DifferenceCollector.Add | orbitplus/internal/application/master/cache_freshness_comparator.go:170-185 | one more is counted; the kept list stays the first 1000 of all found |
| Collector.DifferenceCollector.Walk | orbitplus/internal/application/master/cache_freshness_comparator.go:191-254 | the collector finds exactly the uncapped walk, printed, after what it had |
| Collector.CompareEntries | orbitplus/internal/application/master/cache_freshness_comparator.go:150-162 | total is exact, the list is its first 1000, undecodable input is an error |
| Collector.MatchMeansRelated | orbitplus/internal/application/master/cache_freshness_comparator.go:150-162 | no differences exactly when the canonical trees are related |
| Collector.ComparisonDependsOnContent | orbitplus/internal/application/master/cache_freshness_comparator.go:111-145 | inputs of the same content give the same paths, values and total |
| Collector.NullMembersAreInvisible | orbitplus/internal/application/master/cache_freshness_comparator.go:129-139 | adding a null member leaves the content alone |
| Renderings.StoredValuesAreRead | orbitplus/internal/application/master/cache_freshness_comparator.go:170-185 | position, cached value and live value are all read back from a stored difference |
| Renderings.StoredDifferencesKeepTheFindings | orbitplus/internal/application/master/cache_freshness_comparator.go:170-185 | no two lists of findings are stored as the same differences |
| Pairing.IndexCached | orbitplus/internal/application/master/cache_freshness_verifier.go:373-381 | every identity maps to its last cached entry, listed in order of first appearance |
| Pairing.UnreadableEntriesPair | orbitplus/internal/application/master/cache_freshness_comparator.go:282-296 | entries that do not decode into a plain value have the blank identity and pair with each other |
| Pairing.PairAndCompare | orbitplus/internal/application/master/cache_freshness_verifier.go:369-419 | total = unpaired live entries + totals of paired ones + distinct cached identities no live entry has; the differences are those of the live entries in order, then those of the missing identities |
| Pairing.ZeroTotalMeansSameEntries | orbitplus/internal/application/master/cache_freshness_verifier.go:369-419 | the total is zero exactly when the identity sets coincide and every live entry agrees with the last cached one |
| Pairing.ListedAsMissingInCache | orbitplus/internal/application/master/cache_freshness_verifier.go:384-394 | a live entry is listed whole exactly when no cached entry has its identity |
| Pairing.ListedAsMissingInBits | orbitplus/internal/application/master/cache_freshness_verifier.go:408-417 | a cached entry is listed whole, by its last text, exactly when no live entry has its identity |
| Pairing.ListedAsMismatch | orbitplus/internal/application/master/cache_freshness_verifier.go:395-405 | a mismatch is listed exactly for a pair of one identity: one without texts when either side does not decode, else the first of its differences |
| Stations.StationCodesFromValue | orbitplus/internal/application/master/stage_route_matcher.go:23-49 | the first non-empty listing field, else the two ends |
| StopCodes.StationCodeIsTheFirstNamed | orbitplus/internal/application/master/stage_route_matcher.go:51-67 | a stop has the first code not blank along its nested stations, `station` before `stationDetails`, where an object that has a text of its own, `stationCode` before `code`, hides all below; else it has none |
| Stations.StageContainsRoute | orbitplus/internal/application/master/stage_route_matcher.go:5-21 | true exactly when the stage decodes into plain values and some stop of the second code comes after some stop of the first |
| Stations.StageMetadataRoutes | orbitplus/internal/application/master/tripdetails_metadata_storage.go:50-71 | the rows are the specified index of the entry's stop list |
| Stations.IndexIsSound | orbitplus/internal/application/master/tripdetails_metadata_storage.go:50-71 | no row repeats, every row is the base pair or accepted by the matcher, every such pair has a row of its text |
| Stations.IndexAgreesWithMatcher | orbitplus/internal/application/master/tripdetails_metadata_storage.go:50-71 | index and matcher agree if and only if no two wanted pairs read the same once joined by NUL |
| Stations.NulFreeCodesAreToldApart | orbitplus/internal/application/master/tripdetails_metadata_storage.go:50-71 | codes without NUL always satisfy that condition |
| Stations.NulInCodesLosesARoute | orbitplus/internal/application/master/tripdetails_metadata_storage.go:50-71 | concrete codes for which a matching pair is not indexed |
| Stations.StageKeepsStops | orbitplus/internal/application/master/tripdetails_cache_storage.go:204-212 | the stored stage yields the entry's stop list if and only if the list is not kept elsewhere or equals the ends |
| Stations.FilterAcceptsTheIndex | orbitplus/internal/application/master/stage_route_matcher.go:5-76 | every indexed pair but the base passes the read-time filter if and only if, for each of them, the stage decodes and its stops are kept with it or the pair is its two ends |
| Stations.FilterAcceptsEveryPair | orbitplus/internal/application/master/stage_route_matcher.go:5-76 | where index and matcher agree, the same over the ordered pairs of listed stops |
| Stations.StopsListedElsewhereAreNotFound | orbitplus/internal/application/master/tripdetails_cache_storage.go:204-212 | a concrete entry with an indexed pair that fails the filter |
| Documents.KeysAreInjective | orbitplus/internal/application/master/tripdetails_cache_storage.go:105-135 | trip, stage and busmap keys of colon-free components never coincide, within a kind or across kinds |
| Documents.SplitMergesBack | orbitplus/internal/application/master/tripdetails_cache_storage.go:187-222 | the two projections share no field and overlaid give the entry minus its bus seat layout |
| EntryFields.OperatorAndScheduleAreTheFirstGiven | orbitplus/internal/application/master/tripdetails_metadata_storage.go:41-48 | the operator is that of the request, else of the entry, else of its operator object; the schedule is the first code given of three |
| EntryFields.ScheduleIndexIsTheHistory | orbitplus/internal/application/master/tripdetails_metadata_storage.go:32-36 | the schedule table holds exactly a row for every stored entry that names a schedule, under its first code |
| Documents.EntryWritesAreSound | orbitplus/internal/application/master/tripdetails_storage_coordinator.go:149-174 | both documents of an entry come before each of its index rows |
| Documents.RowsHaveTheirDocuments | orbitplus/internal/application/master/tripdetails_cache_storage.go:137-181 | after any sound log every route or schedule row has its Trip and Stage documents |
| Storage.UpdatedTripCodesAreTheCodes | orbitplus/internal/application/master/tripdetails_storage_coordinator.go:136-147 | the reported codes are the distinct trimmed non-blank codes of the entries |
| Storage.WriteCountsAreLengths | orbitplus/internal/application/master/tripdetails_storage_coordinator.go:119-174 | a list of entries takes as many writes as are listed for it, whatever the clock reads |
| Storage.TripDetailsStorage.StoreSearchCache | orbitplus/internal/application/master/tripdetails_cache_storage.go:137-164 | the trip then the stage document, tried in order up to the first not reported stored; exactly what took effect is left |
| Storage.TripDetailsStorage.StoreSearchMetadata | orbitplus/internal/application/master/tripdetails_metadata_storage.go:16-39 | every indexed route in order, then the schedule row, in the same way |
| Storage.TripDetailsStorage.StoreBusMapCache | orbitplus/internal/application/master/tripdetails_cache_storage.go:166-181 | the busmap document, in the same way; nothing is tried for invalid identifiers |
| Storage.TripDetailsStorage.StoreEntry | orbitplus/internal/application/master/tripdetails_storage_coordinator.go:149-174 | the writes of the entry's action in order up to the first not reported stored, none for an entry that cannot be stored; successful exactly when it can be and no write fails |
| Storage.TripDetailsStorage.StoreEntries | orbitplus/internal/application/master/tripdetails_searchbusmap_storage.go:14-46 | entries in order up to the first that cannot be stored or meets a failing write, each stamped with its own clock reading, reporting exactly the codes of those stored completely and leaving exactly what the stopping one got to write |
| Storage.TripDetailsStorage.Store | orbitplus/internal/application/master/tripdetails_storage_coordinator.go:44-78 | a malformed payload writes nothing, a request succeeds exactly when every entry can be stored and no write fails, what it leaves otherwise is exact, and a sound store stays sound wherever it stops |
| Submissions.ListIsRead | orbitplus/internal/application/master/tripdetails_storage_coordinator.go:80-98 | a data list is stored entry by entry for the action spelled in any letter case, every action but the two busmap ones as a search; an empty list is refused |
| Submissions.WorkerBusMapIsRead | orbitplus/internal/application/master/tripdetails_storage_coordinator.go:100-117 | a Worker busmap is its single data object, or the payload itself without data; any other data is refused |
| Submissions.DirectObjectIsRead | orbitplus/internal/application/master/tripdetails_storage_coordinator.go:100-109 | a single object straight from Bits is a busmap when no action is named, else of the action named |
| Submissions.NothingElseIsRead | orbitplus/internal/application/master/tripdetails_storage_coordinator.go:80-117 | everything else is refused |
| Submissions.MalformedIsNotRead | orbitplus/internal/application/master/tripdetails_storage_coordinator.go:176-200 | so is a value that is no object, and one whose orbitResponse is none |
| Submissions.BusMapsAreStoredWhole | orbitplus/internal/application/master/tripdetails_cache_storage.go:166-181 | a busmap request writes one document per entry, under its busmap key, holding that entry |
| Storage.StoppedRequestIsSound | orbitplus/internal/application/master/tripdetails_storage_coordinator.go:119-174 | stopping after any write, applied or lost, keeps every row backed by its documents |
| ConcurrentStores.InterleavingsAreSound | orbitplus/internal/application/master/tripdetails_storage_coordinator.go:119-174 | any interleaving of sound logs is sound |
| ConcurrentStores.ConcurrentRowsHaveTheirDocuments | orbitplus/internal/application/master/tripdetails_storage_coordinator.go:119-174 | at every moment of any requests running at once, each stopped anywhere, every index row has its trip and stage documents |
| LastWriter.SuccessfulRequestExtendsHistory | orbitplus/internal/application/master/tripdetails_storage_coordinator.go:119-134 | a successful request extends the history of stored entries by its own, in order |
| Overlays.RequestOverlays | orbitplus/internal/application/master/tripdetails_storage_coordinator.go:119-134 | a completely stored request of any action lays its last entry of each trip and stage over what was there; a search leaves busmaps alone, a busmap leaves trips and stages alone |
| Overlays.RequestIndexes | orbitplus/internal/application/master/tripdetails_metadata_storage.go:16-39 | the rows indexed after a request are those from before and those some entry of it asks for |
| Submissions.BusMapsChangeBusMapsOnly | orbitplus/internal/application/master/tripdetails_storage_coordinator.go:149-174 | a busmap request changes no trip, no stage and no index row, and the busmap of exactly the stages it carries |
| LastWriter.DocumentsAreLastWriters | orbitplus/internal/application/master/tripdetails_cache_storage.go:137-181 | the document under a trip, stage or busmap key is that of the last entry written for it |
| LastWriter.IndexIsTheHistory | orbitplus/internal/application/master/tripdetails_metadata_storage.go:16-39 | the index holds exactly the rows some stored search entry asked for |
| Reader.ResolveStages | orbitplus/internal/application/master/tripdetails_reader.go:345-371 | the stages of the candidate rows that decode and serve the route, in order, or the first error |
| Reader.SearchRows | orbitplus/internal/application/master/tripdetails_reader.go:162-209 | the entries rebuilt from the resolved stages, not found when there are none, or the first error |
| Reader.SearchReturnsLastWrites | orbitplus/internal/application/master/tripdetails_reader.go:141-209 | after any successful stores a search returns, per row whose stage decodes and serves the route, the trip's last trip fields overlaid with the stage's last stage fields, and nothing else |
| EntryFields.MembersComeFromTheLastOwner | orbitplus/internal/application/master/tripdetails_cache_storage.go:187-222 | what a search serves has the stage code, stations, stops and fare of the last entry of the stage and every other member of the last entry of the trip, a bus without its seat layout |
| EntryFields.StageMembersWinButTheBus | orbitplus/internal/application/master/tripdetails_reader.go:373-388 | in any cache, members of the stage win over those of the trip, but never its bus |
| FailedReads.FailedReadsEndTheSearch | orbitplus/internal/application/master/tripdetails_reader.go:162-209 | a search fails exactly when some listed stage, or the trip of a listed row that serves, cannot be read; otherwise it answers as if every document could be read |
| Reader.SingleEntryRoundTrip | orbitplus/internal/application/master/tripdetails_reader.go:373-388 | a single stored entry is read back minus its bus seat layout exactly when its stored stage decodes and serves the row, else it is not found |
| Reader.OverflowingStageIsNotFound | orbitplus/internal/application/master/stage_route_matcher.go:6-9 | an entry with the fare 1e999 is stored, indexed and never found |
| Reader.BusMapReturnsLastResponse | orbitplus/internal/application/master/tripdetails_reader.go:214-308 | a busmap read returns the last busmap entry stored for the first candidate stage of the trip that passes the filter; not found when none passes or none was stored for it |
| Submissions.BusMapRequestIsReadBack | orbitplus/internal/application/master/tripdetails_reader.go:214-308 | after a busmap request, whatever was stored before, a busmap read whose first serving stage the request carries returns its last entry for that stage |
| Reader.OnlyLegacyDocumentsAreMerged | orbitplus/internal/application/master/tripdetails_reader.go:258-308 | in any cache a busmap that names its trip and stage is served as it is, and any older document goes through the legacy merge |
| FailedReads.FailedReadsEndTheBusMap | orbitplus/internal/application/master/tripdetails_reader.go:214-292 | a busmap read fails exactly when some candidate stage, or the busmap of the first that serves, cannot be read |
| RateLimit.InMemoryZoneRateLimiter.Acquire | orbitplusworker/internal/application/worker/ratelimit.go:102-121 | reply and next window as specified; no other zone changes |
| RateLimit.WindowCountsItsAdmissions | orbitplusworker/internal/application/worker/ratelimit.go:102-121 | the count of a window is the number of calls it admitted, at most the quota |
| RateLimit.IntervalBound | orbitplusworker/internal/application/worker/ratelimit.go:102-121 | for any history, at most (k + 1) * hits calls are admitted in any half-open interval of k windows |
| RateLimit.RetryIsPositive | orbitplusworker/internal/application/worker/worker.go:165-168 | a blocked call waits more than zero and at most one window, so the polling fallback is never used |
| RateLimit.ZonesAreIndependent | orbitplusworker/internal/application/worker/ratelimit.go:44-57 | a zone's window depends on its own calls only |
| RateLimit.ZoneKeepsItsQuota | orbitplusworker/internal/application/worker/ratelimit.go:52-57 | over any history of all zones, a zone is admitted at most (k + 1) * hits times in k windows of its own override where it has one, else of the default; a disabled quota admits every call |
| RateLimit.OtherOverridesDoNotMatter | orbitplusworker/internal/application/worker/ratelimit.go:52-57 | policies that differ only in the overrides of other zones admit a zone alike |
| RateLimit.WaveAdmitsTheQuota | orbitplusworker/internal/application/worker/worker.go:152-180 | when a window is over exactly hits waiting callers get through, and the rest are told to come back one window later |
| RateLimit.BlockedCallersDrain | orbitplusworker/internal/application/worker/worker.go:145-180 | n callers blocked at any instants of a full window, each coming back when its reply told it and without newcomers: nobody is left after k waves from the window's end exactly when k is at least ceil(n / hits) |
| SharedCounter.Dragonfly.RunScript | orbitplusworker/internal/infrastructure/dragonfly/rate_limiter.go:28-40 | the atomic increment, with an expiry set by the first hit of a window |
| SharedCounter.ZoneRateLimiter.Acquire | orbitplus/internal/infrastructure/dragonfly/rate_limiter.go:40-60 | reply and counter as specified, no reply exactly when the script call of an enabled limit fails, applied or not; no other key changes |
| SharedCounter.SharedLimiterKeepsZoneQuota | orbitplusworker/internal/infrastructure/dragonfly/rate_limiter.go:69-93 | the same bound for the shared counter, in windows of the whole milliseconds of the zone's own quota |
| SharedCounter.SimulationHolds | orbitplusworker/internal/infrastructure/dragonfly/rate_limiter.go:33-93 | after any history both forms have the same window end, and the memory count is the counter capped at the quota |
| SharedCounter.LimitersAgreeExactlyOnWholeMilliseconds | orbitplusworker/internal/infrastructure/dragonfly/rate_limiter.go:69-93 | the two limiters answer alike on every history if and only if the window is whole milliseconds |
| SharedCounter.SharedKeyKeepsTheLargerQuota | orbitplus/internal/infrastructure/dragonfly/rate_limiter.go:13-60 | with different quotas on one key, admissions in a key's lifetime never exceed the largest |
| Delivery.ProcessOnce | orbitplusworker/internal/application/worker/worker.go:118-141 | an attempt makes a prefix of the four calls up to the first that fails, succeeds exactly when all steps are done and the push is ACCEPTED, and otherwise is worth repeating exactly when its last call says so |
| Delivery.Handle | orbitplusworker/internal/application/worker/worker.go:47-116 | the whole delivery as specified; the return after the loop is unreachable |
| Delivery.DeliveryIsBounded | orbitplusworker/internal/application/worker/worker.go:47-116 | at most MaxAttempts attempts, waits a prefix of the delays, one report and one Ack at most, an Ack only when earned, acknowledged exactly when it succeeded |
| Delivery.DuplicateAndStaleAreReported | orbitplusworker/internal/application/worker/worker.go:99-100 | a DUPLICATE or STALE reply would be reported to the dead-letter endpoint and acknowledged exactly when that report is delivered |
| Delivery.UndisturbedDeliverySettles | orbitplusworker/internal/application/worker/worker.go:78-113 | without cancellation exactly the attempts up to the settling one are made, ending in an Ack or, for every failure and exhausted retry, a report |
| Delivery.StatusTellsTheEnd | orbitplusworker/internal/application/worker/worker.go:47-116 | the reported status is what the delivery did last, and carries the reply of its last push |
| Delivery.CancelledDeliveryStops | orbitplusworker/internal/application/worker/worker.go:95-112 | cancelled after its k-th attempt or during the wait for the next, a delivery has made the calls of its k attempts and no other, and neither reports nor acknowledges |
| Delivery.AwaitZoneRateLimit | orbitplusworker/internal/application/worker/worker.go:152-180 | proceeds exactly on the first admitted or failed call, after waiting as long as every answer before it says, a second where it says nothing |
| SearchBusMapRun.MergeReadsPathByPath | orbitplusworker/internal/application/worker/search_busmap.go:327-339 | path by path: overlay values win, objects merge, unmentioned paths keep the base, nothing survives below a replaced value |
| SearchBusMapRun.MergeIsIdempotent | orbitplusworker/internal/application/worker/search_busmap.go:327-339 | merging the same answer again changes nothing |
| SearchBusMapRun.CombinedEntryKeepsIdentifiers | orbitplusworker/internal/application/worker/search_busmap.go:145-154 | a combined entry carries the five identifiers of its search entry |
| SearchBusMapRun.CombinedEntryIsTheMergeElsewhere | orbitplusworker/internal/application/worker/search_busmap.go:145-154 | at every other path it is the merge |
| SearchBusMapRun.DecodeSearch | orbitplusworker/internal/application/worker/search_busmap.go:171-192 | an answer is accepted exactly when it is a successful envelope with a non-empty list of objects, and unchanged |
| BusMapAnswers.SuccessIsLiterallyOne | orbitplusworker/internal/application/worker/search_busmap.go:252-268 | an answer succeeds exactly when it has no status or the literal 1, not 1.0 |
| BusMapAnswers.DecodedIsBrought | orbitplusworker/internal/application/worker/search_busmap.go:194-230 | a busmap is taken from a data object, a one-element data list or the bare answer that names a trip or stage, exactly then |
| BusMapAnswers.EntryIsCombinedExactly | orbitplusworker/internal/application/worker/search_busmap.go:270-308 | a search entry is combined exactly when it has all five identifiers, its quota call passes and Bits brings a busmap that contradicts none of them |
| BusMapAnswers.CombinedWithWhatIsBrought | orbitplusworker/internal/application/worker/search_busmap.go:145-154 | it is then combined with just that busmap |
| SearchBusMapRun.FetchOne | orbitplusworker/internal/application/worker/search_busmap.go:74-154 | combined exactly when identifiers, quota, answer and identity allow it, after exactly the calls these leave |
| SearchBusMapRun.FetchSearchAndBusMaps | orbitplusworker/internal/application/worker/search_busmap.go:30-169 | a response exactly when every entry can be combined; in any case after exactly the quota calls and fetches up to the first entry that cannot |
| SearchBusMapRun.RunFollowsThePlan | orbitplusworker/internal/application/worker/search_busmap.go:30-158 | the calls of a run are a prefix of the plan over its entries, all of it when every entry is combined |
| SearchBusMapRun.PlanPairsQuotaAndFetch | orbitplusworker/internal/application/worker/search_busmap.go:30-113 | the plan has n + 1 fetches, each right after a quota call of its own |
| SearchBusMapRun.FetchesAskForWhatIsStored | orbitplusworker/internal/application/worker/search_busmap.go:84-100 | first the search of the message, then for entry k the busmap of exactly the trip, stations and date the Master stores that entry under, everything else as in the message |
| SearchBusMapRun.CombinedEntriesKeepOrder | orbitplusworker/internal/application/worker/search_busmap.go:73-158 | entry k of the response is search entry k merged with its own busmap answer |
| SearchBusMapRun.MasterReadsCombinedEntries | orbitplusworker/internal/infrastructure/orbitplus/client.go:36-66 | the submitted request is read by the Master as those entries under the message's operator |
| BusMapAnswers.SubmissionNamesItsJob | orbitplusworker/internal/infrastructure/orbitplus/client.go:42-67 | the reference, route and trip of the message read back from the submission |
| SearchBusMapRun.MasterAcceptsCombinedEntries | orbitplus/internal/application/master/tripdetails_searchbusmap_storage.go:16-44 | the Master accepts every combined entry if and only if no key component has a colon |
| WorkerRoundTrip.RunIsReadBack | orbitplus/internal/application/master/tripdetails_reader.go:214-308 | once a run is stored, on top of anything, a busmap read of the trip of an entry returns its combined entry if and only if the first candidate stage that passes the filter is the entry's own |
| WorkerRoundTrip.SortedRunIsReadBack | orbitplus/scripts/create_cassandra_tables.cql:54-68 | with the stages of the trip in the order of the route table, that is when the entry's row is listed, its combined entry passes the filter, and no listed stage with a smaller code does |
| WorkerRoundTrip.OwnRouteIsReadBack | orbitplus/internal/application/master/tripdetails_reader.go:214-308 | a busmap read of the entry's own route returns it whenever its stage passes there and no other stage of the trip does |
| LiveCopy.NewestUpdatedAt | orbitplus/internal/application/master/tripdetails_reader.go:70-80 | the latest timestamp of the candidate rows |
| LiveCopy.ColdMeansEveryRowIsStale | orbitplus/internal/application/master/tripdetails_cache_storage.go:71-87 | a route is cold exactly when every one of its rows is stale |
| LiveCopy.HotMeansSomeRowIsHot | orbitplus/internal/application/master/tripdetails_cache_storage.go:71-87 | a route is hot exactly when one of its rows is |
| LiveCopy.EmptyAnswersBringNothing | orbitplus/internal/application/master/cache_freshness_verifier.go:353-365 | an answer brings the elements of its list, or its object unless that has no members, and nothing exactly when it is empty |
| LiveCopy.EnrichingFillsBlanks | orbitplus/internal/application/master/cache_freshness_verifier.go:295-325 | enriching fills trip, date and the two stations where they are blank with what the lookup gives, and nothing else |
| LiveCopy.RepairCarriesTheAnswer | orbitplus/internal/application/master/cache_freshness_verifier.go:216-247 | a repair submits the answer for the lookup's operator as a Worker does, a busmap object enriched |
| LiveCopy.RepairReadsOnlyLists | orbitplus/internal/application/master/cache_freshness_verifier.go:216-258 | a live answer can be stored exactly when its data is a non-empty list |
| LiveCopy.NumbersDoNotDecideStorability | orbitplus/internal/application/master/cache_freshness_verifier.go:216-258 | whether a live list can be stored is the same for its numbers as sent and as decoded and encoded again |
| LiveReads.CompareCopies | orbitplus/internal/application/master/cache_freshness_verifier.go:181-205 | match, different, missing or unavailable, each exactly when the cached copy and the answer call for it |
| LiveReads.LiveReadService.RepairCache | orbitplus/internal/application/master/cache_freshness_verifier.go:216-258 | repaired exactly when a repairer is configured, the answer is a decodable non-empty list of storable entries and no write fails; then every write of every entry was made, its numbers as encoded again, else a prefix of them |
| LiveReads.LiveReadService.Search | orbitplus/internal/application/master/tripdetails_reader.go:141-209 | a cold route is refreshed exactly when every listed row is stale and every gate up to the answer of Bits is open; then the rows are those the store lists by now, else those from before; nesting at most two, at most one primary live fetch, slots given back, and the answer that of a cached read of those rows |
| LiveReads.LiveReadService.BusMap | orbitplus/internal/application/master/tripdetails_reader.go:214-292 | the same for busmap reads |
| LiveReads.LiveReadService.RefreshIfCold | orbitplus/internal/application/master/tripdetails_reader.go:82-103 | refreshed exactly when a refresher is attached, every candidate row is stale, the operator has a zone, a slot is free, the credential is usable, the limiter does not block and Bits answers; a live fetch only when every row is stale; an unrefreshed store is unchanged |
| LiveReads.LiveReadService.RefreshCold | orbitplus/internal/application/master/cold_cache_refresher.go:60-102 | true exactly when every gate is open and Bits answered; the cache was repaired exactly when the copy cached before the call could be read and the guards of the repair held; without a credential nothing is fetched, which closes the recursion |
| LiveReads.ColdBusMapObjectIsNotRepaired | orbitplus/internal/application/master/cold_cache_refresher.go:60-102 | a concrete busmap answer for which a refresh reports true and repairs nothing |
| LiveReads.LiveReadService.Admit | orbitplus/internal/application/master/cache_freshness_verifier.go:97-128 | admitted exactly when a slot is free, the credential is usable and the limiter does not block; each refusal exactly for its cause, a rate-limited one with the limiter's retry time, and no slot left taken |
| LiveReads.LiveReadService.Verify | orbitplus/internal/application/master/cache_freshness_verifier.go:91-177 | slot released on every path, writes only after an answered fetch, each result exactly for the gate or live reply that causes it, the outcome of the comparison, the repair exactly when its guards hold and by exactly its writes, for a busmap the writes of the companion search after them, one difference row for every outcome but match and rejection |
| LiveReads.LiveReadService.CachedEntries | orbitplus/internal/application/master/cache_freshness_verifier.go:327-349 | exactly what a cached read that refreshes nothing serves |
| Restamping.RepairedRouteIsNotCold | orbitplus/internal/application/master/cold_cache_refresher.go:12-18 | a stored request that indexes a row of the route keeps it from being cold until its first stamp is too old |
| Reverification.SecondReadMatches | orbitplus/internal/application/master/cache_freshness_verifier.go:213-214 | after a search repair on any history, the same answer matches if and only if every stage that served the route before is one it carries and every entry comes back: its row listed, the last entry of its stage passing the filter, the overlay of the last entries of its trip and stage matching it under the same operator |
| SeatLayouts.LayoutIsTheOnlyLoss | orbitplus/internal/application/master/tripdetails_cache_storage.go:187-222 | an entry without its bus seat layout matches the entry exactly when that layout is missing or empty |
| Reverification.SeatLayoutsNeverMatchAgain | orbitplus/internal/application/master/cache_freshness_verifier.go:213-214 | an answer with a bus seat layout in any entry never matches the second time, whatever was stored before |
| Reverification.DifferingTripsNeverMatchAgain | orbitplus/internal/application/master/cache_freshness_verifier.go:213-214 | an answer with an entry whose trip-owned field differs from that of its trip's last entry never matches the second time |
| Reverification.DistinctTripsMatchAgain | orbitplus/internal/application/master/cache_freshness_verifier.go:213-214 | with unchanged numbers and no two entries of one trip, an answer matches again if and only if nothing else served the route and each entry is listed, passes the filter and has no seat layout |
| BusMapReverification.BusMapMatches | orbitplus/internal/application/master/cache_freshness_verifier.go:181-205 | over any history a busmap answer matches exactly when each of its entries is the last busmap of the first stage to serve |
| BusMapReverification.BusMapSecondRead | orbitplus/internal/application/master/cache_freshness_verifier.go:213-214 | a second live read of a trip matches if and only if some candidate row still serves and every entry of the answer is the busmap left for the first such row |
| BusMapReverification.TwoIdentitiesNeverMatch | orbitplus/internal/application/master/cache_freshness_verifier.go:327-349 | a busmap answer with entries of two identities never matches, whatever was stored |
| BusMapReverification.BusMapObjectStaysMissing | orbitplus/internal/application/master/cache_freshness_verifier.go:225-258 | while no busmap of the trip is stored, every read of a single live object is CACHE_MISSING, wherever the companion searches stop |
| VerificationSlots.FetchesNeverExceedSlots | orbitplus/internal/application/master/cache_freshness_verifier.go:97-143 | under any interleaving the slots taken are those held, so live fetches in flight never exceed the maximum |
| VerificationSlots.IdleMeansFree | orbitplus/internal/application/master/cache_freshness_verifier.go:97-143 | when every verification is done every slot is free |
| VerificationSlots.BusyMeansFull | orbitplus/internal/application/master/cache_freshness_verifier.go:98-104 | a verification is turned away exactly when all slots are held by others |
| InventoryClaims.KeysIdentifyRoutes | orbitplus/internal/application/master/orionmax_inventory_change_receiver.go:54-64 | an item's claim key stands for its route and trip only, if and only if none of its six fields has a bar without a blank beside it |
| InventoryClaims.BarsMergeRoutes | orbitplus/internal/application/master/orionmax_inventory_change_receiver.go:54-64 | two concrete items of different routes that share a claim key |
| InventoryClaims.InventoryEventService.ClaimInFlight | orbitplus/internal/application/master/orionmax_inventory_change_receiver.go:68-76 | claimed exactly when the key was free; it is held afterwards |
| InventoryClaims.InventoryEventService.Process | orbitplus/internal/application/master/orionmax_inventory_change_receiver.go:124-157 | the claim is released on every way out, and the row writes and publish are exactly those the failures leave |
| InventoryClaims.InventoryEventService.ReceiveInventoryChange | orbitplus/internal/application/master/orionmax_inventory_change_receiver.go:87-160 | items in order up to the first that ends the call, each doing exactly what its key and its failures call for; no claim is left behind |
| InventoryClaims.PublishesFollowSaves | orbitplus/internal/application/master/orionmax_inventory_change_receiver.go:87-160 | in a call a route is published only right after its row was saved, and only when it was free on arrival |
| InventoryClaims.InterleavingsKeepClaims | orbitplus/internal/application/master/orionmax_inventory_change_receiver.go:66-158 | under any interleaving the in-flight set is the set of keys held, one holder each |
| InventoryClaims.IdleMeansUnclaimed | orbitplus/internal/application/master/orionmax_inventory_change_receiver.go:78-84 | the set is empty when no call is running |
| InventoryClaims.OnePublisherPerRoute | orbitplus/internal/application/master/orionmax_inventory_change_receiver.go:116-140 | no two calls publish one route at the same time |
| InventoryClaims.EveryCallFinishes | orbitplus/internal/application/master/orionmax_inventory_change_receiver.go:99-159 | whatever a call meets, it ends within a bounded number of its own steps and then holds nothing |
| PublishProtocol.PublishesAreBounded | orbitplus/internal/application/master/orbit_route_refresh.go:260-312 | over any interleaving a job is published at most once, plus once per DEAD mark and per lost QUEUED mark |
| PublishProtocol.BoundIsReached | orbitplus/internal/application/master/orbit_route_refresh.go:260-312 | for every number of deaths some run meets the bound with equality |
| PublishProtocol.EveryRunIsExcused | orbitplus/internal/application/master/tripdetails_receiver.go:43-96 | at every moment of every run, whatever callbacks come, all publishes but at most one still open are excused |
| PublishProtocol.StepKeepsExcused | orbitplus/internal/infrastructure/cassandra/queue_metrix.go:41-114 | every row write, applied or lost, and every other event keeps it so |
| RouteRefresh.FutureRoutePairs | orbitplus/internal/application/master/orbit_route_refresh.go:190-207 | a candidate for exactly the keys of eligible rows, a newest row of its key |
| RouteRefresh.GroupByOperator | orbitplus/internal/application/master/orbit_route_refresh.go:208-212 | every candidate is in its own operator's group, once per key, and nothing else is |
| RouteRefresh.KeysTellRoutesApart | orbitplus/internal/application/master/orbit_route_refresh.go:202 | without NULs keys are equal exactly for the same route and date |
| RouteRefresh.RouteStepsAreARun | orbitplus/internal/application/master/orbit_route_refresh.go:260-296 | a publishRoute call is a run of the publish protocol |
| RouteRefresh.TopRoutesGoFirst | orbitplus/internal/application/master/orbit_route_refresh.go:250-258 | of two jobs a run publishes, one has the higher priority exactly when it is a top route and the other is not |
| RouteRefresh.OrbitRouteRefreshService.PublishRoute | orbitplus/internal/application/master/orbit_route_refresh.go:260-307 | queued exactly when not blocked and no fault; its steps are a run of the protocol, which publishes the job exactly when the save and the broker go through |
| RouteRefresh.OrbitRouteRefreshService.PublishOffered | orbitplus/internal/application/master/orbit_route_refresh.go:152-176 | every candidate is counted once, by its place among Orbit's top routes, other routes or none, offered ones end QUEUED or COMPLETED, published ones carry Orbit's priority, and the whole loop is a run of the protocol |
| RouteRefresh.OrbitRouteRefreshService.Run | orbitplus/internal/application/master/orbit_route_refresh.go:91-180 | a second run is turned away and the lock given back on every way out; the run is a run of the protocol; the candidates are a newest eligible row of every key; every published job is that of an eligible stale row, a top route with priority 9 and any other offered one with 8; a run fails only when the rows or the Orbit routes of a candidate cannot be had or some step of a candidate fails; otherwise every candidate was counted once, and each that Orbit still offers is QUEUED or COMPLETED |
| RouteRefresh.OrbitRouteRefreshService.ReceiveCallback | orbitplus/internal/application/master/tripdetails_receiver.go:43-96 | a Worker callback is a step of the protocol and publishes nothing |
| RouteRefresh.OrbitRouteRefreshService.PublishedJobsAreBounded | orbitplus/internal/application/master/orbit_route_refresh.go:260-312 | after any runs and callbacks, each job was published at most once, plus once per DEAD mark and per lost QUEUED mark |

## Left out

- JSON bytes: decoding and encoding start from decoded trees.
- The exact float a number is rounded to when a live answer is encoded again: it may become any number, everything else stays.
- Text.UnquoteUndoesQuote: characters outside ASCII that the Go quoting function escapes as non-printable are copied through.
- Case mapping is ASCII only.
- HTTP handlers, user interface, logging, configuration parsing and the V1 services.
- Cache expiry and the read-time extension of it.
- The order in which Cassandra lists the rows of a route: reads are proved for every order, and one of them for that of the route table too.
- The legacy merge of layout-only busmap documents: a parameter of the busmap read.
- Delivery.AwaitZoneRateLimit: runs against a finite script of limiter answers, because the loop itself may wait for ever.
- Delivery.DeliveryIsBounded: one fetch event stands for the whole fetch stage of an attempt; SearchBusMapRun gives its inner fetches.
- The bytes of difference values in background difference rows, and the background write itself; a writer is taken to be configured.
- Updates in place of shared JSON maps: the merge and the clones are modelled on values, so aliasing is not captured.
- RouteRefresh.OrbitRouteRefreshService.Run: the count of offered routes is split into top and normal ones per operator, not over the whole run. A Worker callback comes between runs here; callbacks between the steps of a run are covered by PublishProtocol.
- RouteRefresh.FutureRoutePairs: a date is taken as its day number, or none when it does not read as a date.
- The SHA-256 reference ID of a periodic job is taken to be injective.
- Several Master processes: the single-runner lock and the in-flight claims are local to one.
- Requeueing and redelivery by the broker.
