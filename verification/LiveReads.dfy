/** Cached reads that refresh cold routes from Bits, and the verifier behind them, which reads the cache again. */
module LiveReads {
  import opened Wrappers
  import opened Text
  import opened JsonTree
  import opened Documents
  import opened Storage
  import opened RateLimit
  import opened Reader
  import opened Pairing
  import opened LiveCopy

  // ---------- what surrounds a read ----------

  datatype Credential = Credential(username: string, apiToken: string)

  const NO_CREDENTIAL := Credential("", "")

  /** RefreshCredential.Valid and BitsLookup.HasCredential. */
  ghost predicate Usable(c: Credential) {
    !Blank(c.username) && !Blank(c.apiToken)
  }

  datatype LiveReply = Unavailable | Rejected | Answered(answer: LiveAnswer)

  /** Answers of everything outside, by the number of the question, and the configuration. */
  datatype Environment = Environment(
    metadataFails: nat -> bool, failing: nat -> set<string>, now: nat -> int, zoneResolves: nat -> bool,
    quota: nat -> Option<Reply>, live: (nat, LiveAction, RouteLookup) -> LiveReply,
    legacyBusMap: LegacyMerge, text: Json -> string,
    hotMaxAge: int, warmMaxAge: int,
    refresherAttached: bool, refresherConfigured: bool, limiterConfigured: bool,
    readerConfigured: bool, repairerConfigured: bool)

  datatype VerificationOutcome = Match | Different | CacheMissing | SourceUnavailable | SourceRejected

  datatype VerifyResult =
    | Busy
    | CredentialUnavailable
    | RateLimited(retryAfter: int)
    | FetchFailed(failure: VerificationOutcome)
    | Served(data: LiveData, outcome: VerificationOutcome, differences: nat)

  datatype Recorded = Recorded(outcome: VerificationOutcome, differences: nat, repaired: bool)

  /** How a read came to its answer. */
  datatype View = View(metadataFailed: bool, rows: seq<RouteRow>, failing: set<string>, refreshed: bool, depth: nat)

  /** The rows a read of either action starts from. */
  ghost function RowsOf(routes: map<RouteRow, int>, action: LiveAction, l: RouteLookup): set<RouteRow> {
    set r | r in routes && RowMatches(r, RouteOf(l)) && (action == BusMapAction ==> r.trip == l.trip)
  }

  ghost predicate ListsRows(rows: seq<RouteRow>, routes: map<RouteRow, int>, action: LiveAction, l: RouteLookup) {
    if action == SearchAction then Lists(rows, routes, RouteOf(l)) else ListsTrip(rows, routes, l)
  }

  const NO_VIEW := View(false, [], {}, false, 0)

  /**
   * What a verification saw and did: the cached read it compared with, the live answer, the repair, the store
   * right after it, and the companion search of a busmap, by the number of its fetch.
   */
  datatype Verification =
    Verification(view: View, answer: LiveAnswer, outcome: VerificationOutcome, differences: nat, repaired: bool,
                 clock: nat -> int, middle: Snapshot, companion: nat, later: nat -> int)

  /** The store at a moment. */
  datatype Snapshot =
    Snapshot(cache: map<string, Json>, routes: map<RouteRow, int>, log: seq<Write>, attempts: nat)

  ghost function NothingDone(): Verification {
    Verification(NO_VIEW, RawAnswer(Null, Null), SourceUnavailable, 0, false, k => 0, Snapshot(map[], map[], [], 0), 0,
                 k => 0)
  }

  // ---------- answers without any refresh ----------

  ghost function CachedSearch(cache: map<string, Json>, l: RouteLookup, view: View): Result<seq<Json>> {
    if view.metadataFailed then Err(MetadataReadFailed)
    else if view.rows == [] then Err(NotFound)
    else SearchAnswer(cache, view.failing, RouteOf(l), view.rows)
  }

  ghost function CachedBusMap(env: Environment, cache: map<string, Json>, l: RouteLookup, view: View): Result<Json> {
    if view.metadataFailed then Err(MetadataReadFailed)
    else if view.rows == [] then Err(NotFound)
    else BusMapRead(env.legacyBusMap, cache, view.failing, l, view.rows)
  }

  /** What a plain cached read of either action finds, as a list of entries. */
  ghost function CachedCopy(env: Environment, cache: map<string, Json>, action: LiveAction, l: RouteLookup, view: View)
    : Result<seq<Json>>
  {
    if action == SearchAction then CachedSearch(cache, l, view)
    else match CachedBusMap(env, cache, l, view)
      case Err(e) => Err(e)
      case Ok(entry) => Ok([entry])
  }

  /** The view of a read that refreshes nothing. */
  ghost predicate PlainView(view: View, routes: map<RouteRow, int>, action: LiveAction, l: RouteLookup) {
    && view.depth == 1 && !view.refreshed
    && (!view.metadataFailed ==>
          ListsRows(view.rows, routes, action, l))
  }

  // ---------- comparing ----------

  function Raw(env: Environment, value: Json): Entry {
    Entry(env.text(value), Some(value), PlainlyDecodes(value))
  }

  function RawAll(env: Environment, values: seq<Json>): seq<Entry> {
    seq(|values|, i requires 0 <= i < |values| => Raw(env, values[i]))
  }

  /** Nothing differs: both sides empty, or the same identities with agreeing entries. */
  ghost predicate SameContents(env: Environment, cached: Result<seq<Json>>, data: LiveData) {
    match cached
    case Err(e) => e == NotFound && Empty(data)
    case Ok(entries) =>
      var before, live := RawAll(env, entries), RawAll(env, SplitLive(data));
      Identities(before) == Identities(live) && forall e :: e in live ==> Agrees(before, e)
  }

  /** The outcome of a comparison, and its number of differences. */
  ghost predicate IsOutcome(env: Environment, cached: Result<seq<Json>>, data: LiveData, outcome: VerificationOutcome,
                            total: nat) {
    match outcome
    case Match => SameContents(env, cached, data) && total == 0
    case CacheMissing => cached == Err(NotFound) && !Empty(data) && total == 0
    case SourceUnavailable => cached.Err? && cached.error != NotFound && total == 0
    case Different => cached.Ok? && !SameContents(env, cached, data) && total > 0
    case SourceRejected => false
  }

  /** compareAgainstCache, once the cached entries are read. */
  method CompareCopies(env: Environment, cached: Result<seq<Json>>, data: LiveData)
    returns (outcome: VerificationOutcome, total: nat)
    ensures IsOutcome(env, cached, data, outcome, total)
  {
    if cached.Err? {
      if cached.error == NotFound {
        return if Empty(data) then Match else CacheMissing, 0;
      }
      return SourceUnavailable, 0;
    }
    var before, live := RawAll(env, cached.value), RawAll(env, SplitLive(data));
    ZeroTotalMeansSameEntries(before, live);
    var differences;
    differences, total := PairAndCompare(before, live);
    outcome := if total == 0 then Match else Different;
  }

  // ---------- the services ----------

  class LiveReadService {
    const store: TripDetailsStorage
    const env: Environment
    const maxSlots: nat
    var slots: nat
    var asked: nat
    var records: seq<Recorded>
    ghost var liveFetches: nat

    ghost predicate Valid()
      reads this, store
    {
      store.Valid() && slots <= maxSlots
    }

    constructor (store: TripDetailsStorage, env: Environment, maxSlots: nat)
      requires store.Valid() && maxSlots >= 1
      ensures Valid() && slots == 0 && this.store == store && this.env == env && this.maxSlots == maxSlots
    {
      this.store, this.env, this.maxSlots := store, env, maxSlots;
      slots, asked, records, liveFetches := 0, 0, [], 0;
    }

    ghost function StoreNow(): Snapshot
      reads store
    {
      Snapshot(store.cache, store.routes, store.log, store.attempts)
    }

    /** An answer is repaired: a repairer, and everything else a repair needs. */
    ghost predicate Repairs(attempts: nat, action: LiveAction, lookup: RouteLookup, answer: LiveAnswer) {
      env.repairerConfigured && Repairable(store.outcome, attempts, action, lookup, answer)
    }

    /** The cached copy cannot be compared with: nothing reads it, or the read fails. */
    ghost predicate CacheUnreadable(cache: map<string, Json>, action: LiveAction, lookup: RouteLookup, view: View) {
      || !env.readerConfigured
      || (var cached := CachedCopy(env, cache, action, lookup, view); cached.Err? && cached.error != NotFound)
    }

    /** What a repair would write: nothing unless the answer is a list. */
    ghost function RepairWrites(action: LiveAction, lookup: RouteLookup, answer: LiveAnswer, clock: nat -> int)
      : seq<Write>
    {
      if answer.plain.Arr? then AllWrites(StoredAs(action), lookup.operator, answer.plain.elems, clock) else []
    }

    /** A repair wrote all of that, or a prefix when it failed, and nothing without a repairer or a decodable list. */
    ghost predicate Wrote(before: seq<Write>, after: seq<Write>, action: LiveAction, lookup: RouteLookup,
                          answer: LiveAnswer, repaired: bool, clock: nat -> int)
    {
      && Grew(before, after, RepairWrites(action, lookup, answer, clock), repaired)
      && (!env.repairerConfigured || Empty(answer.data) || !PlainlyDecodes(answer.data) ==> after == before)
    }

    /** The companion search of a busmap: a fetch of the whole route, and the repair of its answer. */
    ghost predicate Accompanied(middle: Snapshot, after: Snapshot, question: nat, lookup: RouteLookup,
                                clock: nat -> int)
    {
      var search := lookup.(trip := "");
      var reply := env.live(question, SearchAction, search);
      if lookup.from == "" || lookup.to == "" || lookup.date == "" || !reply.Answered? then after.log == middle.log
      else Wrote(middle.log, after.log, SearchAction, search, reply.answer,
                 Repairs(middle.attempts, SearchAction, search, reply.answer), clock)
    }

    /** The writes of a verification: its repair, then for a busmap those of the companion search. */
    ghost predicate Settled(before: Snapshot, after: Snapshot, action: LiveAction, lookup: RouteLookup,
                            done: Verification)
    {
      if done.outcome == SourceUnavailable then !done.repaired && after.log == before.log
      else
        && (done.repaired <==> Repairs(before.attempts, action, lookup, done.answer))
        && Wrote(before.log, done.middle.log, action, lookup, done.answer, done.repaired, done.clock)
        && if action == SearchAction then after.log == done.middle.log
           else Accompanied(done.middle, after, done.companion, lookup, done.later)
    }

    /**
     * What a verification that serves its answer has done: compared it with what a plain read of the
     * cache finds, and repaired the cache exactly when it could be compared and repaired.
     */
    ghost predicate Concluded(before: Snapshot, after: Snapshot, action: LiveAction, lookup: RouteLookup,
                              done: Verification)
    {
      && (env.readerConfigured ==>
            && PlainView(done.view, before.routes, action, lookup)
            && IsOutcome(env, CachedCopy(env, before.cache, action, lookup, done.view), done.answer.data,
                         done.outcome, done.differences))
      && (!env.readerConfigured ==> done.outcome == SourceUnavailable)
      && Settled(before, after, action, lookup, done)
    }

    /** The cache was repaired exactly when it could be read and the guards of the repair held. */
    ghost predicate RepairedExactly(before: Snapshot, action: LiveAction, lookup: RouteLookup, done: Verification) {
      done.repaired <==> && !CacheUnreadable(before.cache, action, lookup, done.view)
                         && Repairs(before.attempts, action, lookup, done.answer)
    }

    /** A verification that concluded repaired exactly when it could read the cache and the guards held. */
    lemma OutcomeTellsUnreadable(before: Snapshot, after: Snapshot, action: LiveAction, lookup: RouteLookup,
                                 done: Verification)
      requires Concluded(before, after, action, lookup, done)
      ensures done.outcome == SourceUnavailable <==> CacheUnreadable(before.cache, action, lookup, done.view)
      ensures RepairedExactly(before, action, lookup, done)
    {
    }

    /**
     * repairCache: every write of every live entry, its numbers as decoded and encoded again, exactly when
     * the guards hold; nothing at all for anything but a non-empty list.
     */
    method RepairCache(action: LiveAction, lookup: RouteLookup, answer: LiveAnswer)
      returns (repaired: bool, ghost clock: nat -> int)
      requires Valid()
      modifies this`asked, store
      ensures Valid()
      ensures Sound(old(store.log)) ==> Sound(store.log)
      ensures repaired <==> Repairs(old(store.attempts), action, lookup, answer)
      ensures Wrote(old(store.log), store.log, action, lookup, answer, repaired, clock)
      ensures asked == old(asked) + |SplitLive(answer.plain)|
    {
      var first := asked;
      var readings := (k: nat) => env.now(first + k);
      clock := readings;
      asked := asked + |SplitLive(answer.plain)|;
      GrewNothing(store.log, RepairWrites(action, lookup, answer, clock));
      if !env.repairerConfigured || Empty(answer.data) || !PlainlyDecodes(answer.data) {
        return false, clock;
      }
      ghost var before := store.log;
      RepairStoresTheList(action, lookup, answer);
      var tripCodes;
      ghost var stored;
      tripCodes, repaired, stored := store.Store(RepairRequest(action, lookup, answer.plain), readings);
      if answer.plain.Arr? {
        StoppedIsPrefix(before, store.log, StoredAs(action), lookup.operator, answer.plain.elems, clock, stored,
                        repaired);
      }
    }

    /** refreshSearchCacheForBusMap: a companion fetch outside slots and quota, best effort. */
    method RefreshSearchCacheForBusMap(lookup: RouteLookup) returns (ghost clock: nat -> int)
      requires Valid()
      modifies this`asked, store
      ensures Valid()
      ensures Sound(old(store.log)) ==> Sound(store.log)
      ensures Accompanied(old(StoreNow()), StoreNow(), old(asked), lookup, clock)
    {
      clock := k => 0;
      if lookup.from == "" || lookup.to == "" || lookup.date == "" {
        return;
      }
      var search := lookup.(trip := "");
      var reply := env.live(asked, SearchAction, search);
      asked := asked + 1;
      if reply.Answered? {
        var repaired;
        repaired, clock := RepairCache(SearchAction, search, reply.answer);
      }
    }

    /** FindStagesByRoute, for a busmap followed by the filter on its trip; the read itself may fail. */
    method ReadMetadata(action: LiveAction, lookup: RouteLookup) returns (failed: bool, rows: seq<RouteRow>)
      requires Valid()
      modifies this`asked
      ensures asked == old(asked) + 1 && (failed <==> env.metadataFails(old(asked)))
      ensures if failed then rows == [] else ListsRows(rows, store.routes, action, lookup)
    {
      failed, rows := env.metadataFails(asked), [];
      asked := asked + 1;
      if !failed {
        if action == SearchAction {
          rows := FindStagesByRoute(store.routes, Lookup(lookup.operator, lookup.from, lookup.to, lookup.date));
        } else {
          rows := FindTripStages(store.routes, lookup);
        }
      }
    }

    /** What Search and BusMap begin with: the candidate rows, refreshed when they are cold. */
    method CandidateRows(action: LiveAction, lookup: RouteLookup, credential: Credential)
      returns (failed: bool, rows: seq<RouteRow>, ghost refreshed: bool, ghost done: Verification)
      requires Valid()
      modifies this, store
      decreases Usable(credential), 4
      ensures Valid() && slots == old(slots)
      ensures Sound(old(store.log)) ==> Sound(store.log)
      ensures done.view.depth <= 1 && (!Usable(credential) ==> done.view.depth == 0)
      ensures old(liveFetches) <= liveFetches <= old(liveFetches) + 1
      ensures refreshed ==> liveFetches == old(liveFetches) + 1
      ensures !Usable(credential) || !env.refresherAttached ==>
                liveFetches == old(liveFetches) && records == old(records)
      ensures !refreshed ==> store.log == old(store.log) && store.attempts == old(store.attempts)
      ensures ReadRows(old(StoreNow()), StoreNow(), action, lookup, credential, old(asked), asked, old(slots), failed,
                       rows, refreshed, done)
    {
      done, refreshed := NothingDone(), false;
      failed, rows := ReadMetadata(action, lookup);
      if failed {
        return;
      }
      ListedRowsAreTheRows(rows, store.routes, action, lookup);
      if rows == [] {
        return;
      }
      ghost var before := store.routes;
      var anew;
      anew, done := RefreshIfCold(action, lookup, rows, credential);
      refreshed := anew;
      if anew {
        rows := Relist(action, lookup, rows, before);
      }
    }

    /** The second metadata read of a refreshed route; the rows from before stay when it fails or finds none. */
    method Relist(action: LiveAction, lookup: RouteLookup, rows: seq<RouteRow>, ghost before: map<RouteRow, int>)
      returns (again: seq<RouteRow>)
      requires Valid() && ListsRows(rows, before, action, lookup)
      modifies this`asked
      ensures asked == old(asked) + 1 && (again == [] ==> rows == [])
      ensures Relisted(again, before, store.routes, action, lookup, old(asked))
    {
      var failed;
      failed, again := ReadMetadata(action, lookup);
      if failed {
        return rows;
      }
      ListedRowsAreTheRows(again, store.routes, action, lookup);
      if again == [] {
        return rows;
      }
    }

    /** Resolve the candidate rows and rebuild their entries, with the keys that cannot be read just now. */
    method ServeSearch(lookup: RouteLookup, rows: seq<RouteRow>)
      returns (r: Result<seq<Json>>, ghost failing: set<string>)
      modifies this`asked
      ensures asked == old(asked) + 1 && failing == env.failing(old(asked))
      ensures r == SearchAnswer(store.cache, failing, RouteOf(lookup), rows)
    {
      var unreadable := env.failing(asked);
      failing := unreadable;
      asked := asked + 1;
      r := SearchRows(store.cache, unreadable, Lookup(lookup.operator, lookup.from, lookup.to, lookup.date), rows);
    }

    method ServeBusMap(lookup: RouteLookup, rows: seq<RouteRow>) returns (r: Result<Json>, ghost failing: set<string>)
      modifies this`asked
      ensures asked == old(asked) + 1 && failing == env.failing(old(asked))
      ensures r == BusMapRead(env.legacyBusMap, store.cache, failing, lookup, rows)
    {
      var unreadable := env.failing(asked);
      failing := unreadable;
      asked := asked + 1;
      r := BusMapRows(env.legacyBusMap, store.cache, unreadable, lookup, rows);
    }

    /** Search. */
    method Search(lookup: RouteLookup, credential: Credential)
      returns (r: Result<seq<Json>>, ghost view: View, ghost done: Verification)
      requires Valid()
      modifies this, store
      decreases Usable(credential), 5
      ensures Valid() && slots == old(slots)
      ensures Sound(old(store.log)) ==> Sound(store.log)
      ensures view.depth <= 2 && (!Usable(credential) ==> view.depth == 1)
      ensures old(liveFetches) <= liveFetches <= old(liveFetches) + 1
      ensures view.refreshed ==> liveFetches == old(liveFetches) + 1
      ensures !Usable(credential) || !env.refresherAttached ==>
                liveFetches == old(liveFetches) && records == old(records)
      ensures r == CachedSearch(store.cache, lookup, view)
      ensures !view.refreshed ==> store.log == old(store.log) && store.attempts == old(store.attempts)
      ensures ReadRows(old(StoreNow()), StoreNow(), SearchAction, lookup, credential, old(asked),
                       if view.rows == [] then asked else asked - 1, old(slots), view.metadataFailed, view.rows,
                       view.refreshed, done)
      ensures view.rows != [] ==> asked > 0 && view.failing == env.failing(asked - 1)
    {
      var failed, rows;
      ghost var refreshed;
      failed, rows, refreshed, done := CandidateRows(SearchAction, lookup, credential);
      view := View(failed, rows, {}, refreshed, done.view.depth + 1);
      if rows == [] {
        return Err(if failed then MetadataReadFailed else NotFound), view, done;
      }
      ghost var next, now, failing := asked, StoreNow(), {};
      r, failing := ServeSearch(lookup, rows);
      assert asked - 1 == next && StoreNow() == now;
      view := View(failed, rows, failing, refreshed, done.view.depth + 1);
    }

    /** BusMap. */
    method BusMap(lookup: RouteLookup, credential: Credential)
      returns (r: Result<Json>, ghost view: View, ghost done: Verification)
      requires Valid()
      modifies this, store
      decreases Usable(credential), 5
      ensures Valid() && slots == old(slots)
      ensures Sound(old(store.log)) ==> Sound(store.log)
      ensures view.depth <= 2 && (!Usable(credential) ==> view.depth == 1)
      ensures old(liveFetches) <= liveFetches <= old(liveFetches) + 1
      ensures view.refreshed ==> liveFetches == old(liveFetches) + 1
      ensures !Usable(credential) || !env.refresherAttached ==>
                liveFetches == old(liveFetches) && records == old(records)
      ensures r == CachedBusMap(env, store.cache, lookup, view)
      ensures !view.refreshed ==> store.log == old(store.log) && store.attempts == old(store.attempts)
      ensures ReadRows(old(StoreNow()), StoreNow(), BusMapAction, lookup, credential, old(asked),
                       if view.rows == [] then asked else asked - 1, old(slots), view.metadataFailed, view.rows,
                       view.refreshed, done)
      ensures view.rows != [] ==> asked > 0 && view.failing == env.failing(asked - 1)
    {
      var failed, rows;
      ghost var refreshed;
      failed, rows, refreshed, done := CandidateRows(BusMapAction, lookup, credential);
      view := View(failed, rows, {}, refreshed, done.view.depth + 1);
      if rows == [] {
        return Err(if failed then MetadataReadFailed else NotFound), view, done;
      }
      ghost var next, now, failing := asked, StoreNow(), {};
      r, failing := ServeBusMap(lookup, rows);
      assert asked - 1 == next && StoreNow() == now;
      view := View(failed, rows, failing, refreshed, done.view.depth + 1);
    }

    /** Every one of the rows is too old to serve without asking Bits. */
    ghost predicate AllStale(rows: set<RouteRow>, routes: map<RouteRow, int>, now: int) {
      forall r :: r in rows && r in routes ==> Stale(routes[r], now, env.hotMaxAge, env.warmMaxAge)
    }

    /** A refresh asked for at this question goes through: the operator has a zone, the gates are open, Bits answers. */
    ghost predicate RefreshGoesThrough(action: LiveAction, lookup: RouteLookup, question: nat, taken: nat,
                                       credential: Credential)
    {
      && env.refresherConfigured && env.zoneResolves(question) && Open(taken, question + 1, credential)
      && env.live(FetchNumber(question + 1), action, lookup).Answered?
    }

    /** Stale rows are refreshed exactly when it goes through, and then by what Bits answers. */
    ghost predicate ColdRefresh(before: Snapshot, after: Snapshot, action: LiveAction, lookup: RouteLookup,
                                rows: set<RouteRow>, question: nat, taken: nat, credential: Credential, refreshed: bool,
                                done: Verification)
    {
      && (refreshed <==>
            && env.refresherAttached && AllStale(rows, before.routes, env.now(question))
            && RefreshGoesThrough(action, lookup, question + 1, taken, credential))
      && (refreshed ==>
            && env.live(FetchNumber(question + 2), action, lookup) == Answered(done.answer)
            && Concluded(before, after, action, lookup, done))
    }

    /** The rows listed anew, where that second listing finds any, else those from before. */
    ghost predicate Relisted(rows: seq<RouteRow>, before: map<RouteRow, int>, after: map<RouteRow, int>,
                             action: LiveAction, lookup: RouteLookup, question: nat)
    {
      if !env.metadataFails(question) && RowsOf(after, action, lookup) != {} then ListsRows(rows, after, action, lookup)
      else ListsRows(rows, before, action, lookup)
    }

    /**
     * The rows a read answers from, by the number of its first question and of the next: it refreshes a cold
     * route exactly when that goes through, and takes the rows as they are then.
     */
    ghost predicate ReadRows(before: Snapshot, after: Snapshot, action: LiveAction, lookup: RouteLookup,
                             credential: Credential, first: nat, next: int, taken: nat, failed: bool,
                             rows: seq<RouteRow>, refreshed: bool, done: Verification)
    {
      && (failed <==> env.metadataFails(first))
      && if failed || RowsOf(before.routes, action, lookup) == {} then rows == [] && !refreshed
         else
           && rows != []
           && ColdRefresh(before, after, action, lookup, RowsOf(before.routes, action, lookup), first + 1, taken,
                          credential, refreshed, done)
           && if refreshed then next > 0 && Relisted(rows, before.routes, after.routes, action, lookup, next - 1)
              else ListsRows(rows, before.routes, action, lookup)
    }

    lemma ListedRowsAreTheRows(rows: seq<RouteRow>, routes: map<RouteRow, int>, action: LiveAction, lookup: RouteLookup)
      requires ListsRows(rows, routes, action, lookup)
      ensures (set r | r in rows) == RowsOf(routes, action, lookup)
      ensures rows == [] <==> RowsOf(routes, action, lookup) == {}
    {
      assert forall r :: r in rows <==> r in RowsOf(routes, action, lookup);
      if rows != [] {
        assert rows[0] in rows;
      }
    }

    lemma NoRowsAreListed(routes: map<RouteRow, int>, action: LiveAction, lookup: RouteLookup)
      requires RowsOf(routes, action, lookup) == {}
      ensures ListsRows([], routes, action, lookup)
    {
      assert forall r :: r in routes && RowMatches(r, RouteOf(lookup))
                         && (action == BusMapAction ==> r.trip == lookup.trip)
                         ==> r in RowsOf(routes, action, lookup);
    }

    /** A plain read lists what there is. */
    lemma UnrefreshedRead(before: Snapshot, after: Snapshot, action: LiveAction, lookup: RouteLookup,
                          credential: Credential, first: nat, next: int, taken: nat, view: View, done: Verification)
      requires ReadRows(before, after, action, lookup, credential, first, next, taken, view.metadataFailed, view.rows,
                        view.refreshed, done)
      requires !view.refreshed && view.depth == 1
      ensures PlainView(view, before.routes, action, lookup)
    {
      if RowsOf(before.routes, action, lookup) == {} {
        NoRowsAreListed(before.routes, action, lookup);
      }
    }

    lemma ColdMeansAllStale(rows: seq<RouteRow>, routes: map<RouteRow, int>, newest: int, now: int)
      requires (forall r :: r in rows ==> r in routes) && IsNewest(newest, rows, routes)
      ensures ClassifyFreshness(newest, now, env.hotMaxAge, env.warmMaxAge) == Cold
              <==> AllStale((set r | r in rows), routes, now)
    {
      ColdMeansEveryRowIsStale(rows, routes, newest, now, env.hotMaxAge, env.warmMaxAge);
    }

    /** refreshIfCold: a refresh goes through exactly when every row is stale and every gate open. */
    method RefreshIfCold(action: LiveAction, lookup: RouteLookup, rows: seq<RouteRow>, credential: Credential)
      returns (refreshed: bool, ghost done: Verification)
      requires Valid() && forall r :: r in rows ==> r in store.routes
      modifies this, store
      decreases Usable(credential), 3
      ensures Valid() && slots == old(slots)
      ensures Sound(old(store.log)) ==> Sound(store.log)
      ensures done.view.depth <= 1 && (!Usable(credential) ==> done.view.depth == 0)
      ensures old(liveFetches) <= liveFetches <= old(liveFetches) + 1
      ensures refreshed ==> liveFetches == old(liveFetches) + 1
      ensures !Usable(credential) || !env.refresherAttached ==>
                liveFetches == old(liveFetches) && records == old(records)
      ensures liveFetches > old(liveFetches) ==> AllStale((set r | r in rows), old(store.routes), env.now(old(asked)))
      ensures ColdRefresh(old(StoreNow()), StoreNow(), action, lookup, (set r | r in rows), old(asked), old(slots),
                          credential, refreshed, done)
      ensures !refreshed ==> store.log == old(store.log) && store.attempts == old(store.attempts)
    {
      done := NothingDone();
      var cold := IsCold(rows);
      if !cold {
        return false, done;
      }
      refreshed, done := RefreshCold(action, lookup, credential);
    }

    /** The tier of a route with a refresher: Cold exactly when every row is stale. */
    method IsCold(rows: seq<RouteRow>) returns (cold: bool)
      requires Valid() && forall r :: r in rows ==> r in store.routes
      modifies this`asked
      ensures asked == old(asked) + (if env.refresherAttached then 1 else 0)
      ensures cold <==> env.refresherAttached && AllStale((set r | r in rows), store.routes, env.now(old(asked)))
    {
      if !env.refresherAttached {
        return false;
      }
      var now := env.now(asked);
      asked := asked + 1;
      var newest := NewestUpdatedAt(rows, store.routes);
      ColdMeansAllStale(rows, store.routes, newest, now);
      cold := ClassifyFreshness(newest, now, env.hotMaxAge, env.warmMaxAge) == Cold;
    }

    /** The gates before a live fetch stand open: a free slot, a credential, and the limiter's answer. */
    ghost predicate Open(taken: nat, question: nat, credential: Credential) {
      taken < maxSlots && Usable(credential) && (env.limiterConfigured ==> !Blocks(env.quota(question)))
    }

    /** The number of the live fetch that follows the limiter's question. */
    ghost function FetchNumber(question: nat): nat {
      if env.limiterConfigured then question + 1 else question
    }

    /**
     * RefreshCold: the credential gate that closes the recursion. It reports true exactly when Bits
     * answered; the cache was repaired exactly when it could be read and the guards of the repair held.
     */
    method RefreshCold(action: LiveAction, lookup: RouteLookup, credential: Credential)
      returns (refreshed: bool, ghost done: Verification)
      requires Valid()
      modifies this, store
      decreases Usable(credential), 2
      ensures Valid() && slots == old(slots)
      ensures Sound(old(store.log)) ==> Sound(store.log)
      ensures done.view.depth <= 1 && (!Usable(credential) ==> done.view.depth == 0)
      ensures old(liveFetches) <= liveFetches <= old(liveFetches) + 1
      ensures refreshed ==> Usable(credential) && liveFetches == old(liveFetches) + 1
      ensures !Usable(credential) ==> liveFetches == old(liveFetches) && records == old(records)
      ensures !refreshed ==> store.log == old(store.log) && store.attempts == old(store.attempts)
      ensures refreshed <==> RefreshGoesThrough(action, lookup, old(asked), old(slots), credential)
      ensures refreshed ==>
                && env.live(FetchNumber(old(asked) + 1), action, lookup) == Answered(done.answer)
                && Concluded(old(StoreNow()), StoreNow(), action, lookup, done)
                && RepairedExactly(old(StoreNow()), action, lookup, done)
    {
      done := NothingDone();
      var usable := !Blank(credential.username) && !Blank(credential.apiToken);
      if !env.refresherConfigured || !usable {
        return false, done;
      }
      var resolves := env.zoneResolves(asked);
      asked := asked + 1;
      if !resolves {
        return false, done;
      }
      ghost var before := StoreNow();
      var result;
      result, done := Verify(action, lookup, credential);
      refreshed := result.Served?;
      if refreshed {
        OutcomeTellsUnreadable(before, StoreNow(), action, lookup, done);
      }
    }

    /** The part of Verify after the slot is given back: repair, companion search, difference row. */
    method Settle(action: LiveAction, lookup: RouteLookup, answer: LiveAnswer, outcome: VerificationOutcome, total: nat,
                  ghost view: View) returns (ghost done: Verification)
      requires Valid()
      modifies this`asked, this`records, store
      ensures Valid()
      ensures Sound(old(store.log)) ==> Sound(store.log)
      ensures done.view == view && done.answer == answer && done.outcome == outcome && done.differences == total
      ensures Settled(old(StoreNow()), StoreNow(), action, lookup, done)
      ensures done.companion == old(asked) + |SplitLive(answer.plain)|
      ensures records == old(records) + (if outcome == Match then [] else [Recorded(outcome, total, done.repaired)])
    {
      done := Verification(view, answer, outcome, total, false, k => 0, StoreNow(),
                           asked + |SplitLive(answer.plain)|, k => 0);
      var repaired := false;
      if outcome != SourceUnavailable {
        repaired, done := RepairAndAccompany(action, lookup, answer, done);
      }
      if outcome != Match {
        records := records + [Recorded(outcome, total, repaired)];
      }
    }

    /** The repair, and for a busmap the companion search. */
    method RepairAndAccompany(action: LiveAction, lookup: RouteLookup, answer: LiveAnswer, ghost seen: Verification)
      returns (repaired: bool, ghost done: Verification)
      requires Valid() && seen.outcome != SourceUnavailable && seen.answer == answer
      modifies this`asked, store
      ensures Valid()
      ensures Sound(old(store.log)) ==> Sound(store.log)
      ensures done == seen.(repaired := repaired, clock := done.clock, middle := done.middle, later := done.later,
                            companion := old(asked) + |SplitLive(answer.plain)|)
      ensures Settled(old(StoreNow()), StoreNow(), action, lookup, done)
    {
      ghost var clock, later := k => 0, k => 0;
      repaired, clock := RepairCache(action, lookup, answer);
      done := seen.(repaired := repaired, clock := clock, middle := StoreNow(), companion := asked);
      if action == BusMapAction {
        later := RefreshSearchCacheForBusMap(lookup);
        done := done.(later := later);
      }
    }

    /** The gates before the fetch: each refuses exactly for its cause, and a refusal leaves no slot taken. */
    method Admit(credential: Credential) returns (refusal: Option<VerifyResult>)
      requires Valid()
      modifies this`slots, this`asked
      ensures Valid()
      ensures refusal.None? <==> Open(old(slots), old(asked), credential)
      ensures refusal.None? ==> slots == old(slots) + 1 && asked == FetchNumber(old(asked))
      ensures refusal.Some? ==>
                && slots == old(slots)
                && refusal.value == if old(slots) == maxSlots then Busy
                                    else if !Usable(credential) then CredentialUnavailable
                                    else RateLimited(env.quota(old(asked)).value.retryAfter)
    {
      if slots == maxSlots {
        return Some(Busy);
      }
      slots := slots + 1;
      if Blank(credential.username) || Blank(credential.apiToken) {
        slots := slots - 1;
        return Some(CredentialUnavailable);
      }
      if env.limiterConfigured {
        var quota := env.quota(asked);
        asked := asked + 1;
        if Blocks(quota) {
          slots := slots - 1;
          return Some(RateLimited(quota.value.retryAfter));
        }
      }
      refusal := None;
    }

    /** What a fetch leads to: its result, and the difference row it leaves unless the answer matched or was refused. */
    ghost predicate Reported(reply: LiveReply, result: VerifyResult, before: seq<Recorded>, after: seq<Recorded>,
                             done: Verification)
    {
      match reply
      case Rejected => result == FetchFailed(SourceRejected) && after == before
      case Unavailable =>
        result == FetchFailed(SourceUnavailable) && after == before + [Recorded(SourceUnavailable, 0, false)]
      case Answered(answer) =>
        && answer == done.answer && result == Served(answer.data, done.outcome, done.differences)
        && after == before
                    + (if done.outcome == Match then []
                       else [Recorded(done.outcome, done.differences, done.repaired)])
    }

    /**
     * Verify: the slot taken is given back on every path and no more than maxSlots are ever taken; the
     * cache changes only after an answered fetch; the outcome compares the answer with what a plain
     * cached read finds; every outcome but a match and a rejection leaves one difference row.
     */
    method Verify(action: LiveAction, lookup: RouteLookup, credential: Credential)
      returns (result: VerifyResult, ghost done: Verification)
      requires Valid()
      modifies this, store
      decreases Usable(credential), 1
      ensures Valid() && slots == old(slots)
      ensures Sound(old(store.log)) ==> Sound(store.log)
      ensures done.view.depth <= 1
      ensures !Open(old(slots), old(asked), credential) ==>
                && liveFetches == old(liveFetches) && records == old(records) && store.log == old(store.log)
                && result == if old(slots) == maxSlots then Busy
                             else if !Usable(credential) then CredentialUnavailable
                             else RateLimited(env.quota(old(asked)).value.retryAfter)
      ensures Open(old(slots), old(asked), credential) ==>
                && liveFetches == old(liveFetches) + 1
                && Reported(env.live(FetchNumber(old(asked)), action, lookup), result, old(records), records, done)
      ensures !result.Served? ==> store.log == old(store.log) && store.attempts == old(store.attempts)
      ensures result.Served? ==> Concluded(old(StoreNow()), StoreNow(), action, lookup, done)
    {
      done := NothingDone();
      var refusal := Admit(credential);
      if refusal.Some? {
        return refusal.value, done;
      }
      result, done := FetchLive(action, lookup);
    }

    /** Verify with its slot held: the live fetch, and what its answer leads to. */
    method FetchLive(action: LiveAction, lookup: RouteLookup) returns (result: VerifyResult, ghost done: Verification)
      requires Valid() && slots > 0
      modifies this, store
      decreases false, 9
      ensures Valid() && slots == old(slots) - 1 && liveFetches == old(liveFetches) + 1
      ensures Sound(old(store.log)) ==> Sound(store.log)
      ensures done.view.depth <= 1
      ensures Reported(env.live(old(asked), action, lookup), result, old(records), records, done)
      ensures !result.Served? ==> store.log == old(store.log) && store.attempts == old(store.attempts)
      ensures result.Served? ==> Concluded(old(StoreNow()), StoreNow(), action, lookup, done)
    {
      done := NothingDone();
      var reply := env.live(asked, action, lookup);
      asked, liveFetches := asked + 1, liveFetches + 1;
      if !reply.Answered? {
        slots := slots - 1;
        if reply.Rejected? {
          return FetchFailed(SourceRejected), done;
        }
        records := records + [Recorded(SourceUnavailable, 0, false)];
        return FetchFailed(SourceUnavailable), done;
      }
      result, done := ServeAnswer(action, lookup, reply.answer);
    }

    /** Verify with its slot held and an answer fetched: compare, give the slot back, settle. */
    method ServeAnswer(action: LiveAction, lookup: RouteLookup, answer: LiveAnswer)
      returns (result: VerifyResult, ghost done: Verification)
      requires Valid() && slots > 0
      modifies this, store
      decreases false, 8
      ensures Valid() && slots == old(slots) - 1 && liveFetches == old(liveFetches)
      ensures Sound(old(store.log)) ==> Sound(store.log)
      ensures result == Served(answer.data, done.outcome, done.differences) && done.answer == answer
      ensures done.view.depth <= 1
      ensures records == old(records)
                         + (if done.outcome == Match then []
                            else [Recorded(done.outcome, done.differences, done.repaired)])
      ensures Concluded(old(StoreNow()), StoreNow(), action, lookup, done)
    {
      var outcome, total;
      ghost var view;
      outcome, total, view := CompareAgainstCache(action, lookup, answer.data);
      slots := slots - 1;
      done := Settle(action, lookup, answer, outcome, total, view);
      result := Served(answer.data, outcome, total);
    }

    /** compareAgainstCache; the cached entries are read without a credential. */
    method CompareAgainstCache(action: LiveAction, lookup: RouteLookup, data: LiveData)
      returns (outcome: VerificationOutcome, total: nat, ghost view: View)
      requires Valid()
      modifies this, store
      decreases false, 7
      ensures Valid() && slots == old(slots) && liveFetches == old(liveFetches) && records == old(records)
      ensures store.log == old(store.log) && store.attempts == old(store.attempts) && view.depth <= 1
      ensures !env.readerConfigured ==> outcome == SourceUnavailable && total == 0
      ensures env.readerConfigured ==>
                && PlainView(view, old(store.routes), action, lookup)
                && IsOutcome(env, CachedCopy(env, old(store.cache), action, lookup, view), data, outcome, total)
    {
      if !env.readerConfigured {
        return SourceUnavailable, 0, NO_VIEW;
      }
      var cached;
      cached, view := CachedEntries(action, lookup);
      outcome, total := CompareCopies(env, cached, data);
    }

    /** cachedEntries: what a read that refreshes nothing serves. */
    method CachedEntries(action: LiveAction, lookup: RouteLookup) returns (r: Result<seq<Json>>, ghost view: View)
      requires Valid()
      modifies this, store
      decreases false, 6
      ensures Valid() && slots == old(slots) && liveFetches == old(liveFetches) && records == old(records)
      ensures store.log == old(store.log) && store.attempts == old(store.attempts)
      ensures PlainView(view, old(store.routes), action, lookup)
      ensures r == CachedCopy(env, old(store.cache), action, lookup, view)
    {
      assert !Usable(NO_CREDENTIAL) by {
        assert TrimSpace("") == "";
      }
      ghost var before, first, nothing := StoreNow(), asked, NothingDone();
      if action == BusMapAction {
        var entry;
        entry, view, nothing := BusMap(lookup, NO_CREDENTIAL);
        r := if entry.Ok? then Ok([entry.value]) else Err(entry.error);
      } else {
        r, view, nothing := Search(lookup, NO_CREDENTIAL);
      }
      UnrefreshedRead(before, StoreNow(), action, lookup, NO_CREDENTIAL, first,
                      if view.rows == [] then asked else asked - 1, slots, view, nothing);
    }
  }

  // ---------- a refresh that repairs nothing ----------

  const OBJECT_ANSWER: LiveAnswer := RawAnswer(Obj(map["tripCode" := Str("t")]), Obj(map["tripCode" := Str("t")]))

  /** Everything configured, no quota, and Bits answering with a single object. */
  function ObjectEnvironment(): Environment {
    Environment(
      _ => false, _ => {}, _ => 1, _ => true, _ => None, (_, _, _) => Answered(OBJECT_ANSWER),
      (_, _, _) => Err(NotFound), _ => "", 0, 0, true, true, false, true, true)
  }

  lemma LettersAreUsable()
    ensures Usable(Credential("u", "p"))
  {
  }

  /** A cold busmap read whose live answer is a single object, with every write going through. */
  method ColdBusMapObjectIsNotRepaired() returns (refreshed: bool, ghost done: Verification)
    ensures refreshed && done.answer.data.Obj? && !Empty(done.answer.data) && !done.repaired
  {
    var store := new TripDetailsStorage(_ => Stored);
    var service := new LiveReadService(store, ObjectEnvironment(), 1);
    LettersAreUsable();
    refreshed, done := service.RefreshCold(BusMapAction, RouteLookup("o", "t", "a", "b", "d"), Credential("u", "p"));
    assert done.answer == OBJECT_ANSWER && "tripCode" in OBJECT_ANSWER.data.members;
  }
}
