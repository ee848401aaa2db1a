/** When a second live read of a trip matches after the first one: the BUSMAP action. */
module BusMapReverification {
  import opened Wrappers
  import opened Text
  import opened JsonTree
  import opened Canonical
  import opened ContentRelation
  import opened Stations
  import opened Documents
  import opened Storage
  import opened LastWriter
  import opened Overlays
  import opened Reader
  import opened Pairing
  import opened LiveCopy
  import opened LiveReads
  import opened Reverification

  // ---------- comparing with one busmap ----------

  /** A live entry is the cached one: same identity, same content. */
  ghost predicate SameEntry(env: Environment, cached: Json, live: Json) {
    && IdentityOf(Raw(env, cached)) == IdentityOf(Raw(env, live))
    && Related(Canonicalise(cached), Canonicalise(live))
  }

  lemma OneCachedAgrees(env: Environment, cached: Json, live: Entry)
    requires live.tree.Some?
    ensures Agrees([Raw(env, cached)], live)
            <==> && IdentityOf(live) == IdentityOf(Raw(env, cached))
                 && Related(Canonicalise(cached), Canonicalise(live.tree.value))
  {
    assert LastWith([Raw(env, cached)], IdentityOf(live))
        == if IdentityOf(live) == IdentityOf(Raw(env, cached)) then Some(Raw(env, cached)) else None;
  }

  /** A non-empty answer has the contents of one cached entry exactly when each of its entries is that entry. */
  lemma OneCachedContents(env: Environment, cached: Json, data: LiveData)
    requires !Empty(data)
    ensures SameContents(env, Ok([cached]), data) <==> forall x :: x in SplitLive(data) ==> SameEntry(env, cached, x)
  {
    var before, values := RawAll(env, [cached]), SplitLive(data);
    var live := RawAll(env, values);
    assert before == [Raw(env, cached)];
    AllRawAgree(env, before, values);
    forall x | x in values ensures Agrees(before, Raw(env, x)) <==> SameEntry(env, cached, x) {
      OneCachedAgrees(env, cached, Raw(env, x));
    }
    if forall x :: x in values ==> SameEntry(env, cached, x) {
      OnlyIdentity(env, cached, values);
    }
  }

  lemma OnlyIdentity(env: Environment, cached: Json, values: seq<Json>)
    requires values != [] && forall x :: x in values ==> SameEntry(env, cached, x)
    ensures Identities([Raw(env, cached)]) == Identities(RawAll(env, values))
  {
    RawMembers(env, values);
    assert Raw(env, values[0]) in RawAll(env, values);
  }

  // ---------- a busmap read of a history ----------

  /** A stored busmap is what every entry of the answer says. */
  ghost predicate IsBusMap(env: Environment, stored: Option<map<string, Json>>, data: LiveData) {
    stored.Some? && forall x :: x in SplitLive(data) ==> SameEntry(env, Obj(stored.value), x)
  }

  /** Over any history, an answer matches exactly when each of its entries is the busmap of the first stage to serve. */
  lemma BusMapMatches(env: Environment, h: seq<StoredEntry>, l: RouteLookup, data: LiveData, rows: seq<RouteRow>)
    requires ValidHistory(h) && ListsTrip(rows, RoutesOf(HistoryWrites(h)), l) && !Empty(data)
    ensures var first := FirstWith(rows, ServedBy(h, RouteOf(l)));
            Matches(env, h, BusMapAction, l, data, rows)
            <==> first.Some? && IsBusMap(env, LastBusMap(h, l.operator, l.trip, first.value.stage), data)
  {
    var served := ServedStages(h, RouteOf(l), rows);
    BusMapReturnsLastResponse(h, env.legacyBusMap, l, rows);
    FirstServed(h, RouteOf(l), rows);
    if served != [] && LastBusMap(h, l.operator, l.trip, served[0].row.stage).Some? {
      OneCachedContents(env, Obj(LastBusMap(h, l.operator, l.trip, served[0].row.stage).value), data);
    }
  }

  // ---------- after a first live read ----------

  /**
   * What a first live read of the trip leaves: the entries of its list, none when it is a single object, and
   * then those of the companion search.
   */
  ghost function HistoryAfterBusMap(h: seq<StoredEntry>, l: RouteLookup, stored: seq<Json>, clock: nat -> int,
                                    companion: seq<Json>, later: nat -> int): (after: seq<StoredEntry>)
    requires ValidHistory(h) && AllStorable(SearchBusMap, l.operator, stored)
    requires AllStorable(Action.Search, l.operator, companion)
    ensures ValidHistory(after)
  {
    var middle := h + HistoryOf(SearchBusMap, l.operator, stored, clock);
    SuccessfulRequestExtendsHistory(h, SearchBusMap, l.operator, stored, clock);
    SuccessfulRequestExtendsHistory(middle, Action.Search, l.operator, companion, later);
    middle + HistoryOf(Action.Search, l.operator, companion, later)
  }

  /** The stage of a row after that: the companion's last, else the answer's, else the earlier one. */
  ghost function StageLeft(h: seq<StoredEntry>, l: RouteLookup, stored: seq<Json>, companion: seq<Json>, r: RouteRow)
    : Option<map<string, Json>>
  {
    Over(LastOfStage(companion, r.trip, r.stage),
         Over(LastOfStage(stored, r.trip, r.stage), LastStage(h, l.operator, r.trip, r.stage)))
  }

  ghost function StillServes(h: seq<StoredEntry>, l: RouteLookup, stored: seq<Json>, companion: seq<Json>)
    : RouteRow -> bool
  {
    (r: RouteRow) =>
      var stage := StageLeft(h, l, stored, companion, r);
      stage.Some? && Passes(StoredStage(stage.value), l.from, l.to)
  }

  /** The busmap of a stage after that: the answer's last, else the earlier one. */
  ghost function BusMapLeft(h: seq<StoredEntry>, l: RouteLookup, stored: seq<Json>, stage: string)
    : Option<map<string, Json>>
  {
    Over(LastOfStage(stored, l.trip, stage), LastBusMap(h, l.operator, l.trip, stage))
  }

  lemma BusMapOverlays(h: seq<StoredEntry>, l: RouteLookup, stored: seq<Json>, clock: nat -> int, companion: seq<Json>,
                       later: nat -> int, r: RouteRow)
    requires ValidHistory(h) && AllStorable(SearchBusMap, l.operator, stored)
    requires AllStorable(Action.Search, l.operator, companion) && l.operator != "" && r.operator == l.operator
    ensures var after := HistoryAfterBusMap(h, l, stored, clock, companion, later);
            && LastStage(after, l.operator, r.trip, r.stage) == StageLeft(h, l, stored, companion, r)
            && LastBusMap(after, l.operator, l.trip, r.stage) == BusMapLeft(h, l, stored, r.stage)
  {
    var middle := h + HistoryOf(SearchBusMap, l.operator, stored, clock);
    RequestOverlays(h, SearchBusMap, l.operator, stored, clock, r.trip, r.stage);
    RequestOverlays(h, SearchBusMap, l.operator, stored, clock, l.trip, r.stage);
    RequestOverlays(middle, Action.Search, l.operator, companion, later, r.trip, r.stage);
    RequestOverlays(middle, Action.Search, l.operator, companion, later, l.trip, r.stage);
  }

  /**
   * A second live read of a trip matches if and only if some candidate row still serves and every entry of
   * the answer is the busmap left for the stage of the first such row.
   */
  lemma BusMapSecondRead(env: Environment, h: seq<StoredEntry>, l: RouteLookup, data: LiveData, stored: seq<Json>,
                         clock: nat -> int, companion: seq<Json>, later: nat -> int, rows: seq<RouteRow>)
    requires ValidHistory(h) && AllStorable(SearchBusMap, l.operator, stored) && !Empty(data)
    requires AllStorable(Action.Search, l.operator, companion)
    requires ListsTrip(rows, RoutesOf(HistoryWrites(HistoryAfterBusMap(h, l, stored, clock, companion, later))), l)
    ensures var first := FirstWith(rows, StillServes(h, l, stored, companion));
            Matches(env, HistoryAfterBusMap(h, l, stored, clock, companion, later), BusMapAction, l, data, rows)
            <==> first.Some? && IsBusMap(env, BusMapLeft(h, l, stored, first.value.stage), data)
  {
    var after := HistoryAfterBusMap(h, l, stored, clock, companion, later);
    BusMapMatches(env, after, l, data, rows);
    forall r | r in rows
      ensures ServedBy(after, RouteOf(l))(r) == StillServes(h, l, stored, companion)(r)
      ensures LastBusMap(after, l.operator, l.trip, r.stage) == BusMapLeft(h, l, stored, r.stage)
    {
      IndexedRowsAreColonFree(after, r);
      BlankMeansNothing();
      BusMapOverlays(h, l, stored, clock, companion, later, r);
    }
    SameFirst(rows, ServedBy(after, RouteOf(l)), StillServes(h, l, stored, companion));
    FirstIsListed(rows, ServedBy(after, RouteOf(l)));
  }

  /** So an answer with entries of two identities never matches, whatever was stored. */
  lemma TwoIdentitiesNeverMatch(env: Environment, h: seq<StoredEntry>, l: RouteLookup, data: LiveData,
                                rows: seq<RouteRow>, x: Json, y: Json)
    requires ValidHistory(h) && ListsTrip(rows, RoutesOf(HistoryWrites(h)), l) && !Empty(data)
    requires x in SplitLive(data) && y in SplitLive(data) && IdentityOf(Raw(env, x)) != IdentityOf(Raw(env, y))
    ensures !Matches(env, h, BusMapAction, l, data, rows)
  {
    BusMapMatches(env, h, l, data, rows);
  }

  // ---------- single objects ----------

  lemma {:induction false} LogsKeepKeys(log: seq<Write>, more: seq<Write>, n: nat)
    requires n <= |more|
    ensures CacheOf(log + more[..n]).Keys <= CacheOf(log + more).Keys
    ensures RoutesOf(log + more[..n]).Keys <= RoutesOf(log + more).Keys
    decreases |more| - n
  {
    if n == |more| {
      assert more[..n] == more;
    } else {
      LogsKeepKeys(log, more, n + 1);
      TakeOneMore(more, n);
      AppendIsAssociative(log, more[..n], [more[n]]);
      ReplayOne(log + more[..n], more[n]);
    }
  }

  /** A search, stopped anywhere, adds no busmap to a trip. */
  lemma SearchesAddNoBusMap(h: seq<StoredEntry>, l: RouteLookup, companion: seq<Json>, later: nat -> int, n: nat,
                            r: RouteRow)
    requires ValidHistory(h) && AllStorable(Action.Search, l.operator, companion)
    requires n <= |AllWrites(Action.Search, l.operator, companion, later)|
    requires forall s :: LastBusMap(h, l.operator, l.trip, s).None?
    requires var log := HistoryWrites(h) + AllWrites(Action.Search, l.operator, companion, later)[..n];
             r in RoutesOf(log) && RowMatches(r, RouteOf(l)) && r.trip == l.trip
    ensures RowKeysValid(r)
    ensures var log := HistoryWrites(h) + AllWrites(Action.Search, l.operator, companion, later)[..n];
            BusMapKey(r.operator, r.trip, r.stage) !in CacheOf(log)
  {
    var after := h + HistoryOf(Action.Search, l.operator, companion, later);
    var key := BusMapKey(r.operator, r.trip, r.stage);
    SuccessfulRequestExtendsHistory(h, Action.Search, l.operator, companion, later);
    LogsKeepKeys(HistoryWrites(h), AllWrites(Action.Search, l.operator, companion, later), n);
    IndexedRowsAreColonFree(after, r);
    BlankMeansNothing();
    RequestOverlays(h, Action.Search, l.operator, companion, later, r.trip, r.stage);
    DocumentsAreLastWriters(after, r.operator, r.trip, r.stage);
    CacheHoldsLastDocuments(HistoryWrites(after), key);
  }

  lemma {:induction false} ResolvedRowsAreListed(cache: map<string, Json>, lookup: Lookup, rows: seq<RouteRow>)
    requires forall r :: r in rows ==> RowKeysValid(r)
    ensures ResolveAll(cache, {}, lookup, rows).Ok?
    ensures forall s :: s in ResolveAll(cache, {}, lookup, rows).value ==> s.row in rows
  {
    if rows != [] {
      SplitLast(rows);
      ResolvedRowsAreListed(cache, lookup, rows[..|rows| - 1]);
    }
  }

  /** Without a busmap for any candidate row, a busmap read finds nothing. */
  lemma NoBusMapMeansNotFound(legacy: LegacyMerge, cache: map<string, Json>, l: RouteLookup, rows: seq<RouteRow>)
    requires forall r :: r in rows ==> RowKeysValid(r) && BusMapKey(r.operator, r.trip, r.stage) !in cache
    ensures BusMapRead(legacy, cache, {}, l, rows) == Err(NotFound)
  {
    ResolvedRowsAreListed(cache, RouteOf(l), rows);
  }

  /**
   * A single live object is never stored, so while no busmap of the trip is, every read of it is
   * CACHE_MISSING, wherever the companion searches stop.
   */
  lemma BusMapObjectStaysMissing(env: Environment, h: seq<StoredEntry>, l: RouteLookup, data: LiveData,
                                 companion: seq<Json>, later: nat -> int, n: nat, rows: seq<RouteRow>,
                                 outcome: VerificationOutcome, total: nat)
    requires ValidHistory(h) && AllStorable(Action.Search, l.operator, companion) && !Empty(data)
    requires n <= |AllWrites(Action.Search, l.operator, companion, later)|
    requires forall s :: LastBusMap(h, l.operator, l.trip, s).None?
    requires var log := HistoryWrites(h) + AllWrites(Action.Search, l.operator, companion, later)[..n];
             ListsTrip(rows, RoutesOf(log), l)
    ensures var log := HistoryWrites(h) + AllWrites(Action.Search, l.operator, companion, later)[..n];
            IsOutcome(env, CachedCopy(env, CacheOf(log), BusMapAction, l, PlainRead(rows)), data, outcome, total)
            <==> outcome == CacheMissing && total == 0
  {
    var log := HistoryWrites(h) + AllWrites(Action.Search, l.operator, companion, later)[..n];
    forall r | r in rows ensures RowKeysValid(r) && BusMapKey(r.operator, r.trip, r.stage) !in CacheOf(log) {
      SearchesAddNoBusMap(h, l, companion, later, n, r);
    }
    NoBusMapMeansNotFound(env.legacyBusMap, CacheOf(log), l, rows);
  }
}
