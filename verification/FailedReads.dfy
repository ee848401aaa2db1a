/** What a cached read answers when some document cannot be read. */
module FailedReads {
  import opened Wrappers
  import opened JsonTree
  import opened Stations
  import opened Documents
  import opened LastWriter
  import opened Reader

  ghost predicate StageFails(failing: set<string>, r: RouteRow) {
    StageKey(r.operator, r.trip, r.stage) in failing
  }

  ghost predicate TripFails(failing: set<string>, r: RouteRow) {
    TripKey(r.operator, r.trip) in failing
  }

  ghost predicate SomeStageFails(failing: set<string>, rows: seq<RouteRow>) {
    rows != [] && (SomeStageFails(failing, rows[..|rows| - 1]) || StageFails(failing, rows[|rows| - 1]))
  }

  ghost predicate SomeTripFails(h: seq<StoredEntry>, failing: set<string>, lookup: Lookup, rows: seq<RouteRow>) {
    rows != [] &&
    var last := rows[|rows| - 1];
    || SomeTripFails(h, failing, lookup, rows[..|rows| - 1])
    || (RowServes(h, lookup, last) && TripFails(failing, last))
  }

  /** Some document the read needs cannot be read: a listed stage, or the trip of a listed row that serves. */
  ghost predicate NeedsFailingDocument(h: seq<StoredEntry>, failing: set<string>, lookup: Lookup,
                                       rows: seq<RouteRow>) {
    exists r :: r in rows && (StageFails(failing, r) || (RowServes(h, lookup, r) && TripFails(failing, r)))
  }

  lemma {:induction false} SomeStageFailsMeans(failing: set<string>, rows: seq<RouteRow>)
    ensures SomeStageFails(failing, rows) <==> exists r :: r in rows && StageFails(failing, r)
  {
    if rows != [] {
      SplitLast(rows);
      SomeStageFailsMeans(failing, rows[..|rows| - 1]);
      assert rows[|rows| - 1] in rows;
    }
  }

  lemma {:induction false} SomeTripFailsMeans(h: seq<StoredEntry>, failing: set<string>, lookup: Lookup,
                                              rows: seq<RouteRow>)
    ensures SomeTripFails(h, failing, lookup, rows)
            <==> exists r :: r in rows && RowServes(h, lookup, r) && TripFails(failing, r)
  {
    if rows != [] {
      SplitLast(rows);
      SomeTripFailsMeans(h, failing, lookup, rows[..|rows| - 1]);
      assert rows[|rows| - 1] in rows;
    }
  }

  lemma NeedsMeans(h: seq<StoredEntry>, failing: set<string>, lookup: Lookup, rows: seq<RouteRow>)
    ensures NeedsFailingDocument(h, failing, lookup, rows)
            <==> SomeStageFails(failing, rows) || SomeTripFails(h, failing, lookup, rows)
  {
    SomeStageFailsMeans(failing, rows);
    SomeTripFailsMeans(h, failing, lookup, rows);
  }

  lemma FailingRowFails(h: seq<StoredEntry>, failing: set<string>, lookup: Lookup, r: RouteRow)
    requires ValidHistory(h) && r in RoutesOf(HistoryWrites(h))
    ensures var cache := CacheOf(HistoryWrites(h));
            ResolveOne(cache, failing, lookup, r)
            == if StageFails(failing, r) then Err(ContentReadFailed) else ResolveOne(cache, {}, lookup, r)
  {
    HistoryRowResolves(h, lookup, r);
  }

  lemma {:induction false} ResolvingFails(h: seq<StoredEntry>, failing: set<string>, lookup: Lookup,
                                          rows: seq<RouteRow>)
    requires ValidHistory(h) && AllIndexed(h, rows)
    ensures ResolveAll(CacheOf(HistoryWrites(h)), failing, lookup, rows)
            == if SomeStageFails(failing, rows) then Err(ContentReadFailed) else Ok(ServedStages(h, lookup, rows))
  {
    if rows != [] {
      var front, last := rows[..|rows| - 1], rows[|rows| - 1];
      var served := ServedStages(h, lookup, front);
      assert served + [] == served;
      ResolvingFails(h, failing, lookup, front);
      FailingRowFails(h, failing, lookup, last);
      HistoryRowResolves(h, lookup, last);
    }
  }

  lemma FailingTripFails(h: seq<StoredEntry>, failing: set<string>, r: RouteRow, stage: map<string, Json>)
    requires ValidHistory(h) && r in RoutesOf(HistoryWrites(h))
    ensures var cache := CacheOf(HistoryWrites(h));
            RebuildOne(cache, failing, Resolved(r, stage))
            == if TripFails(failing, r) then Err(ContentReadFailed) else RebuildOne(cache, {}, Resolved(r, stage))
  {
    IndexedRowsAreColonFree(h, r);
  }

  /** Rebuilding one more stage after stages that were rebuilt, or that failed. */
  lemma RebuildNext(cache: map<string, Json>, failing: set<string>, stages: seq<Resolved>, last: Resolved)
    ensures RebuildAll(cache, failing, stages + [last])
            == match RebuildAll(cache, failing, stages)
               case Err(e) => Err(e)
               case Ok(front) =>
                 match RebuildOne(cache, failing, last)
                 case Err(e) => Err(e)
                 case Ok(own) => Ok(front + own)
  {
    assert (stages + [last])[..|stages|] == stages;
  }

  lemma {:induction false} RebuildingFails(h: seq<StoredEntry>, failing: set<string>, lookup: Lookup,
                                           rows: seq<RouteRow>)
    requires ValidHistory(h) && AllIndexed(h, rows)
    ensures RebuildAll(CacheOf(HistoryWrites(h)), failing, ServedStages(h, lookup, rows))
            == if SomeTripFails(h, failing, lookup, rows) then Err(ContentReadFailed)
               else Ok(ServedEntries(h, lookup, rows))
  {
    if rows != [] {
      var front, last := rows[..|rows| - 1], rows[|rows| - 1];
      RebuildingFails(h, failing, lookup, front);
      if RowServes(h, lookup, last) {
        var own := StageProjection(LastStage(h, last.operator, last.trip, last.stage).value);
        HistoryRowResolves(h, lookup, last);
        HistoryRowRebuilds(h, last);
        FailingTripFails(h, failing, last, own);
        RebuildNext(CacheOf(HistoryWrites(h)), failing, ServedStages(h, lookup, front), Resolved(last, own));
      }
    }
  }

  lemma {:induction false} NoServedNoTrip(h: seq<StoredEntry>, failing: set<string>, lookup: Lookup,
                                          rows: seq<RouteRow>)
    requires ServedStages(h, lookup, rows) == []
    ensures !SomeTripFails(h, failing, lookup, rows)
  {
    if rows != [] {
      NoServedNoTrip(h, failing, lookup, rows[..|rows| - 1]);
    }
  }

  lemma IndexedAnswer(h: seq<StoredEntry>, failing: set<string>, lookup: Lookup, rows: seq<RouteRow>)
    requires ValidHistory(h) && AllIndexed(h, rows)
    ensures var served := ServedEntries(h, lookup, rows);
            SearchAnswer(CacheOf(HistoryWrites(h)), failing, lookup, rows)
            == if SomeStageFails(failing, rows) || SomeTripFails(h, failing, lookup, rows)
               then Err(ContentReadFailed) else if served == [] then Err(NotFound) else Ok(served)
  {
    ResolvingFails(h, failing, lookup, rows);
    RebuildingFails(h, failing, lookup, rows);
    RebuildingHistoryRows(h, lookup, rows);
    if ServedStages(h, lookup, rows) == [] {
      NoServedNoTrip(h, failing, lookup, rows);
    }
  }

  /**
   * A search answers with an error exactly when some document it needs cannot be read, and never
   * leaves the row out instead: otherwise it answers as if every document could be read.
   */
  lemma FailedReadsEndTheSearch(h: seq<StoredEntry>, failing: set<string>, lookup: Lookup, rows: seq<RouteRow>)
    requires ValidHistory(h) && Lists(rows, RoutesOf(HistoryWrites(h)), lookup)
    ensures var served := ServedEntries(h, lookup, rows);
            SearchAnswer(CacheOf(HistoryWrites(h)), failing, lookup, rows)
            == if NeedsFailingDocument(h, failing, lookup, rows) then Err(ContentReadFailed)
               else if served == [] then Err(NotFound) else Ok(served)
  {
    ListedRowsAreIndexed(h, rows);
    NeedsMeans(h, failing, lookup, rows);
    IndexedAnswer(h, failing, lookup, rows);
  }

  /**
   * A busmap read fails exactly when the stage of some candidate row, or the busmap of the first
   * stage that serves, cannot be read; the trip document is never asked for.
   */
  lemma FailedReadsEndTheBusMap(h: seq<StoredEntry>, failing: set<string>, legacy: LegacyMerge, l: RouteLookup,
                                rows: seq<RouteRow>)
    requires ValidHistory(h) && ListsTrip(rows, RoutesOf(HistoryWrites(h)), l)
    ensures var served := ServedStages(h, RouteOf(l), rows);
            BusMapRead(legacy, CacheOf(HistoryWrites(h)), failing, l, rows)
            == if exists r :: r in rows && StageFails(failing, r) then Err(ContentReadFailed)
               else if served == [] then Err(NotFound)
               else if BusMapKey(l.operator, l.trip, served[0].row.stage) in failing then Err(ContentReadFailed)
               else match LastBusMap(h, l.operator, l.trip, served[0].row.stage)
                    case None => Err(NotFound)
                    case Some(e) => Ok(Obj(e))
  {
    var served := ServedStages(h, RouteOf(l), rows);
    ListedRowsAreIndexed(h, rows);
    SomeStageFailsMeans(failing, rows);
    ResolvingFails(h, failing, RouteOf(l), rows);
    ServedStagesHaveServingRows(h, RouteOf(l), rows);
    if served != [] {
      IndexedRowsAreColonFree(h, served[0].row);
      FailingBusMapFails(h, failing, legacy, served[0]);
    }
  }

  lemma FailingBusMapFails(h: seq<StoredEntry>, failing: set<string>, legacy: LegacyMerge, s: Resolved)
    requires ValidHistory(h) && RowKeysValid(s.row)
    ensures BusMapOf(legacy, CacheOf(HistoryWrites(h)), failing, s)
            == if BusMapKey(s.row.operator, s.row.trip, s.row.stage) in failing then Err(ContentReadFailed)
               else match LastBusMap(h, s.row.operator, s.row.trip, s.row.stage)
                    case None => Err(NotFound)
                    case Some(e) => Ok(Obj(e))
  {
    var r := s.row;
    DocumentsAreLastWriters(h, r.operator, r.trip, r.stage);
    CacheHoldsLastDocuments(HistoryWrites(h), BusMapKey(r.operator, r.trip, r.stage));
    if LastBusMap(h, r.operator, r.trip, r.stage).Some? {
      BusMapsCarryTheirIdentifiers(h, r.operator, r.trip, r.stage);
    }
  }
}
