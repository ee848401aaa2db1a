/** The simple view of the store: for every trip and stage, the last entry written wins. */
module LastWriter {
  import opened Wrappers
  import opened JsonTree
  import opened Stations
  import opened Documents
  import opened Storage

  /** One completely stored entry. */
  datatype StoredEntry = StoredEntry(action: Action, id: Identifiers, entry: map<string, Json>, now: int)

  /** It carried the identifiers its action requires, and they were read from the entry. */
  predicate ValidEntry(e: StoredEntry) {
    && Storable(e.action, e.id)
    && e.id.trip == StringField(e.entry, "tripCode") && e.id.stage == StringField(e.entry, "tripStageCode")
  }

  predicate ValidHistory(h: seq<StoredEntry>) {
    h == [] || (ValidHistory(h[..|h| - 1]) && ValidEntry(h[|h| - 1]))
  }

  ghost function WritesOfEntry(e: StoredEntry): seq<Write> {
    EntryWrites(e.action, e.id, e.entry, e.now)
  }

  /** Everything a history of stores wrote. */
  ghost function HistoryWrites(h: seq<StoredEntry>): seq<Write> {
    if h == [] then [] else HistoryWrites(h[..|h| - 1]) + WritesOfEntry(h[|h| - 1])
  }

  /** The entries of one successful request, in order, entry i with the i-th clock reading. */
  function HistoryOf(action: Action, operator: string, entries: seq<Json>, clock: nat -> int): seq<StoredEntry>
    requires AllStorable(action, operator, entries)
  {
    if entries == [] then []
    else
      var last := entries[|entries| - 1];
      HistoryOf(action, operator, entries[..|entries| - 1], clock)
      + [StoredEntry(action, IdentifiersOf(operator, last.members), last.members, clock(|entries| - 1))]
  }

  lemma HistoryGrows(h: seq<StoredEntry>, e: StoredEntry)
    ensures ValidHistory(h + [e]) <==> ValidHistory(h) && ValidEntry(e)
    ensures HistoryWrites(h + [e]) == HistoryWrites(h) + WritesOfEntry(e)
  {
    assert (h + [e])[..|h|] == h;
  }

  /** A successful request extends the history by its own entries, and the log by exactly their writes. */
  lemma {:induction false} SuccessfulRequestExtendsHistory(h: seq<StoredEntry>, action: Action, operator: string,
                                                           entries: seq<Json>, clock: nat -> int)
    requires ValidHistory(h) && AllStorable(action, operator, entries)
    ensures ValidHistory(h + HistoryOf(action, operator, entries, clock))
    ensures HistoryWrites(h + HistoryOf(action, operator, entries, clock))
            == HistoryWrites(h) + AllWrites(action, operator, entries, clock)
  {
    if entries == [] {
      assert h + [] == h;
    } else {
      var front, last := entries[..|entries| - 1], entries[|entries| - 1];
      SuccessfulRequestExtendsHistory(h, action, operator, front, clock);
      OneMoreStoredEntry(h, action, operator, entries, clock);
    }
  }

  lemma OneMoreStoredEntry(h: seq<StoredEntry>, action: Action, operator: string, entries: seq<Json>, clock: nat -> int)
    requires entries != [] && AllStorable(action, operator, entries)
    requires var h' := h + HistoryOf(action, operator, entries[..|entries| - 1], clock);
             && ValidHistory(h')
             && HistoryWrites(h') == HistoryWrites(h) + AllWrites(action, operator, entries[..|entries| - 1], clock)
    ensures ValidHistory(h + HistoryOf(action, operator, entries, clock))
    ensures HistoryWrites(h + HistoryOf(action, operator, entries, clock))
            == HistoryWrites(h) + AllWrites(action, operator, entries, clock)
  {
    var front, last := entries[..|entries| - 1], entries[|entries| - 1];
    var e := StoredEntry(action, IdentifiersOf(operator, last.members), last.members, clock(|entries| - 1));
    AppendStoredEntry(h, HistoryOf(action, operator, front, clock), AllWrites(action, operator, front, clock), e);
    assert WritesOf(action, operator, last, clock(|entries| - 1)) == WritesOfEntry(e);
  }

  lemma AppendStoredEntry(h: seq<StoredEntry>, more: seq<StoredEntry>, writes: seq<Write>, e: StoredEntry)
    requires ValidHistory(h + more) && ValidEntry(e) && HistoryWrites(h + more) == HistoryWrites(h) + writes
    ensures ValidHistory(h + (more + [e])) && HistoryWrites(h + (more + [e]))
        == HistoryWrites(h) + (writes + WritesOfEntry(e))
  {
    AppendIsAssociative(h, more, [e]);
    AppendIsAssociative(HistoryWrites(h), writes, WritesOfEntry(e));
    HistoryGrows(h + more, e);
  }

  lemma {:induction false} HistoriesAreSound(h: seq<StoredEntry>)
    ensures Sound(HistoryWrites(h))
  {
    if h != [] {
      var last := h[|h| - 1];
      HistoriesAreSound(h[..|h| - 1]);
      EntryWritesAreSound(last.action, last.id, last.entry, last.now);
      SoundLogsJoin(HistoryWrites(h[..|h| - 1]), WritesOfEntry(last));
    }
  }

  // ---------- the specification: last writers ----------

  predicate WritesTrip(e: StoredEntry, o: string, t: string) {
    e.action != BusMap && e.id.operator == o && e.id.trip == t
  }

  predicate WritesStage(e: StoredEntry, o: string, t: string, s: string) {
    WritesTrip(e, o, t) && e.id.stage == s
  }

  predicate WritesBusMap(e: StoredEntry, o: string, t: string, s: string) {
    e.action != Search && e.id.operator == o && e.id.trip == t && e.id.stage == s
  }

  function LastTrip(h: seq<StoredEntry>, o: string, t: string): Option<map<string, Json>> {
    if h == [] then None
    else if WritesTrip(h[|h| - 1], o, t) then Some(h[|h| - 1].entry)
    else LastTrip(h[..|h| - 1], o, t)
  }

  function LastStage(h: seq<StoredEntry>, o: string, t: string, s: string): Option<map<string, Json>> {
    if h == [] then None
    else if WritesStage(h[|h| - 1], o, t, s) then Some(h[|h| - 1].entry)
    else LastStage(h[..|h| - 1], o, t, s)
  }

  function LastBusMap(h: seq<StoredEntry>, o: string, t: string, s: string): Option<map<string, Json>> {
    if h == [] then None
    else if WritesBusMap(h[|h| - 1], o, t, s) then Some(h[|h| - 1].entry)
    else LastBusMap(h[..|h| - 1], o, t, s)
  }

  // ---------- one entry's documents ----------

  lemma {:induction false} RowsHoldNoDocument(id: Identifiers, routes: seq<Route>, now: int, key: string)
    ensures LastDocument(RouteWrites(id, routes, now), key) == None
  {
    if routes != [] {
      var front := routes[..|routes| - 1];
      RowsHoldNoDocument(id, front, now, key);
      assert RouteWrites(id, routes, now)[..|routes| - 1] == RouteWrites(id, front, now);
    }
  }

  lemma IndexHoldsNoDocument(id: Identifiers, entry: map<string, Json>, now: int, key: string)
    ensures LastDocument(IndexWrites(id, entry, now), key) == None
  {
    var routes := RouteWrites(id, IndexedRoutes(Route(id.from, id.to), StopList(entry)), now);
    RowsHoldNoDocument(id, IndexedRoutes(Route(id.from, id.to), StopList(entry)), now, key);
    if ScheduleOf(entry) != "" {
      var writes := IndexWrites(id, entry, now);
      assert writes[..|writes| - 1] == routes;
    } else {
      assert IndexWrites(id, entry, now) == routes;
    }
  }

  lemma TwoDocuments(first: Write, second: Write, key: string)
    requires first.Document? && second.Document?
    ensures LastDocument([first, second], key)
            == if second.key == key then Some(second.json) else if first.key == key then Some(first.json) else None
  {
    assert [first, second][..1] == [first];
    OneDocument(first, key);
  }

  lemma OneDocument(w: Write, key: string)
    requires w.Document?
    ensures LastDocument([w], key) == if w.key == key then Some(w.json) else None
  {
    assert [w][..0] == [];
  }

  /** What one entry leaves under a key: its busmap, its stage, its trip, or nothing. */
  lemma DocumentsOfEntry(e: StoredEntry, key: string)
    ensures var tripKey, stageKey := TripKey(e.id.operator, e.id.trip), StageKey(e.id.operator, e.id.trip, e.id.stage);
            LastDocument(WritesOfEntry(e), key)
            == if e.action != Search && key == BusMapKey(e.id.operator, e.id.trip, e.id.stage) then Some(Obj(e.entry))
               else if e.action == BusMap then None
               else if key == stageKey then Some(Obj(StageProjection(e.entry)))
               else if key == tripKey then Some(Obj(TripProjection(e.entry)))
               else None
  {
    var docs, index := DocumentWrites(e.id, e.entry), IndexWrites(e.id, e.entry, e.now);
    var busmap := BusMapWrites(e.id, e.entry);
    TwoDocuments(docs[0], docs[1], key);
    OneDocument(busmap[0], key);
    IndexHoldsNoDocument(e.id, e.entry, e.now, key);
    LastDocumentOfAppend(docs, index, key);
    LastDocumentOfAppend(docs + index, busmap, key);
  }

  // ---------- the store refines the specification ----------

  predicate ColonFree(o: string, t: string, s: string) {
    ':' !in o && ':' !in t && ':' !in s
  }

  /** After any history, each key holds the projection of the last entry that owns it. */
  lemma {:induction false} DocumentsAreLastWriters(h: seq<StoredEntry>, o: string, t: string, s: string)
    requires ValidHistory(h) && ColonFree(o, t, s)
    ensures var log := HistoryWrites(h);
            && LastDocument(log, TripKey(o, t))
               == (match LastTrip(h, o, t) case None => None case Some(e) => Some(Obj(TripProjection(e))))
            && LastDocument(log, StageKey(o, t, s))
               == (match LastStage(h, o, t, s) case None => None case Some(e) => Some(Obj(StageProjection(e))))
            && LastDocument(log, BusMapKey(o, t, s))
               == (match LastBusMap(h, o, t, s) case None => None case Some(e) => Some(Obj(e)))
  {
    if h != [] {
      var front, last := h[..|h| - 1], h[|h| - 1];
      DocumentsAreLastWriters(front, o, t, s);
      KeysAreInjective(o, t, s, last.id.operator, last.id.trip, last.id.stage);
      KeysAreInjective(last.id.operator, last.id.trip, last.id.stage, o, t, s);
      KeyAfterEntry(front, last, TripKey(o, t));
      KeyAfterEntry(front, last, StageKey(o, t, s));
      KeyAfterEntry(front, last, BusMapKey(o, t, s));
    }
  }

  lemma KeyAfterEntry(front: seq<StoredEntry>, last: StoredEntry, key: string)
    ensures LastDocument(HistoryWrites(front) + WritesOfEntry(last), key)
            == if LastDocument(WritesOfEntry(last), key).Some? then LastDocument(WritesOfEntry(last), key)
               else LastDocument(HistoryWrites(front), key)
    ensures var tripKey := TripKey(last.id.operator, last.id.trip);
            var stageKey := StageKey(last.id.operator, last.id.trip, last.id.stage);
            LastDocument(WritesOfEntry(last), key)
            == if last.action != Search && key == BusMapKey(last.id.operator, last.id.trip, last.id.stage)
               then Some(Obj(last.entry))
               else if last.action == BusMap then None
               else if key == stageKey then Some(Obj(StageProjection(last.entry)))
               else if key == tripKey then Some(Obj(TripProjection(last.entry)))
               else None
  {
    LastDocumentOfAppend(HistoryWrites(front), WritesOfEntry(last), key);
    DocumentsOfEntry(last, key);
  }

  // ---------- which rows a history indexes ----------

  /** The rows an entry indexes. */
  ghost predicate Indexes(e: StoredEntry, r: RouteRow) {
    && e.action != BusMap
    && r.operator == e.id.operator && r.date == e.id.date && r.trip == e.id.trip && r.stage == e.id.stage
    && Route(r.from, r.to) in IndexedRoutes(Route(e.id.from, e.id.to), StopList(e.entry))
  }

  ghost function RouteKeys(log: seq<Write>): set<RouteRow> {
    set w | w in log && w.RouteIndex? :: w.route
  }

  lemma {:induction false} RoutesAreTheRowsWritten(log: seq<Write>)
    ensures RoutesOf(log).Keys == RouteKeys(log)
  {
    if log != [] {
      var front, last := log[..|log| - 1], log[|log| - 1];
      RoutesAreTheRowsWritten(front);
      assert log == front + [last];
      assert forall w :: w in log <==> w in front || w == last;
    }
  }

  lemma RouteKeysOfAppend(a: seq<Write>, b: seq<Write>)
    ensures RouteKeys(a + b) == RouteKeys(a) + RouteKeys(b)
  {
    assert forall w :: w in a + b <==> w in a || w in b;
  }

  lemma RowsOfRoutes(id: Identifiers, routes: seq<Route>, now: int, r: RouteRow)
    ensures r in RouteKeys(RouteWrites(id, routes, now))
            <==> r == RouteRowOf(id, Route(r.from, r.to)) && Route(r.from, r.to) in routes
  {
    var writes := RouteWrites(id, routes, now);
    if r == RouteRowOf(id, Route(r.from, r.to)) && Route(r.from, r.to) in routes {
      var i :| 0 <= i < |routes| && routes[i] == Route(r.from, r.to);
      assert writes[i] == RouteIndex(r, now);
      assert writes[i] in writes;
    }
    if r in RouteKeys(writes) {
      var w :| w in writes && w.RouteIndex? && w.route == r;
      var i :| 0 <= i < |writes| && writes[i] == w;
      assert routes[i] in routes;
    }
  }

  lemma RowsOfEntry(e: StoredEntry, r: RouteRow)
    ensures r in RouteKeys(WritesOfEntry(e)) <==> Indexes(e, r)
  {
    var routes := IndexedRoutes(Route(e.id.from, e.id.to), StopList(e.entry));
    var docs, index := DocumentWrites(e.id, e.entry), IndexWrites(e.id, e.entry, e.now);
    var busmap := BusMapWrites(e.id, e.entry);
    var schedule := index[|routes|..];
    assert index == RouteWrites(e.id, routes, e.now) + schedule;
    RowsOfRoutes(e.id, routes, e.now, r);
    RouteKeysOfAppend(RouteWrites(e.id, routes, e.now), schedule);
    RouteKeysOfAppend(docs, index);
    RouteKeysOfAppend(docs + index, busmap);
    assert RouteKeys(docs) == {} && RouteKeys(busmap) == {} && RouteKeys(schedule) == {};
  }

  ghost predicate SomeEntryIndexes(h: seq<StoredEntry>, r: RouteRow) {
    exists i :: 0 <= i < |h| && Indexes(h[i], r)
  }

  lemma OneMoreIndexes(front: seq<StoredEntry>, last: StoredEntry, r: RouteRow)
    ensures SomeEntryIndexes(front + [last], r) <==> SomeEntryIndexes(front, r) || Indexes(last, r)
  {
    var h := front + [last];
    assert h[|front|] == last;
    assert forall i :: 0 <= i < |front| ==> h[i] == front[i];
  }

  lemma RowsOfGrownLog(log: seq<Write>, e: StoredEntry, r: RouteRow)
    ensures r in RoutesOf(log + WritesOfEntry(e)) <==> r in RoutesOf(log) || Indexes(e, r)
  {
    RoutesAreTheRowsWritten(log + WritesOfEntry(e));
    RoutesAreTheRowsWritten(log);
    RouteKeysOfAppend(log, WritesOfEntry(e));
    RowsOfEntry(e, r);
  }

  /** The index holds exactly the rows some stored SEARCH or SEARCHBUSMAP entry asked for. */
  lemma {:induction false} IndexIsTheHistory(h: seq<StoredEntry>, r: RouteRow)
    ensures r in RoutesOf(HistoryWrites(h)) <==> SomeEntryIndexes(h, r)
  {
    if h != [] {
      var front, last := h[..|h| - 1], h[|h| - 1];
      SplitLast(h);
      IndexIsTheHistory(front, r);
      RowsOfGrownLog(HistoryWrites(front), last, r);
      OneMoreIndexes(front, last, r);
    }
  }

  lemma {:induction false} HistoryEntriesAreValid(h: seq<StoredEntry>, i: nat)
    requires ValidHistory(h) && i < |h|
    ensures ValidEntry(h[i])
  {
    if i < |h| - 1 {
      HistoryEntriesAreValid(h[..|h| - 1], i);
    }
  }

  lemma IndexedRowsAreColonFree(h: seq<StoredEntry>, r: RouteRow)
    requires ValidHistory(h) && r in RoutesOf(HistoryWrites(h))
    ensures ValidComponent(r.operator) && ValidComponent(r.trip) && ValidComponent(r.stage)
  {
    IndexIsTheHistory(h, r);
    var i :| 0 <= i < |h| && Indexes(h[i], r);
    HistoryEntriesAreValid(h, i);
  }
}
