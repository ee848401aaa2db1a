/** Cached reads: resolving index rows to stages, and rebuilding entries from their documents. */
module Reader {
  import opened Wrappers
  import opened Text
  import opened Literals
  import opened JsonTree
  import opened Stations
  import opened Documents
  import opened LastWriter

  datatype ReadError = MetadataReadFailed | ContentReadFailed | MissingIdentifiers | NotAnObject | NotFound

  datatype Result<+T> = Ok(value: T) | Err(error: ReadError)

  datatype Lookup = Lookup(operator: string, from: string, to: string, date: string)

  ghost predicate RowMatches(r: RouteRow, lookup: Lookup) {
    r.operator == lookup.operator && r.from == lookup.from && r.to == lookup.to && r.date == lookup.date
  }

  /** The rows of one route partition, each once. */
  ghost predicate Lists(rows: seq<RouteRow>, routes: map<RouteRow, int>, lookup: Lookup) {
    && (forall r :: r in rows <==> r in routes && RowMatches(r, lookup))
    && (forall i, j :: 0 <= i < j < |rows| ==> rows[i] != rows[j])
  }

  method FindStagesByRoute(routes: map<RouteRow, int>, lookup: Lookup) returns (rows: seq<RouteRow>)
    ensures Lists(rows, routes, lookup)
  {
    var left := set r | r in routes && r.operator == lookup.operator && r.from == lookup.from && r.to == lookup.to
                        && r.date == lookup.date;
    ghost var all := left;
    rows := [];
    while left != {}
      invariant left <= all
      invariant forall r :: r in rows <==> r in all && r !in left
      invariant forall i, j :: 0 <= i < j < |rows| ==> rows[i] != rows[j]
      decreases |left|
    {
      var r :| r in left;
      left := left - {r};
      rows := rows + [r];
    }
  }

  // ---------- resolving stages ----------

  datatype Resolved = Resolved(row: RouteRow, stage: map<string, Json>)

  predicate RowKeysValid(r: RouteRow) {
    ValidComponent(r.operator) && ValidComponent(r.trip) && ValidComponent(r.stage)
  }

  /** What one candidate row contributes: an error, nothing, or its stage. */
  ghost function ResolveOne(cache: map<string, Json>, failing: set<string>, lookup: Lookup,
                            r: RouteRow): Result<seq<Resolved>> {
    var key := StageKey(r.operator, r.trip, r.stage);
    if !RowKeysValid(r) then Err(MissingIdentifiers)
    else if key in failing then Err(ContentReadFailed)
    else if key !in cache || !Passes(cache[key], lookup.from, lookup.to) then Ok([])
    else Ok([Resolved(r, cache[key].members)])
  }

  ghost function ResolveAll(cache: map<string, Json>, failing: set<string>, lookup: Lookup,
                            rows: seq<RouteRow>): Result<seq<Resolved>> {
    if rows == [] then Ok([])
    else match ResolveAll(cache, failing, lookup, rows[..|rows| - 1])
      case Err(e) => Err(e)
      case Ok(front) =>
        match ResolveOne(cache, failing, lookup, rows[|rows| - 1])
        case Err(e) => Err(e)
        case Ok(own) => Ok(front + own)
  }

  /** An error for some prefix of the rows is the error for all of them. */
  lemma {:induction false} EarlyErrorStays(cache: map<string, Json>, failing: set<string>, lookup: Lookup,
                                           rows: seq<RouteRow>, i: nat)
    requires i <= |rows| && ResolveAll(cache, failing, lookup, rows[..i]).Err?
    ensures ResolveAll(cache, failing, lookup, rows) == ResolveAll(cache, failing, lookup, rows[..i])
  {
    if i == |rows| {
      assert rows[..i] == rows;
    } else {
      var front := rows[..|rows| - 1];
      assert front[..i] == rows[..i];
      EarlyErrorStays(cache, failing, lookup, front, i);
    }
  }

  /** resolveStages. */
  method ResolveStages(cache: map<string, Json>, failing: set<string>, lookup: Lookup, rows: seq<RouteRow>)
    returns (r: Result<seq<Resolved>>)
    ensures r == ResolveAll(cache, failing, lookup, rows)
  {
    var resolved: seq<Resolved> := [];
    for i := 0 to |rows|
      invariant ResolveAll(cache, failing, lookup, rows[..i]) == Ok(resolved)
    {
      var row := rows[i];
      var key := StageKey(row.operator, row.trip, row.stage);
      assert rows[..i + 1][..i] == rows[..i];
      assert resolved + [] == resolved;
      if !RowKeysValid(row) {
        EarlyErrorStays(cache, failing, lookup, rows, i + 1);
        return Err(MissingIdentifiers);
      }
      if key in failing {
        EarlyErrorStays(cache, failing, lookup, rows, i + 1);
        return Err(ContentReadFailed);
      }
      if key !in cache {
        continue;
      }
      var contains := StageContainsRoute(cache[key], lookup.from, lookup.to);
      if !contains {
        continue;
      }
      resolved := resolved + [Resolved(row, cache[key].members)];
    }
    assert rows[..|rows|] == rows;
    r := Ok(resolved);
  }

  // ---------- rebuilding entries ----------

  /** mergeJSONObjects on a trip document and a stage: later members win. */
  function MergeObjects(base: map<string, Json>, overlay: map<string, Json>): map<string, Json> {
    base + overlay
  }

  function WithoutBus(stage: map<string, Json>): map<string, Json> {
    stage - {"bus"}
  }

  ghost function RebuildOne(cache: map<string, Json>, failing: set<string>, s: Resolved): Result<seq<Json>> {
    var key := TripKey(s.row.operator, s.row.trip);
    if !(ValidComponent(s.row.operator) && ValidComponent(s.row.trip)) then Err(MissingIdentifiers)
    else if key in failing then Err(ContentReadFailed)
    else if key !in cache then Ok([])
    else if !cache[key].Obj? then Err(NotAnObject)
    else Ok([Obj(MergeObjects(cache[key].members, WithoutBus(s.stage)))])
  }

  ghost function RebuildAll(cache: map<string, Json>, failing: set<string>, stages: seq<Resolved>): Result<seq<Json>> {
    if stages == [] then Ok([])
    else match RebuildAll(cache, failing, stages[..|stages| - 1])
      case Err(e) => Err(e)
      case Ok(front) =>
        match RebuildOne(cache, failing, stages[|stages| - 1])
        case Err(e) => Err(e)
        case Ok(own) => Ok(front + own)
  }

  lemma {:induction false} EarlyRebuildErrorStays(cache: map<string, Json>, failing: set<string>,
                                                  stages: seq<Resolved>, i: nat)
    requires i <= |stages| && RebuildAll(cache, failing, stages[..i]).Err?
    ensures RebuildAll(cache, failing, stages) == RebuildAll(cache, failing, stages[..i])
  {
    if i == |stages| {
      assert stages[..i] == stages;
    } else {
      var front := stages[..|stages| - 1];
      assert front[..i] == stages[..i];
      EarlyRebuildErrorStays(cache, failing, front, i);
    }
  }

  method RebuildEntries(cache: map<string, Json>, failing: set<string>, stages: seq<Resolved>)
    returns (r: Result<seq<Json>>)
    ensures r == RebuildAll(cache, failing, stages)
  {
    var results: seq<Json> := [];
    for i := 0 to |stages|
      invariant RebuildAll(cache, failing, stages[..i]) == Ok(results)
    {
      var row := stages[i].row;
      assert stages[..i + 1][..i] == stages[..i];
      assert results + [] == results;
      if !(ValidComponent(row.operator) && ValidComponent(row.trip)) {
        EarlyRebuildErrorStays(cache, failing, stages, i + 1);
        return Err(MissingIdentifiers);
      }
      var key := TripKey(row.operator, row.trip);
      if key in failing {
        EarlyRebuildErrorStays(cache, failing, stages, i + 1);
        return Err(ContentReadFailed);
      }
      if key !in cache {
        continue;
      }
      if !cache[key].Obj? {
        EarlyRebuildErrorStays(cache, failing, stages, i + 1);
        return Err(NotAnObject);
      }
      results := results + [Obj(MergeObjects(cache[key].members, WithoutBus(stages[i].stage)))];
    }
    assert stages[..|stages|] == stages;
    r := Ok(results);
  }

  /** What a SEARCH read answers from given candidate rows. */
  ghost function SearchAnswer(cache: map<string, Json>, failing: set<string>, lookup: Lookup,
                              rows: seq<RouteRow>): Result<seq<Json>> {
    match ResolveAll(cache, failing, lookup, rows)
    case Err(e) => Err(e)
    case Ok(stages) =>
      if stages == [] then Err(NotFound)
      else match RebuildAll(cache, failing, stages)
        case Err(e) => Err(e)
        case Ok(entries) => if entries == [] then Err(NotFound) else Ok(entries)
  }

  /** The part of Search after its candidate rows are known. */
  method SearchRows(cache: map<string, Json>, failing: set<string>, lookup: Lookup, rows: seq<RouteRow>)
    returns (r: Result<seq<Json>>)
    ensures r == SearchAnswer(cache, failing, lookup, rows)
  {
    var resolved := ResolveStages(cache, failing, lookup, rows);
    if resolved.Err? {
      return Err(resolved.error);
    }
    if resolved.value == [] {
      return Err(NotFound);
    }
    r := RebuildEntries(cache, failing, resolved.value);
    if r.Ok? && r.value == [] {
      r := Err(NotFound);
    }
  }

  // ---------- what a SEARCH read must return ----------

  /** The last writer of the row's stage, when its stops serve the route. */
  ghost predicate RowServes(h: seq<StoredEntry>, lookup: Lookup, r: RouteRow) {
    var stage := LastStage(h, r.operator, r.trip, r.stage);
    stage.Some? && Passes(StoredStage(stage.value), lookup.from, lookup.to)
  }

  /** Trip-owned fields of the trip's last writer, overlaid with stage-owned fields of the stage's last writer. */
  ghost function LastWritten(h: seq<StoredEntry>, r: RouteRow): Json {
    var trip, stage := LastTrip(h, r.operator, r.trip), LastStage(h, r.operator, r.trip, r.stage);
    if trip.Some? && stage.Some? then Obj(TripProjection(trip.value) + StageProjection(stage.value)) else Null
  }

  /** One entry per serving row, in row order. */
  ghost function ServedEntries(h: seq<StoredEntry>, lookup: Lookup, rows: seq<RouteRow>): seq<Json> {
    if rows == [] then []
    else
      var front, last := ServedEntries(h, lookup, rows[..|rows| - 1]), rows[|rows| - 1];
      if RowServes(h, lookup, last) then front + [LastWritten(h, last)] else front
  }

  lemma CacheOfHistory(h: seq<StoredEntry>, r: RouteRow)
    requires ValidHistory(h) && RowKeysValid(r)
    ensures var cache := CacheOf(HistoryWrites(h));
            var tripKey, stageKey := TripKey(r.operator, r.trip), StageKey(r.operator, r.trip, r.stage);
            && (tripKey in cache <==> LastTrip(h, r.operator, r.trip).Some?)
            && (tripKey in cache ==> cache[tripKey] == Obj(TripProjection(LastTrip(h, r.operator, r.trip).value)))
            && (stageKey in cache <==> LastStage(h, r.operator, r.trip, r.stage).Some?)
            && (stageKey in cache ==>
                  cache[stageKey] == Obj(StageProjection(LastStage(h, r.operator, r.trip, r.stage).value)))
  {
    DocumentsAreLastWriters(h, r.operator, r.trip, r.stage);
    CacheHoldsLastDocuments(HistoryWrites(h), TripKey(r.operator, r.trip));
    CacheHoldsLastDocuments(HistoryWrites(h), StageKey(r.operator, r.trip, r.stage));
  }

  /** A row of the history resolves exactly when its last stage serves the route. */
  lemma HistoryRowResolves(h: seq<StoredEntry>, lookup: Lookup, r: RouteRow)
    requires ValidHistory(h) && r in RoutesOf(HistoryWrites(h))
    ensures var cache := CacheOf(HistoryWrites(h));
            && RowKeysValid(r)
            && LastTrip(h, r.operator, r.trip).Some? && LastStage(h, r.operator, r.trip, r.stage).Some?
            && ResolveOne(cache, {}, lookup, r)
               == (if RowServes(h, lookup, r)
                   then Ok([Resolved(r, StageProjection(LastStage(h, r.operator, r.trip, r.stage).value))]) else Ok([]))
  {
    IndexedRowsAreColonFree(h, r);
    HistoriesAreSound(h);
    RowsHaveTheirDocuments(HistoryWrites(h));
    CacheOfHistory(h, r);
  }

  /** Rebuilding a resolved row gives the last written fields. */
  lemma HistoryRowRebuilds(h: seq<StoredEntry>, r: RouteRow)
    requires ValidHistory(h) && r in RoutesOf(HistoryWrites(h))
    requires LastStage(h, r.operator, r.trip, r.stage).Some? && LastTrip(h, r.operator, r.trip).Some?
    ensures RebuildOne(CacheOf(HistoryWrites(h)), {},
                       Resolved(r, StageProjection(LastStage(h, r.operator, r.trip, r.stage).value)))
            == Ok([LastWritten(h, r)])
  {
    StagesHoldNoBus(LastStage(h, r.operator, r.trip, r.stage).value);
    IndexedRowsAreColonFree(h, r);
    CacheOfHistory(h, r);
  }

  lemma StagesHoldNoBus(entry: map<string, Json>)
    ensures WithoutBus(StageProjection(entry)) == StageProjection(entry)
  {
  }

  ghost function ServedStages(h: seq<StoredEntry>, lookup: Lookup, rows: seq<RouteRow>): seq<Resolved> {
    if rows == [] then []
    else
      var front, last := ServedStages(h, lookup, rows[..|rows| - 1]), rows[|rows| - 1];
      if RowServes(h, lookup, last)
      then front + [Resolved(last, StageProjection(LastStage(h, last.operator, last.trip, last.stage).value))]
      else front
  }

  /** The first candidate row that serves. */
  ghost function FirstWith(rows: seq<RouteRow>, serves: RouteRow -> bool): Option<RouteRow> {
    if rows == [] then None
    else
      var first, last := FirstWith(rows[..|rows| - 1], serves), rows[|rows| - 1];
      if first.Some? then first else if serves(last) then Some(last) else None
  }

  lemma {:induction false} FirstIsListed(rows: seq<RouteRow>, serves: RouteRow -> bool)
    ensures FirstWith(rows, serves).Some? ==>
              FirstWith(rows, serves).value in rows && serves(FirstWith(rows, serves).value)
  {
    if rows != [] {
      FirstIsListed(rows[..|rows| - 1], serves);
    }
  }

  lemma {:induction false} SameFirst(rows: seq<RouteRow>, p: RouteRow -> bool, q: RouteRow -> bool)
    requires forall r :: r in rows ==> p(r) == q(r)
    ensures FirstWith(rows, p) == FirstWith(rows, q)
  {
    if rows != [] {
      SameFirst(rows[..|rows| - 1], p, q);
    }
  }

  ghost function ServedBy(h: seq<StoredEntry>, lookup: Lookup): RouteRow -> bool {
    (r: RouteRow) => RowServes(h, lookup, r)
  }

  lemma {:induction false} FirstServed(h: seq<StoredEntry>, lookup: Lookup, rows: seq<RouteRow>)
    ensures var served, first := ServedStages(h, lookup, rows), FirstWith(rows, ServedBy(h, lookup));
            if served == [] then first == None else first == Some(served[0].row)
  {
    if rows != [] {
      FirstServed(h, lookup, rows[..|rows| - 1]);
    }
  }

  /** In the order the route table keeps the stages of one trip. */
  ghost predicate SortedByStage(rows: seq<RouteRow>) {
    forall i, j :: 0 <= i < j < |rows| ==> Less(rows[i].stage, rows[j].stage)
  }

  lemma {:induction false} FirstHasNoneBefore(rows: seq<RouteRow>, serves: RouteRow -> bool) returns (i: nat)
    ensures i <= |rows| && forall j :: 0 <= j < i ==> !serves(rows[j])
    ensures if i == |rows| then FirstWith(rows, serves) == None
            else FirstWith(rows, serves) == Some(rows[i]) && serves(rows[i])
  {
    i := 0;
    if rows != [] {
      var front := rows[..|rows| - 1];
      i := FirstHasNoneBefore(front, serves);
      if i == |front| && !serves(rows[i]) {
        i := |rows|;
      }
    }
  }

  /** The first of sorted rows to serve is the one with the least stage code. */
  lemma FirstIsLeast(rows: seq<RouteRow>, serves: RouteRow -> bool, r: RouteRow)
    requires SortedByStage(rows)
    ensures FirstWith(rows, serves) == Some(r)
            <==> r in rows && serves(r) && forall x :: x in rows && serves(x) ==> !Less(x.stage, r.stage)
  {
    var i := FirstHasNoneBefore(rows, serves);
    forall k | i <= k < |rows| ensures !Less(rows[k].stage, rows[i].stage) {
      LessIsIrreflexive(rows[i].stage);
      if i < k && Less(rows[k].stage, rows[i].stage) {
        LessIsTransitive(rows[i].stage, rows[k].stage, rows[i].stage);
      }
    }
    if r in rows && serves(r) && forall x :: x in rows && serves(x) ==> !Less(x.stage, r.stage) {
      var k :| 0 <= k < |rows| && rows[k] == r;
      assert rows[i] in rows;
    }
  }

  ghost predicate AllIndexed(h: seq<StoredEntry>, rows: seq<RouteRow>) {
    rows == [] || (AllIndexed(h, rows[..|rows| - 1]) && rows[|rows| - 1] in RoutesOf(HistoryWrites(h)))
  }

  lemma {:induction false} ResolvingHistoryRows(h: seq<StoredEntry>, lookup: Lookup, rows: seq<RouteRow>)
    requires ValidHistory(h) && AllIndexed(h, rows)
    ensures ResolveAll(CacheOf(HistoryWrites(h)), {}, lookup, rows) == Ok(ServedStages(h, lookup, rows))
  {
    if rows != [] {
      var front, last := rows[..|rows| - 1], rows[|rows| - 1];
      var served := ServedStages(h, lookup, front);
      assert served + [] == served;
      ResolvingHistoryRows(h, lookup, front);
      HistoryRowResolves(h, lookup, last);
    }
  }

  lemma RebuildOneMore(cache: map<string, Json>, stages: seq<Resolved>, last: Resolved, entries: seq<Json>, entry: Json)
    requires RebuildAll(cache, {}, stages) == Ok(entries) && RebuildOne(cache, {}, last) == Ok([entry])
    ensures RebuildAll(cache, {}, stages + [last]) == Ok(entries + [entry])
  {
    assert (stages + [last])[..|stages|] == stages;
  }

  lemma {:induction false} RebuildingHistoryRows(h: seq<StoredEntry>, lookup: Lookup, rows: seq<RouteRow>)
    requires ValidHistory(h) && AllIndexed(h, rows)
    ensures RebuildAll(CacheOf(HistoryWrites(h)), {}, ServedStages(h, lookup, rows))
        == Ok(ServedEntries(h, lookup, rows))
    ensures ServedStages(h, lookup, rows) == [] <==> ServedEntries(h, lookup, rows) == []
  {
    if rows != [] {
      var front, last := rows[..|rows| - 1], rows[|rows| - 1];
      RebuildingHistoryRows(h, lookup, front);
      if RowServes(h, lookup, last) {
        HistoryRowResolves(h, lookup, last);
        HistoryRowRebuilds(h, last);
        var stage := Resolved(last, StageProjection(LastStage(h, last.operator, last.trip, last.stage).value));
        RebuildOneMore(CacheOf(HistoryWrites(h)), ServedStages(h, lookup, front), stage,
                       ServedEntries(h, lookup, front), LastWritten(h, last));
      }
    }
  }

  lemma {:induction false} ListedRowsAreIndexed(h: seq<StoredEntry>, rows: seq<RouteRow>)
    requires forall r :: r in rows ==> r in RoutesOf(HistoryWrites(h))
    ensures AllIndexed(h, rows)
  {
    if rows != [] {
      SplitLast(rows);
      ListedRowsAreIndexed(h, rows[..|rows| - 1]);
    }
  }

  /**
   * After any sequence of completely stored entries, a SEARCH read returns, for each indexed row
   * whose stage contains the route, the trip fields of the trip's last writer overlaid with the
   * stage fields of the stage's last writer, and nothing else.
   */
  lemma SearchReturnsLastWrites(h: seq<StoredEntry>, lookup: Lookup, rows: seq<RouteRow>)
    requires ValidHistory(h) && Lists(rows, RoutesOf(HistoryWrites(h)), lookup)
    ensures var served := ServedEntries(h, lookup, rows);
            SearchAnswer(CacheOf(HistoryWrites(h)), {}, lookup, rows)
                == if served == [] then Err(NotFound) else Ok(served)
  {
    ListedRowsAreIndexed(h, rows);
    ResolvingHistoryRows(h, lookup, rows);
    RebuildingHistoryRows(h, lookup, rows);
  }

  lemma LastWriterOfOne(e: StoredEntry)
    requires e.action != BusMap
    ensures LastTrip([e], e.id.operator, e.id.trip) == Some(e.entry)
    ensures LastStage([e], e.id.operator, e.id.trip, e.id.stage) == Some(e.entry)
  {
  }

  lemma OneIndexedRow(h: seq<StoredEntry>, lookup: Lookup, r: RouteRow)
    requires r in RoutesOf(HistoryWrites(h))
    ensures AllIndexed(h, [r])
    ensures ServedEntries(h, lookup, [r]) == if RowServes(h, lookup, r) then [LastWritten(h, r)] else []
  {
    assert [r][..0] == [];
  }

  /**
   * A single stored entry is read back through any of its rows as the entry minus its bus seat
   * layout, exactly when the stored stage passes the filter for that row's route; otherwise it is not found.
   */
  lemma SingleEntryRoundTrip(e: StoredEntry, lookup: Lookup, r: RouteRow)
    requires ValidHistory([e]) && e.action != BusMap && Indexes(e, r) && RowMatches(r, lookup)
    ensures SearchAnswer(CacheOf(HistoryWrites([e])), {}, lookup, [r])
            == if Passes(StoredStage(e.entry), r.from, r.to)
               then Ok([Obj(WithoutBusLayout(e.entry))]) else Err(NotFound)
  {
    var h := [e];
    assert h[0] == e;
    IndexIsTheHistory(h, r);
    OneIndexedRow(h, lookup, r);
    LastWriterOfOne(e);
    ResolvingHistoryRows(h, lookup, [r]);
    RebuildingHistoryRows(h, lookup, [r]);
    SplitMergesBack(e.entry);
  }

  lemma OverflowingFareDoesNotDecode(entry: map<string, Json>)
    requires "stageFare" in entry && entry["stageFare"] == Num(OverflowingLiteral())
    ensures !PlainlyDecodes(StoredStage(entry))
  {
    OverflowingLiteralDoesNotFit();
    var stage := StageProjection(entry);
    assert "stageFare" in stage && !PlainlyDecodes(stage["stageFare"]);
  }

  lemma OneEntryIndexes(e: StoredEntry, r: RouteRow)
    requires Indexes(e, r)
    ensures r in RoutesOf(HistoryWrites([e]))
  {
    var h := [e];
    assert h[0] == e;
    IndexIsTheHistory(h, r);
  }

  /** A stage with a number no float holds is stored, indexed, and never found. */
  lemma OverflowingStageIsNotFound(e: StoredEntry, lookup: Lookup, r: RouteRow)
    requires ValidHistory([e]) && e.action != BusMap && Indexes(e, r) && RowMatches(r, lookup)
    requires "stageFare" in e.entry && e.entry["stageFare"] == Num(OverflowingLiteral())
    ensures r in RoutesOf(HistoryWrites([e]))
    ensures SearchAnswer(CacheOf(HistoryWrites([e])), {}, lookup, [r]) == Err(NotFound)
  {
    OneEntryIndexes(e, r);
    OverflowingFareDoesNotDecode(e.entry);
    SingleEntryRoundTrip(e, lookup, r);
  }

  // ---------- busmap reads ----------

  /** isCompleteBusMapResponse. */
  predicate IsCompleteBusMap(document: Json) {
    document.Obj? && "tripCode" in document.members && "tripStageCode" in document.members
  }

  datatype RouteLookup = RouteLookup(operator: string, trip: string, from: string, to: string, date: string)

  ghost function RouteOf(l: RouteLookup): Lookup {
    Lookup(l.operator, l.from, l.to, l.date)
  }

  /** filterStagesByTripCode. */
  function OfTrip(rows: seq<RouteRow>, trip: string): (r: seq<RouteRow>)
    ensures forall row :: row in r <==> row in rows && row.trip == trip
  {
    if rows == [] then []
    else
      SplitLast(rows);
      var front, last := OfTrip(rows[..|rows| - 1], trip), rows[|rows| - 1];
      if last.trip == trip then front + [last] else front
  }

  /** The candidate rows of a busmap read. */
  ghost predicate ListsTrip(rows: seq<RouteRow>, routes: map<RouteRow, int>, l: RouteLookup) {
    forall r :: r in rows <==> r in routes && RowMatches(r, RouteOf(l)) && r.trip == l.trip
  }

  method FindTripStages(routes: map<RouteRow, int>, l: RouteLookup) returns (rows: seq<RouteRow>)
    ensures ListsTrip(rows, routes, l)
  {
    rows := FindStagesByRoute(routes, Lookup(l.operator, l.from, l.to, l.date));
    rows := OfTrip(rows, l.trip);
  }

  /** How a layout-only busmap document is merged with its trip document and stage. */
  type LegacyMerge = (Json, map<string, Json>, Json) -> Result<Json>

  /** The busmap document of a resolved stage; older layout-only documents go through the legacy merge. */
  function BusMapOf(legacy: LegacyMerge, cache: map<string, Json>, failing: set<string>, s: Resolved): Result<Json> {
    var key, tripKey := BusMapKey(s.row.operator, s.row.trip, s.row.stage), TripKey(s.row.operator, s.row.trip);
    if !RowKeysValid(s.row) then Err(MissingIdentifiers)
    else if key in failing then Err(ContentReadFailed)
    else if key !in cache then Err(NotFound)
    else if IsCompleteBusMap(cache[key]) then Ok(cache[key])
    else if tripKey in failing then Err(ContentReadFailed)
    else if tripKey !in cache then Err(NotFound)
    else legacy(cache[tripKey], s.stage, cache[key])
  }

  /** What a busmap read answers from given candidate rows: the document of the first resolved stage. */
  ghost function BusMapRead(legacy: LegacyMerge, cache: map<string, Json>, failing: set<string>, l: RouteLookup,
                            rows: seq<RouteRow>): Result<Json>
  {
    match ResolveAll(cache, failing, RouteOf(l), rows)
    case Err(e) => Err(e)
    case Ok(stages) => if stages == [] then Err(NotFound) else BusMapOf(legacy, cache, failing, stages[0])
  }

  /** The part of BusMap after its candidate rows are known. */
  method BusMapRows(legacy: LegacyMerge, cache: map<string, Json>, failing: set<string>, l: RouteLookup,
                    rows: seq<RouteRow>) returns (r: Result<Json>)
    ensures r == BusMapRead(legacy, cache, failing, l, rows)
  {
    var resolved := ResolveStages(cache, failing, Lookup(l.operator, l.from, l.to, l.date), rows);
    if resolved.Err? {
      return Err(resolved.error);
    }
    if resolved.value == [] {
      return Err(NotFound);
    }
    r := BusMapOf(legacy, cache, failing, resolved.value[0]);
  }

  lemma {:induction false} BusMapsCarryTheirIdentifiers(h: seq<StoredEntry>, o: string, t: string, s: string)
    requires ValidHistory(h) && LastBusMap(h, o, t, s).Some?
    ensures IsCompleteBusMap(Obj(LastBusMap(h, o, t, s).value))
  {
    var last := h[|h| - 1];
    if WritesBusMap(last, o, t, s) {
      assert !Blank(last.id.trip) && !Blank(last.id.stage);
      assert Blank("");
    } else {
      BusMapsCarryTheirIdentifiers(h[..|h| - 1], o, t, s);
    }
  }

  /** The busmap document of a row is the last busmap entry stored under its stage; it never needs the legacy merge. */
  lemma BusMapDocumentIsLastResponse(h: seq<StoredEntry>, legacy: LegacyMerge, s: Resolved)
    requires ValidHistory(h) && RowKeysValid(s.row)
    ensures BusMapOf(legacy, CacheOf(HistoryWrites(h)), {}, s)
            == (match LastBusMap(h, s.row.operator, s.row.trip, s.row.stage)
                case None => Err(NotFound)
                case Some(e) => Ok(Obj(e)))
  {
    var r := s.row;
    DocumentsAreLastWriters(h, r.operator, r.trip, r.stage);
    CacheHoldsLastDocuments(HistoryWrites(h), BusMapKey(r.operator, r.trip, r.stage));
    if LastBusMap(h, r.operator, r.trip, r.stage).Some? {
      BusMapsCarryTheirIdentifiers(h, r.operator, r.trip, r.stage);
    }
  }

  lemma {:induction false} ServedStagesHaveServingRows(h: seq<StoredEntry>, lookup: Lookup, rows: seq<RouteRow>)
    ensures ServedStages(h, lookup, rows) != [] ==>
              ServedStages(h, lookup, rows)[0].row in rows && RowServes(h, lookup, ServedStages(h, lookup, rows)[0].row)
    ensures (exists r :: r in rows && RowServes(h, lookup, r)) ==> ServedStages(h, lookup, rows) != []
  {
    if rows != [] {
      SplitLast(rows);
      ServedStagesHaveServingRows(h, lookup, rows[..|rows| - 1]);
    }
  }

  /**
   * A busmap read returns the last busmap entry stored for the first candidate stage that passes the
   * filter, and is not found when none passes or none was stored for it.
   */
  lemma BusMapReturnsLastResponse(h: seq<StoredEntry>, legacy: LegacyMerge, l: RouteLookup, rows: seq<RouteRow>)
    requires ValidHistory(h) && ListsTrip(rows, RoutesOf(HistoryWrites(h)), l)
    ensures var served := ServedStages(h, RouteOf(l), rows);
            BusMapRead(legacy, CacheOf(HistoryWrites(h)), {}, l, rows)
            == if served == [] then Err(NotFound)
               else match LastBusMap(h, l.operator, l.trip, served[0].row.stage)
                    case None => Err(NotFound)
                    case Some(e) => Ok(Obj(e))
  {
    var served := ServedStages(h, RouteOf(l), rows);
    ListedRowsAreIndexed(h, rows);
    ResolvingHistoryRows(h, RouteOf(l), rows);
    ServedStagesHaveServingRows(h, RouteOf(l), rows);
    if served != [] {
      IndexedRowsAreColonFree(h, served[0].row);
      BusMapDocumentIsLastResponse(h, legacy, served[0]);
    }
  }

  /**
   * In any cache, a stored busmap that names its trip and stage is served as it is, and any older document
   * goes through the legacy merge with its trip document and the stage resolved.
   */
  lemma OnlyLegacyDocumentsAreMerged(legacy: LegacyMerge, cache: map<string, Json>, s: Resolved)
    requires RowKeysValid(s.row) && BusMapKey(s.row.operator, s.row.trip, s.row.stage) in cache
    ensures var document, tripKey := cache[BusMapKey(s.row.operator, s.row.trip, s.row.stage)],
                                     TripKey(s.row.operator, s.row.trip);
            BusMapOf(legacy, cache, {}, s)
            == if document.Obj? && {"tripCode", "tripStageCode"} <= document.members.Keys then Ok(document)
               else if tripKey in cache then legacy(cache[tripKey], s.stage, document) else Err(NotFound)
  {
    var document := cache[BusMapKey(s.row.operator, s.row.trip, s.row.stage)];
    if document.Obj? {
      assert {"tripCode", "tripStageCode"} <= document.members.Keys
          <==> "tripCode" in document.members && "tripStageCode" in document.members;
    }
  }
}
