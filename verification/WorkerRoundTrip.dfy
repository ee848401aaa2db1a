/** From the Worker's fetches to the Master's busmap read: a searchbusmap run is read back entry by entry. */
module WorkerRoundTrip {
  import opened Wrappers
  import opened Text
  import opened JsonTree
  import opened Stations
  import opened Documents
  import opened Storage
  import opened LastWriter
  import opened Overlays
  import opened Reader
  import opened SearchBusMapRun

  /** The last writer of the stage and of its busmap. */
  ghost predicate LastWrites(h: seq<StoredEntry>, operator: string, trip: string, stage: string,
                             entry: map<string, Json>)
  {
    LastBusMap(h, operator, trip, stage) == Some(entry) && LastStage(h, operator, trip, stage) == Some(entry)
  }

  /** An entry followed by others of different stages is the last of its stage. */
  lemma {:induction false} LastOfItsKind(entries: seq<Json>, k: nat, trip: string, stage: string)
    requires k < |entries| && IsStage(entries[k], trip, stage)
    requires forall j :: k < j < |entries| ==> !IsStage(entries[j], trip, stage)
    ensures LastOfStage(entries, trip, stage) == Some(entries[k].members)
  {
    if k < |entries| - 1 {
      LastOfItsKind(entries[..|entries| - 1], k, trip, stage);
    }
  }

  lemma {:induction false} HistoryHoldsEntry(operator: string, entries: seq<Json>, clock: nat -> int, k: nat)
    requires AllStorable(SearchBusMap, operator, entries) && k < |entries|
    ensures |HistoryOf(SearchBusMap, operator, entries, clock)| == |entries| && entries[k].Obj?
    ensures HistoryOf(SearchBusMap, operator, entries, clock)[k]
            == StoredEntry(SearchBusMap, IdentifiersOf(operator, entries[k].members), entries[k].members, clock(k))
    decreases |entries|
  {
    var front := entries[..|entries| - 1];
    if k < |entries| - 1 {
      HistoryHoldsEntry(operator, front, clock, k);
    } else if front != [] {
      HistoryHoldsEntry(operator, front, clock, 0);
    }
  }

  lemma CombinedEntryIsStage(w: Service, k: nat, trip: string, stage: string)
    requires k < |SearchEntries(w)| && Combinable(w, SearchEntries(w)[k].members, k)
    ensures var id := StageIdentifiersOf(SearchEntries(w)[k].members);
            IsStage(CombinedEntry(w, SearchEntries(w)[k].members, k), trip, stage)
            <==> trip == id.tripCode && stage == id.tripStageCode
  {
    CombinedFields(SearchEntries(w)[k].members, DecodeBusMap(w.reply(k + 1)).value);
  }

  /** Entry k is the last of its run for its trip and stage. */
  ghost predicate LastOfItsStage(w: Service, k: nat) {
    && k < |SearchEntries(w)|
    && forall j :: k < j < |SearchEntries(w)| ==> !SameStage(w, k, j)
  }

  predicate SameStage(w: Service, k: nat, j: nat)
    requires k < |SearchEntries(w)| && j < |SearchEntries(w)|
  {
    var a, b := StageIdentifiersOf(SearchEntries(w)[k].members), StageIdentifiersOf(SearchEntries(w)[j].members);
    a.tripCode == b.tripCode && a.tripStageCode == b.tripStageCode
  }

  lemma LaterStageDiffers(w: Service, k: nat, j: nat)
    requires Succeeds(w) && LastOfItsStage(w, k) && k < j < |SearchEntries(w)|
    ensures var id := StageIdentifiersOf(SearchEntries(w)[k].members);
            !IsStage(CombinedEntries(w, SearchEntries(w))[j], id.tripCode, id.tripStageCode)
  {
    var id := StageIdentifiersOf(SearchEntries(w)[k].members);
    CombinedEntriesKeepOrder(w, SearchEntries(w), j);
    CombinedEntryIsStage(w, j, id.tripCode, id.tripStageCode);
    assert !SameStage(w, k, j);
  }

  lemma LaterStagesDiffer(w: Service, k: nat)
    requires Succeeds(w) && LastOfItsStage(w, k)
    ensures var id, combined := StageIdentifiersOf(SearchEntries(w)[k].members), CombinedEntries(w, SearchEntries(w));
            forall j :: k < j < |combined| ==> !IsStage(combined[j], id.tripCode, id.tripStageCode)
  {
    var id, combined := StageIdentifiersOf(SearchEntries(w)[k].members), CombinedEntries(w, SearchEntries(w));
    forall j | k < j < |combined|
      ensures !IsStage(combined[j], id.tripCode, id.tripStageCode)
    {
      LaterStageDiffers(w, k, j);
    }
  }

  lemma OwnStage(w: Service, k: nat)
    requires Succeeds(w) && k < |SearchEntries(w)|
    ensures var id := StageIdentifiersOf(SearchEntries(w)[k].members);
            IsStage(CombinedEntries(w, SearchEntries(w))[k], id.tripCode, id.tripStageCode)
  {
    var id := StageIdentifiersOf(SearchEntries(w)[k].members);
    CombinedEntriesKeepOrder(w, SearchEntries(w), k);
    CombinedEntryIsStage(w, k, id.tripCode, id.tripStageCode);
  }

  // ---------- the stored run ----------

  /** A run whose key components are free of colons, submitted for an operator. */
  ghost predicate Submittable(m: Message, w: Service) {
    && m.action == "searchbusmap" && !Blank(m.operator) && Succeeds(w) && ':' !in m.operator
    && forall e :: e in SearchEntries(w) ==> ColonFreeIdentifiers(StageIdentifiersOf(e.members))
  }

  /** What the Master has stored once it accepted the run on top of any earlier history. */
  ghost function HistoryAfterRun(h: seq<StoredEntry>, m: Message, w: Service, clock: nat -> int)
    : (after: seq<StoredEntry>)
    requires ValidHistory(h) && Submittable(m, w)
    ensures ValidHistory(after)
    ensures HistoryWrites(after)
            == HistoryWrites(h) + AllWrites(SearchBusMap, m.operator, CombinedEntries(w, SearchEntries(w)), clock)
  {
    var combined := CombinedEntries(w, SearchEntries(w));
    MasterAcceptsCombinedEntries(m, w);
    SuccessfulRequestExtendsHistory(h, SearchBusMap, m.operator, combined, clock);
    h + HistoryOf(SearchBusMap, m.operator, combined, clock)
  }

  /** Combined entry k wrote its stage and its busmap last. */
  lemma RunWritesItsStages(h: seq<StoredEntry>, m: Message, w: Service, clock: nat -> int, k: nat)
    requires ValidHistory(h) && Submittable(m, w) && LastOfItsStage(w, k)
    ensures Combinable(w, SearchEntries(w)[k].members, k)
    ensures var id := StageIdentifiersOf(SearchEntries(w)[k].members);
            LastWrites(HistoryAfterRun(h, m, w, clock), m.operator, id.tripCode, id.tripStageCode,
                       CombinedEntry(w, SearchEntries(w)[k].members, k).members)
  {
    var id, combined := StageIdentifiersOf(SearchEntries(w)[k].members), CombinedEntries(w, SearchEntries(w));
    MasterAcceptsCombinedEntries(m, w);
    CombinedEntriesKeepOrder(w, SearchEntries(w), k);
    OwnStage(w, k);
    LaterStagesDiffer(w, k);
    LastOfItsKind(combined, k, id.tripCode, id.tripStageCode);
    RequestOverlays(h, SearchBusMap, m.operator, combined, clock, id.tripCode, id.tripStageCode);
    BlankMeansNothing();
  }

  // ---------- reading it back ----------

  /** The last busmap of a stage is what a read of its trip returns exactly when that stage is served first. */
  lemma ReadBackWhenServedFirst(h: seq<StoredEntry>, l: RouteLookup, rows: seq<RouteRow>, legacy: LegacyMerge,
                                stage: string, entry: map<string, Json>)
    requires ValidHistory(h) && ListsTrip(rows, RoutesOf(HistoryWrites(h)), l)
    requires LastBusMap(h, l.operator, l.trip, stage) == Some(entry)
    ensures var served := ServedStages(h, RouteOf(l), rows);
            BusMapRead(legacy, CacheOf(HistoryWrites(h)), {}, l, rows) == Ok(Obj(entry))
            <==> served != [] && served[0].row.stage == stage
  {
    var served := ServedStages(h, RouteOf(l), rows);
    BusMapReturnsLastResponse(h, legacy, l, rows);
    LastWritersHoldTheirCodes(h, l.operator, l.trip, stage);
    if served != [] && LastBusMap(h, l.operator, l.trip, served[0].row.stage).Some? {
      LastWritersHoldTheirCodes(h, l.operator, l.trip, served[0].row.stage);
    }
  }

  /** The busmap read of a route of the trip of entry k, after the run. */
  ghost predicate ReadsTripOf(m: Message, w: Service, k: nat, l: RouteLookup)
    requires k < |SearchEntries(w)|
  {
    l.operator == m.operator && l.trip == StageIdentifiersOf(SearchEntries(w)[k].members).tripCode
  }

  /**
   * Once the Master has stored a run, a busmap read of the entry's trip returns its combined entry, if
   * and only if the first candidate stage that passes the route filter is the entry's own.
   */
  lemma RunIsReadBack(h: seq<StoredEntry>, m: Message, w: Service, clock: nat -> int, k: nat, legacy: LegacyMerge,
                      l: RouteLookup, rows: seq<RouteRow>)
    requires ValidHistory(h) && Submittable(m, w) && LastOfItsStage(w, k) && ReadsTripOf(m, w, k, l)
    requires ListsTrip(rows, RoutesOf(HistoryWrites(HistoryAfterRun(h, m, w, clock))), l)
    ensures Combinable(w, SearchEntries(w)[k].members, k)
    ensures var after := HistoryAfterRun(h, m, w, clock);
            var served := ServedStages(after, RouteOf(l), rows);
            BusMapRead(legacy, CacheOf(HistoryWrites(after)), {}, l, rows)
            == Ok(CombinedEntry(w, SearchEntries(w)[k].members, k))
            <==> served != [] && served[0].row.stage == StageIdentifiersOf(SearchEntries(w)[k].members).tripStageCode
  {
    var id := StageIdentifiersOf(SearchEntries(w)[k].members);
    RunWritesItsStages(h, m, w, clock, k);
    ReadBackWhenServedFirst(HistoryAfterRun(h, m, w, clock), l, rows, legacy, id.tripStageCode,
                            CombinedEntry(w, SearchEntries(w)[k].members, k).members);
  }

  /**
   * With the rows in the order of their stage codes, as the route table keeps them, that is when the entry's
   * row is listed, its combined entry passes the filter, and no listed stage with a smaller code does.
   */
  lemma SortedRunIsReadBack(h: seq<StoredEntry>, m: Message, w: Service, clock: nat -> int, k: nat, legacy: LegacyMerge,
                            l: RouteLookup, rows: seq<RouteRow>)
    requires ValidHistory(h) && Submittable(m, w) && LastOfItsStage(w, k) && ReadsTripOf(m, w, k, l)
    requires ListsTrip(rows, RoutesOf(HistoryWrites(HistoryAfterRun(h, m, w, clock))), l) && SortedByStage(rows)
    ensures Combinable(w, SearchEntries(w)[k].members, k)
    ensures var after, combined := HistoryAfterRun(h, m, w, clock), CombinedEntry(w, SearchEntries(w)[k].members, k);
            var stage := StageIdentifiersOf(SearchEntries(w)[k].members).tripStageCode;
            BusMapRead(legacy, CacheOf(HistoryWrites(after)), {}, l, rows) == Ok(combined)
            <==> && RouteRow(l.operator, l.date, l.from, l.to, l.trip, stage) in rows
                 && Passes(StoredStage(combined.members), l.from, l.to)
                 && forall r :: r in rows && RowServes(after, RouteOf(l), r) ==> !Less(r.stage, stage)
  {
    var after := HistoryAfterRun(h, m, w, clock);
    var stage := StageIdentifiersOf(SearchEntries(w)[k].members).tripStageCode;
    var own := RouteRow(l.operator, l.date, l.from, l.to, l.trip, stage);
    RunIsReadBack(h, m, w, clock, k, legacy, l, rows);
    RunWritesItsStages(h, m, w, clock, k);
    FirstServed(after, RouteOf(l), rows);
    FirstIsListed(rows, ServedBy(after, RouteOf(l)));
    FirstIsLeast(rows, ServedBy(after, RouteOf(l)), own);
  }

  /** The row of entry k for its own route. */
  ghost function OwnRow(m: Message, w: Service, k: nat): RouteRow
    requires k < |SearchEntries(w)|
  {
    var id := StageIdentifiersOf(SearchEntries(w)[k].members);
    RouteRow(m.operator, id.travelDate, id.fromCode, id.toCode, id.tripCode, id.tripStageCode)
  }

  /** Its own row is indexed, and serves exactly when the combined entry's stage passes the filter. */
  lemma OwnRowIsIndexed(h: seq<StoredEntry>, m: Message, w: Service, clock: nat -> int, k: nat)
    requires ValidHistory(h) && Submittable(m, w) && k < |SearchEntries(w)|
    ensures OwnRow(m, w, k) in RoutesOf(HistoryWrites(HistoryAfterRun(h, m, w, clock)))
  {
    var combined, after, r := CombinedEntries(w, SearchEntries(w)), HistoryAfterRun(h, m, w, clock), OwnRow(m, w, k);
    MasterAcceptsCombinedEntries(m, w);
    HistoryHoldsEntry(m.operator, combined, clock, k);
    CombinedEntriesKeepOrder(w, SearchEntries(w), k);
    CombinedFields(SearchEntries(w)[k].members, DecodeBusMap(w.reply(k + 1)).value);
    var e := after[|h| + k];
    assert e == HistoryOf(SearchBusMap, m.operator, combined, clock)[k];
    IndexIsSound(Route(r.from, r.to), StopList(e.entry));
    RowsAreWantedAndDistinct(Route(r.from, r.to), StopList(e.entry), |StopList(e.entry)|, 0);
    assert Indexes(e, r);
    IndexIsTheHistory(after, r);
  }

  /**
   * A busmap read of the entry's own route returns its combined entry whenever its stage passes the
   * filter there and no other stage of the trip does.
   */
  lemma OwnRouteIsReadBack(h: seq<StoredEntry>, m: Message, w: Service, clock: nat -> int, k: nat, legacy: LegacyMerge,
                           l: RouteLookup, rows: seq<RouteRow>)
    requires ValidHistory(h) && Submittable(m, w) && LastOfItsStage(w, k) && ReadsTripOf(m, w, k, l)
    requires ListsTrip(rows, RoutesOf(HistoryWrites(HistoryAfterRun(h, m, w, clock))), l)
    requires Combinable(w, SearchEntries(w)[k].members, k) && RowMatches(OwnRow(m, w, k), RouteOf(l))
    requires Passes(StoredStage(CombinedEntry(w, SearchEntries(w)[k].members, k).members), l.from, l.to)
    requires forall r :: r in rows && RowServes(HistoryAfterRun(h, m, w, clock), RouteOf(l), r) ==>
               r.stage == OwnRow(m, w, k).stage
    ensures BusMapRead(legacy, CacheOf(HistoryWrites(HistoryAfterRun(h, m, w, clock))), {}, l, rows)
            == Ok(CombinedEntry(w, SearchEntries(w)[k].members, k))
  {
    var after, r := HistoryAfterRun(h, m, w, clock), OwnRow(m, w, k);
    RunWritesItsStages(h, m, w, clock, k);
    OwnRowIsIndexed(h, m, w, clock, k);
    assert r in rows && RowServes(after, RouteOf(l), r);
    ServedStagesHaveServingRows(after, RouteOf(l), rows);
    RunIsReadBack(h, m, w, clock, k, legacy, l, rows);
  }
}
