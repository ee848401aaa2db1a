/** What a completely stored request changes about the last writers and the route index. */
module Overlays {
  import opened Wrappers
  import opened JsonTree
  import opened Documents
  import opened Storage
  import opened LastWriter

  // ---------- the last entries of a list ----------

  predicate IsTrip(entry: Json, trip: string) {
    entry.Obj? && StringField(entry.members, "tripCode") == trip
  }

  predicate IsStage(entry: Json, trip: string, stage: string) {
    IsTrip(entry, trip) && StringField(entry.members, "tripStageCode") == stage
  }

  /** The last entry of a list for a trip. */
  function LastOfTrip(entries: seq<Json>, trip: string): Option<map<string, Json>> {
    if entries == [] then None
    else
      var last := entries[|entries| - 1];
      if IsTrip(last, trip) then Some(last.members) else LastOfTrip(entries[..|entries| - 1], trip)
  }

  /** The last entry of a list for a stage of a trip. */
  function LastOfStage(entries: seq<Json>, trip: string, stage: string): Option<map<string, Json>> {
    if entries == [] then None
    else
      var last := entries[|entries| - 1];
      if IsStage(last, trip, stage) then Some(last.members) else LastOfStage(entries[..|entries| - 1], trip, stage)
  }

  lemma {:induction false} LastOfStageIsListed(entries: seq<Json>, trip: string, stage: string)
    ensures LastOfStage(entries, trip, stage).Some? <==> exists e :: e in entries && IsStage(e, trip, stage)
    ensures LastOfStage(entries, trip, stage).Some? ==>
              && Obj(LastOfStage(entries, trip, stage).value) in entries
              && IsStage(Obj(LastOfStage(entries, trip, stage).value), trip, stage)
  {
    if entries != [] {
      SplitLast(entries);
      LastOfStageIsListed(entries[..|entries| - 1], trip, stage);
    }
  }

  lemma {:induction false} LastOfTripIsListed(entries: seq<Json>, trip: string)
    ensures LastOfTrip(entries, trip).Some? <==> exists e :: e in entries && IsTrip(e, trip)
    ensures LastOfTrip(entries, trip).Some? ==>
              Obj(LastOfTrip(entries, trip).value) in entries && IsTrip(Obj(LastOfTrip(entries, trip).value), trip)
  {
    if entries != [] {
      SplitLast(entries);
      LastOfTripIsListed(entries[..|entries| - 1], trip);
    }
  }

  // ---------- last writers after a request ----------

  /** The newer of two, where there is one. */
  function Over<T>(newer: Option<T>, older: Option<T>): Option<T> {
    if newer.Some? then newer else older
  }

  lemma LastWritersOfOneMore(h: seq<StoredEntry>, e: StoredEntry, o: string, t: string, s: string)
    ensures LastTrip(h + [e], o, t) == if WritesTrip(e, o, t) then Some(e.entry) else LastTrip(h, o, t)
    ensures LastStage(h + [e], o, t, s) == if WritesStage(e, o, t, s) then Some(e.entry) else LastStage(h, o, t, s)
    ensures LastBusMap(h + [e], o, t, s) == if WritesBusMap(e, o, t, s) then Some(e.entry) else LastBusMap(h, o, t, s)
  {
    assert (h + [e])[..|h|] == h;
  }

  /**
   * A request of the operator lays its last entries over what was there; a search leaves busmaps alone, and a
   * busmap everything else.
   */
  lemma {:induction false} RequestOverlays(h: seq<StoredEntry>, action: Action, operator: string, entries: seq<Json>,
                                           clock: nat -> int, t: string, s: string)
    requires operator != "" && AllStorable(action, operator, entries)
    ensures var after := h + HistoryOf(action, operator, entries, clock);
            && LastTrip(after, operator, t)
               == (if action == BusMap then LastTrip(h, operator, t)
                   else Over(LastOfTrip(entries, t), LastTrip(h, operator, t)))
            && LastStage(after, operator, t, s)
               == (if action == BusMap then LastStage(h, operator, t, s)
                   else Over(LastOfStage(entries, t, s), LastStage(h, operator, t, s)))
            && LastBusMap(after, operator, t, s)
               == (if action == Search then LastBusMap(h, operator, t, s)
                   else Over(LastOfStage(entries, t, s), LastBusMap(h, operator, t, s)))
  {
    if entries == [] {
      assert h + [] == h;
    } else {
      var front, last := entries[..|entries| - 1], entries[|entries| - 1];
      var e := StoredEntry(action, IdentifiersOf(operator, last.members), last.members, clock(|entries| - 1));
      RequestOverlays(h, action, operator, front, clock, t, s);
      AppendIsAssociative(h, HistoryOf(action, operator, front, clock), [e]);
      LastWritersOfOneMore(h + HistoryOf(action, operator, front, clock), e, operator, t, s);
    }
  }

  lemma {:induction false} LastWritersHoldTheirCodes(h: seq<StoredEntry>, o: string, t: string, s: string)
    requires ValidHistory(h)
    ensures LastTrip(h, o, t).Some? ==> StringField(LastTrip(h, o, t).value, "tripCode") == t
    ensures LastStage(h, o, t, s).Some? ==> StringField(LastStage(h, o, t, s).value, "tripStageCode") == s
    ensures LastBusMap(h, o, t, s).Some? ==>
              && StringField(LastBusMap(h, o, t, s).value, "tripCode") == t
              && StringField(LastBusMap(h, o, t, s).value, "tripStageCode") == s
  {
    if h != [] {
      LastWritersHoldTheirCodes(h[..|h| - 1], o, t, s);
    }
  }

  // ---------- the index after a request ----------

  /** An entry of a list asks for the row. */
  ghost predicate IndexesRow(action: Action, operator: string, entry: Json, r: RouteRow) {
    entry.Obj? && Indexes(StoredEntry(action, IdentifiersOf(operator, entry.members), entry.members, ZERO_CLOCK), r)
  }

  ghost predicate AnyIndexesRow(action: Action, operator: string, entries: seq<Json>, r: RouteRow) {
    exists e :: e in entries && IndexesRow(action, operator, e, r)
  }

  /** The rows indexed afterwards are those from before and those some entry of the request asks for. */
  lemma {:induction false} RequestIndexes(h: seq<StoredEntry>, action: Action, operator: string, entries: seq<Json>,
                                          clock: nat -> int, r: RouteRow)
    requires AllStorable(action, operator, entries)
    ensures r in RoutesOf(HistoryWrites(h + HistoryOf(action, operator, entries, clock)))
            <==> r in RoutesOf(HistoryWrites(h)) || AnyIndexesRow(action, operator, entries, r)
  {
    if entries == [] {
      assert h + [] == h;
    } else {
      var front, last := entries[..|entries| - 1], entries[|entries| - 1];
      var before := h + HistoryOf(action, operator, front, clock);
      var e := StoredEntry(action, IdentifiersOf(operator, last.members), last.members, clock(|entries| - 1));
      RequestIndexes(h, action, operator, front, clock, r);
      AppendIsAssociative(h, HistoryOf(action, operator, front, clock), [e]);
      HistoryGrows(before, e);
      RowsOfGrownLog(HistoryWrites(before), e, r);
      SplitLast(entries);
      assert Indexes(e, r) <==> IndexesRow(action, operator, last, r);
      assert forall x :: x in entries <==> x in front || x == last;
    }
  }

  /** A busmap request indexes nothing. */
  lemma BusMapsIndexNothing(h: seq<StoredEntry>, operator: string, entries: seq<Json>, clock: nat -> int, r: RouteRow)
    requires AllStorable(BusMap, operator, entries)
    ensures r in RoutesOf(HistoryWrites(h + HistoryOf(BusMap, operator, entries, clock)))
            <==> r in RoutesOf(HistoryWrites(h))
  {
    RequestIndexes(h, BusMap, operator, entries, clock, r);
  }
}
