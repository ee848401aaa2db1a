/** When a second live read of a route matches after the first one repaired the cache: the SEARCH action. */
module Reverification {
  import opened Wrappers
  import opened Text
  import opened JsonTree
  import opened Canonical
  import opened Collector
  import opened ContentRelation
  import opened Stations
  import opened Documents
  import opened Storage
  import opened LastWriter
  import opened Overlays
  import opened Reader
  import opened Pairing
  import opened LiveCopy
  import opened LiveReads
  import opened SeatLayouts

  // ---------- reading a history ----------

  /** A read that refreshes nothing, over these candidate rows and with no failing key. */
  function PlainRead(rows: seq<RouteRow>): View {
    View(false, rows, {}, false, 1)
  }

  /** Comparing an answer with such a read of a history finds no difference. */
  ghost predicate Matches(env: Environment, h: seq<StoredEntry>, action: LiveAction, l: RouteLookup, data: LiveData,
                          rows: seq<RouteRow>)
  {
    SameContents(env, CachedCopy(env, CacheOf(HistoryWrites(h)), action, l, PlainRead(rows)), data)
  }

  /** What a search serves. */
  ghost predicate ServesRow(h: seq<StoredEntry>, l: RouteLookup, rows: seq<RouteRow>, r: RouteRow) {
    r in rows && RowServes(h, RouteOf(l), r)
  }

  lemma {:induction false} ServedRowIsAnswered(h: seq<StoredEntry>, l: RouteLookup, rows: seq<RouteRow>, r: RouteRow)
    requires ServesRow(h, l, rows, r)
    ensures LastWritten(h, r) in ServedEntries(h, RouteOf(l), rows)
  {
    var front := rows[..|rows| - 1];
    SplitLast(rows);
    if r in front {
      ServedRowIsAnswered(h, l, front, r);
    }
  }

  lemma {:induction false} AnsweredEntryHasRow(h: seq<StoredEntry>, l: RouteLookup, rows: seq<RouteRow>, s: Json)
    returns (r: RouteRow)
    requires s in ServedEntries(h, RouteOf(l), rows)
    ensures ServesRow(h, l, rows, r) && s == LastWritten(h, r)
  {
    var front, last := rows[..|rows| - 1], rows[|rows| - 1];
    SplitLast(rows);
    if s in ServedEntries(h, RouteOf(l), front) {
      r := AnsweredEntryHasRow(h, l, front, s);
    } else {
      r := last;
    }
  }

  /** A comparison with served entries, none of which means not found. */
  lemma ServedContents(env: Environment, served: seq<Json>, data: LiveData)
    requires data.Arr? && data.elems != []
    ensures var live := RawAll(env, data.elems);
            SameContents(env, if served == [] then Err(NotFound) else Ok(served), data)
            <==> && Identities(RawAll(env, served)) == Identities(live)
                 && forall e :: e in live ==> Agrees(RawAll(env, served), e)
  {
    var live := RawAll(env, data.elems);
    assert live[0] in live && IdentityOf(live[0]) in Identities(live);
    if served == [] {
      assert Identities(RawAll(env, [])) == {};
    }
  }

  lemma MatchesMeans(env: Environment, h: seq<StoredEntry>, l: RouteLookup, data: LiveData, rows: seq<RouteRow>)
    requires ValidHistory(h) && Lists(rows, RoutesOf(HistoryWrites(h)), RouteOf(l))
    requires data.Arr? && data.elems != []
    ensures var served, live := RawAll(env, ServedEntries(h, RouteOf(l), rows)), RawAll(env, data.elems);
            Matches(env, h, SearchAction, l, data, rows)
            <==> Identities(served) == Identities(live) && forall e :: e in live ==> Agrees(served, e)
  {
    var served := ServedEntries(h, RouteOf(l), rows);
    ServedContents(env, served, data);
    SearchReturnsLastWrites(h, RouteOf(l), rows);
    assert CachedCopy(env, CacheOf(HistoryWrites(h)), SearchAction, l, PlainRead(rows))
        == if served == [] then Err(NotFound) else Ok(served);
  }

  // ---------- the identity of what is served ----------

  /** A served row, and the text that names the operator in its trip document. */
  ghost function OperatorText(h: seq<StoredEntry>, r: RouteRow): string {
    match LastTrip(h, r.operator, r.trip)
    case None => ""
    case Some(trip) => StringField(trip, "operatorCode")
  }

  lemma OverlaidTexts(trip: map<string, Json>, stage: map<string, Json>)
    ensures var both := TripProjection(trip) + StageProjection(stage);
            && StringField(both, "operatorCode") == StringField(trip, "operatorCode")
            && StringField(both, "tripCode") == StringField(trip, "tripCode")
            && StringField(both, "tripStageCode") == StringField(stage, "tripStageCode")
  {
  }

  lemma ServedIdentity(env: Environment, h: seq<StoredEntry>, r: RouteRow)
    requires ValidHistory(h) && r in RoutesOf(HistoryWrites(h))
    ensures LastTrip(h, r.operator, r.trip).Some? && LastStage(h, r.operator, r.trip, r.stage).Some?
    ensures IdentityOf(Raw(env, LastWritten(h, r)))
            == if PlainlyDecodes(LastWritten(h, r)) then EntryIdentity(OperatorText(h, r), r.trip, r.stage)
               else NO_IDENTITY
  {
    HistoryRowResolves(h, Lookup("", "", "", ""), r);
    LastWritersHoldTheirCodes(h, r.operator, r.trip, r.stage);
    OverlaidTexts(LastTrip(h, r.operator, r.trip).value, LastStage(h, r.operator, r.trip, r.stage).value);
  }

  /** The row of the route for a trip and stage. */
  function RowFor(l: RouteLookup, trip: string, stage: string): RouteRow {
    RouteRow(l.operator, l.date, l.from, l.to, trip, stage)
  }

  /** The entry served under an identity is that of its row. */
  ghost predicate ServedAs(h: seq<StoredEntry>, l: RouteLookup, rows: seq<RouteRow>, id: EntryIdentity) {
    var r := RowFor(l, id.tripCode, id.tripStageCode);
    ServesRow(h, l, rows, r) && PlainlyDecodes(LastWritten(h, r)) && OperatorText(h, r) == id.operatorCode
  }

  lemma RawMembers(env: Environment, values: seq<Json>)
    ensures forall e :: e in RawAll(env, values) <==> exists v :: v in values && e == Raw(env, v)
  {
    forall v | v in values ensures Raw(env, v) in RawAll(env, values) {
      var i :| 0 <= i < |values| && values[i] == v;
      assert RawAll(env, values)[i] == Raw(env, v);
    }
    forall e | e in RawAll(env, values) ensures exists v :: v in values && e == Raw(env, v) {
      var i :| 0 <= i < |values| && RawAll(env, values)[i] == e;
      assert values[i] in values;
    }
  }

  /** Whatever is served under a named identity is the last written entry of the one row it names. */
  lemma ServedUnderIdentity(env: Environment, h: seq<StoredEntry>, l: RouteLookup, rows: seq<RouteRow>, e: Entry)
    requires ValidHistory(h) && Lists(rows, RoutesOf(HistoryWrites(h)), RouteOf(l))
    requires e in RawAll(env, ServedEntries(h, RouteOf(l), rows)) && IdentityOf(e).tripCode != ""
    ensures ServedAs(h, l, rows, IdentityOf(e))
    ensures e == Raw(env, LastWritten(h, RowFor(l, IdentityOf(e).tripCode, IdentityOf(e).tripStageCode)))
  {
    RawMembers(env, ServedEntries(h, RouteOf(l), rows));
    var s :| s in ServedEntries(h, RouteOf(l), rows) && e == Raw(env, s);
    var r := AnsweredEntryHasRow(h, l, rows, s);
    ServedIdentity(env, h, r);
    assert r == RowFor(l, r.trip, r.stage);
  }

  lemma ServedRowIsThere(env: Environment, h: seq<StoredEntry>, l: RouteLookup, rows: seq<RouteRow>, r: RouteRow)
    requires ServesRow(h, l, rows, r)
    ensures Raw(env, LastWritten(h, r)) in RawAll(env, ServedEntries(h, RouteOf(l), rows))
  {
    ServedRowIsAnswered(h, l, rows, r);
    RawMembers(env, ServedEntries(h, RouteOf(l), rows));
  }

  /** An entry of a named identity agrees exactly with the last written entry of its row, where that is served. */
  lemma AgreesWithItsRow(env: Environment, h: seq<StoredEntry>, l: RouteLookup, rows: seq<RouteRow>, live: Entry)
    requires ValidHistory(h) && Lists(rows, RoutesOf(HistoryWrites(h)), RouteOf(l))
    requires live.tree.Some? && IdentityOf(live).tripCode != ""
    ensures var id := IdentityOf(live);
            var r := RowFor(l, id.tripCode, id.tripStageCode);
            Agrees(RawAll(env, ServedEntries(h, RouteOf(l), rows)), live)
            <==> && ServedAs(h, l, rows, id)
                 && Related(Canonicalise(LastWritten(h, r)), Canonicalise(live.tree.value))
  {
    var cached, id := RawAll(env, ServedEntries(h, RouteOf(l), rows)), IdentityOf(live);
    var r := RowFor(l, id.tripCode, id.tripStageCode);
    LastWithFindsIdentities(cached, id);
    if ServedAs(h, l, rows, id) {
      ServedRowIsThere(env, h, l, rows, r);
      ServedIdentity(env, h, r);
      assert IdentityOf(Raw(env, LastWritten(h, r))) in Identities(cached);
    }
    if LastWith(cached, id).Some? {
      ServedUnderIdentity(env, h, l, rows, LastWith(cached, id).value);
    }
  }

  // ---------- an answer that repaired the cache ----------

  /** Everything stored once a search repair wrote these entries on top of a history. */
  ghost function HistoryAfterRepair(h: seq<StoredEntry>, l: RouteLookup, plain: seq<Json>, clock: nat -> int)
    : (after: seq<StoredEntry>)
    requires ValidHistory(h) && AllStorable(Action.Search, l.operator, plain)
    ensures ValidHistory(after)
    ensures HistoryWrites(after) == HistoryWrites(h) + AllWrites(Action.Search, l.operator, plain, clock)
  {
    SuccessfulRequestExtendsHistory(h, Action.Search, l.operator, plain, clock);
    h + HistoryOf(Action.Search, l.operator, plain, clock)
  }

  /** An answer a repair can store. */
  ghost predicate Repairing(h: seq<StoredEntry>, l: RouteLookup, answer: LiveAnswer) {
    && ValidHistory(h) && answer.data.Arr? && answer.data.elems != [] && PlainlyDecodes(answer.data)
    && AllStorable(Action.Search, l.operator, answer.plain.elems)
  }

  /** The same, stored on top of a history, and the rows its route then has. */
  ghost predicate Repaired(h: seq<StoredEntry>, l: RouteLookup, answer: LiveAnswer, clock: nat -> int,
                           rows: seq<RouteRow>)
  {
    && Repairing(h, l, answer)
    && Lists(rows, RoutesOf(HistoryWrites(HistoryAfterRepair(h, l, answer.plain.elems, clock))), RouteOf(l))
  }

  /** The same answer compared again, with a search of its route, finds no difference. */
  ghost predicate MatchesAgain(env: Environment, h: seq<StoredEntry>, l: RouteLookup, answer: LiveAnswer,
                               clock: nat -> int, rows: seq<RouteRow>)
    requires Repaired(h, l, answer, clock, rows)
  {
    Matches(env, HistoryAfterRepair(h, l, answer.plain.elems, clock), SearchAction, l, answer.data, rows)
  }

  // ---------- the guards ----------

  /** The route already has the row, or an entry of the answer asks for it. */
  ghost predicate Listed(h: seq<StoredEntry>, l: RouteLookup, plain: seq<Json>, r: RouteRow) {
    r in RoutesOf(HistoryWrites(h)) || AnyIndexesRow(Action.Search, l.operator, plain, r)
  }

  /** Every stage that served the route before is one the answer carries. */
  ghost predicate NothingElseServed(h: seq<StoredEntry>, l: RouteLookup, plain: seq<Json>) {
    forall r :: r in RoutesOf(HistoryWrites(h)) && RowMatches(r, RouteOf(l)) && RowServes(h, RouteOf(l), r) ==>
      LastOfStage(plain, r.trip, r.stage).Some?
  }

  /**
   * A live entry comes back: its row is listed, the answer's last entry of its stage passes the filter, and
   * the trip fields of the answer's last entry of its trip, overlaid with the stage fields of that one,
   * match it and name the same operator.
   */
  ghost predicate ComesBack(h: seq<StoredEntry>, l: RouteLookup, plain: seq<Json>, live: map<string, Json>) {
    var t, s := StringField(live, "tripCode"), StringField(live, "tripStageCode");
    var trip, stage := LastOfTrip(plain, t), LastOfStage(plain, t, s);
    && trip.Some? && stage.Some?
    && Listed(h, l, plain, RowFor(l, t, s))
    && Passes(StoredStage(stage.value), l.from, l.to)
    && StringField(trip.value, "operatorCode") == StringField(live, "operatorCode")
    && Related(Canonicalise(Obj(TripProjection(trip.value) + StageProjection(stage.value))), Canonicalise(Obj(live)))
  }

  ghost predicate AllComeBack(h: seq<StoredEntry>, l: RouteLookup, answer: LiveAnswer)
    requires answer.data.Arr?
  {
    forall e :: e in answer.data.elems ==> e.Obj? && ComesBack(h, l, answer.plain.elems, e.members)
  }

  // ---------- the answer ----------

  /** An entry as sent and as decoded and encoded again have the same codes, none of them blank. */
  lemma CodesSurvive(h: seq<StoredEntry>, l: RouteLookup, answer: LiveAnswer, i: nat)
    requires Repairing(h, l, answer) && i < |answer.data.elems|
    ensures var e, plain := answer.data.elems[i], answer.plain.elems[i];
            && e.Obj? && plain.Obj? && PlainlyDecodes(e) && StringField(e.members, "tripCode") != ""
            && IsStage(plain, StringField(e.members, "tripCode"), StringField(e.members, "tripStageCode"))
  {
    var e, plain := answer.data.elems[i], answer.plain.elems[i];
    AllStorableMeansEach(Action.Search, l.operator, answer.plain.elems);
    assert e in answer.data.elems && plain in answer.plain.elems && SameButNumbers(e, plain);
    TextSurvives(e.members, plain.members);
    BlankMeansNothing();
  }

  lemma NamedIdentity(env: Environment, e: Json)
    requires e.Obj? && PlainlyDecodes(e)
    ensures IdentityOf(Raw(env, e)) == EntryIdentity(StringField(e.members, "operatorCode"),
                                                     StringField(e.members, "tripCode"),
                                                     StringField(e.members, "tripStageCode"))
  {
  }

  /** What is known of a live entry: it has an identity, and the answer carries its trip and stage. */
  lemma LiveEntryIsCarried(env: Environment, h: seq<StoredEntry>, l: RouteLookup, answer: LiveAnswer, e: Json)
    requires Repairing(h, l, answer) && e in answer.data.elems
    ensures e.Obj?
    ensures var t, s := StringField(e.members, "tripCode"), StringField(e.members, "tripStageCode");
            && t != "" && IdentityOf(Raw(env, e)) == EntryIdentity(StringField(e.members, "operatorCode"), t, s)
            && LastOfTrip(answer.plain.elems, t).Some? && LastOfStage(answer.plain.elems, t, s).Some?
  {
    var i :| 0 <= i < |answer.data.elems| && answer.data.elems[i] == e;
    CodesSurvive(h, l, answer, i);
    NamedIdentity(env, e);
    assert answer.plain.elems[i] in answer.plain.elems;
    var t, s := StringField(e.members, "tripCode"), StringField(e.members, "tripStageCode");
    LastOfTripIsListed(answer.plain.elems, t);
    LastOfStageIsListed(answer.plain.elems, t, s);
  }

  /** A stage the answer carries is that of a live entry. */
  lemma CarriedStageIsLive(l: RouteLookup, answer: LiveAnswer, t: string, s: string) returns (e: Json)
    requires answer.data.Arr? && LastOfStage(answer.plain.elems, t, s).Some?
    ensures e in answer.data.elems && IsStage(e, t, s)
  {
    var plain := answer.plain.elems;
    LastOfStageIsListed(plain, t, s);
    var x :| x in plain && IsStage(x, t, s);
    var i :| 0 <= i < |plain| && plain[i] == x;
    e := answer.data.elems[i];
    assert SameButNumbers(e, x);
    TextSurvives(e.members, x.members);
  }

  lemma OverlayDecodes(trip: map<string, Json>, stage: map<string, Json>)
    requires PlainlyDecodes(Obj(trip)) && PlainlyDecodes(Obj(stage))
    ensures PlainlyDecodes(Obj(TripProjection(trip) + StageProjection(stage)))
  {
    forall name | name in trip ensures PlainlyDecodes(TripValue(name, trip[name])) {
      assert PlainlyDecodes(trip[name]);
    }
  }

  lemma CarriedEntriesDecode(answer: LiveAnswer, t: string, s: string)
    requires answer.plain.Arr?
    ensures LastOfTrip(answer.plain.elems, t).Some? ==> PlainlyDecodes(Obj(LastOfTrip(answer.plain.elems, t).value))
    ensures LastOfStage(answer.plain.elems, t, s).Some? ==>
              PlainlyDecodes(Obj(LastOfStage(answer.plain.elems, t, s).value))
  {
    LastOfTripIsListed(answer.plain.elems, t);
    LastOfStageIsListed(answer.plain.elems, t, s);
  }

  /** A row's documents decide what is served of it. */
  lemma RowOfDocuments(h: seq<StoredEntry>, lookup: Lookup, r: RouteRow, trip: map<string, Json>,
                       stage: map<string, Json>)
    requires LastTrip(h, r.operator, r.trip) == Some(trip) && LastStage(h, r.operator, r.trip, r.stage) == Some(stage)
    ensures RowServes(h, lookup, r) <==> Passes(StoredStage(stage), lookup.from, lookup.to)
    ensures LastWritten(h, r) == Obj(TripProjection(trip) + StageProjection(stage))
    ensures OperatorText(h, r) == StringField(trip, "operatorCode")
  {
  }

  /** After the repair, a carried stage is served as its last entries in the answer say. */
  lemma CarriedRow(h: seq<StoredEntry>, l: RouteLookup, answer: LiveAnswer, clock: nat -> int, t: string, s: string)
    requires Repairing(h, l, answer) && l.operator != ""
    requires LastOfTrip(answer.plain.elems, t).Some? && LastOfStage(answer.plain.elems, t, s).Some?
    ensures var after, r := HistoryAfterRepair(h, l, answer.plain.elems, clock), RowFor(l, t, s);
            var trip, stage := LastOfTrip(answer.plain.elems, t).value, LastOfStage(answer.plain.elems, t, s).value;
            && (RowServes(after, RouteOf(l), r) <==> Passes(StoredStage(stage), l.from, l.to))
            && LastWritten(after, r) == Obj(TripProjection(trip) + StageProjection(stage))
            && PlainlyDecodes(LastWritten(after, r)) && OperatorText(after, r) == StringField(trip, "operatorCode")
  {
    var trip, stage := LastOfTrip(answer.plain.elems, t).value, LastOfStage(answer.plain.elems, t, s).value;
    CarriedEntriesDecode(answer, t, s);
    OverlayDecodes(trip, stage);
    RequestOverlays(h, Action.Search, l.operator, answer.plain.elems, clock, t, s);
    RowOfDocuments(HistoryAfterRepair(h, l, answer.plain.elems, clock), RouteOf(l), RowFor(l, t, s), trip, stage);
  }

  /** A stage the answer does not carry is served as before. */
  lemma UncarriedRow(h: seq<StoredEntry>, l: RouteLookup, answer: LiveAnswer, clock: nat -> int, r: RouteRow)
    requires Repairing(h, l, answer) && l.operator != "" && RowMatches(r, RouteOf(l))
    requires LastOfStage(answer.plain.elems, r.trip, r.stage).None?
    ensures RowServes(HistoryAfterRepair(h, l, answer.plain.elems, clock), RouteOf(l), r)
            <==> RowServes(h, RouteOf(l), r)
  {
    RequestOverlays(h, Action.Search, l.operator, answer.plain.elems, clock, r.trip, r.stage);
  }

  lemma ListedRows(h: seq<StoredEntry>, l: RouteLookup, answer: LiveAnswer, clock: nat -> int, rows: seq<RouteRow>,
                   r: RouteRow)
    requires Repaired(h, l, answer, clock, rows) && RowMatches(r, RouteOf(l))
    ensures r in rows <==> Listed(h, l, answer.plain.elems, r)
    ensures r in rows ==> l.operator != ""
  {
    RequestIndexes(h, Action.Search, l.operator, answer.plain.elems, clock, r);
    if r in rows {
      IndexedRowsAreColonFree(HistoryAfterRepair(h, l, answer.plain.elems, clock), r);
      BlankMeansNothing();
    }
  }

  /** A row an answer's entry asks for is of a stage the answer carries. */
  lemma IndexedRowIsCarried(l: RouteLookup, plain: seq<Json>, r: RouteRow)
    ensures AnyIndexesRow(Action.Search, l.operator, plain, r) ==> LastOfStage(plain, r.trip, r.stage).Some?
  {
    LastOfStageIsListed(plain, r.trip, r.stage);
    forall e | e in plain && IndexesRow(Action.Search, l.operator, e, r) ensures IsStage(e, r.trip, r.stage) {
    }
  }

  // ---------- the theorem ----------

  /** One live entry agrees with what is served after the repair exactly when it comes back. */
  lemma AgreesWhenItComesBack(env: Environment, h: seq<StoredEntry>, l: RouteLookup, answer: LiveAnswer,
                              clock: nat -> int, rows: seq<RouteRow>, e: Json)
    requires Repaired(h, l, answer, clock, rows) && e in answer.data.elems && e.Obj?
    ensures var after := HistoryAfterRepair(h, l, answer.plain.elems, clock);
            Agrees(RawAll(env, ServedEntries(after, RouteOf(l), rows)), Raw(env, e))
            <==> ComesBack(h, l, answer.plain.elems, e.members)
  {
    var after := HistoryAfterRepair(h, l, answer.plain.elems, clock);
    var t, s := StringField(e.members, "tripCode"), StringField(e.members, "tripStageCode");
    LiveEntryIsCarried(env, h, l, answer, e);
    AgreesWithItsRow(env, after, l, rows, Raw(env, e));
    ListedRows(h, l, answer, clock, rows, RowFor(l, t, s));
    if l.operator != "" {
      CarriedRow(h, l, answer, clock, t, s);
    }
  }

  /** Where every live entry comes back, nothing else is served exactly when nothing else was. */
  lemma OnlyLiveIsServed(env: Environment, h: seq<StoredEntry>, l: RouteLookup, answer: LiveAnswer, clock: nat -> int,
                         rows: seq<RouteRow>)
    requires Repaired(h, l, answer, clock, rows)
    requires NothingElseServed(h, l, answer.plain.elems) && AllComeBack(h, l, answer)
    ensures var after := HistoryAfterRepair(h, l, answer.plain.elems, clock);
            Identities(RawAll(env, ServedEntries(after, RouteOf(l), rows)))
            <= Identities(RawAll(env, answer.data.elems))
  {
    var after := HistoryAfterRepair(h, l, answer.plain.elems, clock);
    var served := ServedEntries(after, RouteOf(l), rows);
    RawMembers(env, served);
    forall s | s in served ensures IdentityOf(Raw(env, s)) in Identities(RawAll(env, answer.data.elems)) {
      var r := AnsweredEntryHasRow(after, l, rows, s);
      ServedRowIsLive(env, h, l, answer, clock, rows, r);
    }
  }

  lemma UncarriedRowsAreLost(h: seq<StoredEntry>, l: RouteLookup, answer: LiveAnswer, clock: nat -> int, r: RouteRow)
    requires Repairing(h, l, answer) && l.operator != "" && RowMatches(r, RouteOf(l))
    requires NothingElseServed(h, l, answer.plain.elems) && Listed(h, l, answer.plain.elems, r)
    requires LastOfStage(answer.plain.elems, r.trip, r.stage).None?
    ensures !RowServes(HistoryAfterRepair(h, l, answer.plain.elems, clock), RouteOf(l), r)
  {
    IndexedRowIsCarried(l, answer.plain.elems, r);
    UncarriedRow(h, l, answer, clock, r);
  }

  lemma ServedRowIsCarried(h: seq<StoredEntry>, l: RouteLookup, answer: LiveAnswer, clock: nat -> int,
                           rows: seq<RouteRow>, r: RouteRow)
    requires Repaired(h, l, answer, clock, rows) && NothingElseServed(h, l, answer.plain.elems)
    requires ServesRow(HistoryAfterRepair(h, l, answer.plain.elems, clock), l, rows, r)
    ensures LastOfStage(answer.plain.elems, r.trip, r.stage).Some? && l.operator != ""
  {
    ListedRows(h, l, answer, clock, rows, r);
    if LastOfStage(answer.plain.elems, r.trip, r.stage).None? {
      UncarriedRowsAreLost(h, l, answer, clock, r);
    }
  }

  lemma CarriedIdentity(env: Environment, h: seq<StoredEntry>, l: RouteLookup, answer: LiveAnswer, clock: nat -> int,
                        t: string, s: string)
    requires Repairing(h, l, answer) && l.operator != ""
    requires LastOfTrip(answer.plain.elems, t).Some? && LastOfStage(answer.plain.elems, t, s).Some?
    requires RowFor(l, t, s) in RoutesOf(HistoryWrites(HistoryAfterRepair(h, l, answer.plain.elems, clock)))
    ensures IdentityOf(Raw(env, LastWritten(HistoryAfterRepair(h, l, answer.plain.elems, clock), RowFor(l, t, s))))
            == EntryIdentity(StringField(LastOfTrip(answer.plain.elems, t).value, "operatorCode"), t, s)
  {
    CarriedRow(h, l, answer, clock, t, s);
    ServedIdentity(env, HistoryAfterRepair(h, l, answer.plain.elems, clock), RowFor(l, t, s));
  }

  lemma ServedRowIsLive(env: Environment, h: seq<StoredEntry>, l: RouteLookup, answer: LiveAnswer, clock: nat -> int,
                        rows: seq<RouteRow>, r: RouteRow)
    requires Repaired(h, l, answer, clock, rows)
    requires NothingElseServed(h, l, answer.plain.elems) && AllComeBack(h, l, answer)
    requires ServesRow(HistoryAfterRepair(h, l, answer.plain.elems, clock), l, rows, r)
    ensures IdentityOf(Raw(env, LastWritten(HistoryAfterRepair(h, l, answer.plain.elems, clock), r)))
            in Identities(RawAll(env, answer.data.elems))
  {
    ServedRowIsCarried(h, l, answer, clock, rows, r);
    var e := CarriedStageIsLive(l, answer, r.trip, r.stage);
    LiveEntryIsCarried(env, h, l, answer, e);
    assert r == RowFor(l, r.trip, r.stage);
    CarriedIdentity(env, h, l, answer, clock, r.trip, r.stage);
    RawMembers(env, answer.data.elems);
  }

  /** Something else served before is still served, under an identity no live entry has. */
  lemma ElseServedIsSeen(env: Environment, h: seq<StoredEntry>, l: RouteLookup, answer: LiveAnswer, clock: nat -> int,
                         rows: seq<RouteRow>, r: RouteRow)
    requires Repaired(h, l, answer, clock, rows) && r in RoutesOf(HistoryWrites(h)) && RowMatches(r, RouteOf(l))
    requires RowServes(h, RouteOf(l), r) && LastOfStage(answer.plain.elems, r.trip, r.stage).None?
    ensures var after := HistoryAfterRepair(h, l, answer.plain.elems, clock);
            Identities(RawAll(env, ServedEntries(after, RouteOf(l), rows)))
            != Identities(RawAll(env, answer.data.elems))
  {
    var after := HistoryAfterRepair(h, l, answer.plain.elems, clock);
    ListedRows(h, l, answer, clock, rows, r);
    UncarriedRow(h, l, answer, clock, r);
    ServedRowIsThere(env, after, l, rows, r);
    ServedIdentity(env, after, r);
    UncarriedIdentity(env, h, l, answer, IdentityOf(Raw(env, LastWritten(after, r))), r.trip, r.stage);
  }

  lemma ElseServedDiffers(env: Environment, h: seq<StoredEntry>, l: RouteLookup, answer: LiveAnswer, clock: nat -> int,
                          rows: seq<RouteRow>)
    requires Repaired(h, l, answer, clock, rows) && !NothingElseServed(h, l, answer.plain.elems)
    ensures var after := HistoryAfterRepair(h, l, answer.plain.elems, clock);
            Identities(RawAll(env, ServedEntries(after, RouteOf(l), rows)))
            != Identities(RawAll(env, answer.data.elems))
  {
    var r :| r in RoutesOf(HistoryWrites(h)) && RowMatches(r, RouteOf(l)) && RowServes(h, RouteOf(l), r)
          && LastOfStage(answer.plain.elems, r.trip, r.stage).None?;
    ElseServedIsSeen(env, h, l, answer, clock, rows, r);
  }

  /** Neither the identity of an uncarried stage nor none at all is that of a live entry. */
  lemma UncarriedIdentity(env: Environment, h: seq<StoredEntry>, l: RouteLookup, answer: LiveAnswer, id: EntryIdentity,
                          t: string, s: string)
    requires Repairing(h, l, answer) && LastOfStage(answer.plain.elems, t, s).None?
    requires id == NO_IDENTITY || (id.tripCode == t && id.tripStageCode == s)
    ensures id !in Identities(RawAll(env, answer.data.elems))
  {
    RawMembers(env, answer.data.elems);
    forall e | e in answer.data.elems ensures IdentityOf(Raw(env, e)) != id {
      LiveEntryIsCarried(env, h, l, answer, e);
    }
  }

  lemma AllRawAgree(env: Environment, served: seq<Entry>, values: seq<Json>)
    ensures (forall x :: x in RawAll(env, values) ==> Agrees(served, x))
            <==> forall v :: v in values ==> Agrees(served, Raw(env, v))
  {
    RawMembers(env, values);
    if forall x :: x in RawAll(env, values) ==> Agrees(served, x) {
      forall v | v in values ensures Agrees(served, Raw(env, v)) {
        assert Raw(env, v) in RawAll(env, values);
      }
    }
  }

  lemma LiveEntryAgrees(env: Environment, h: seq<StoredEntry>, l: RouteLookup, answer: LiveAnswer, clock: nat -> int,
                        rows: seq<RouteRow>, e: Json, served: seq<Entry>)
    requires Repaired(h, l, answer, clock, rows) && e in answer.data.elems
    requires served == RawAll(env, ServedEntries(HistoryAfterRepair(h, l, answer.plain.elems, clock), RouteOf(l), rows))
    ensures e.Obj? && (Agrees(served, Raw(env, e)) <==> ComesBack(h, l, answer.plain.elems, e.members))
  {
    LiveEntryIsCarried(env, h, l, answer, e);
    AgreesWhenItComesBack(env, h, l, answer, clock, rows, e);
  }

  lemma AllAgreeWhenAllComeBack(env: Environment, h: seq<StoredEntry>, l: RouteLookup, answer: LiveAnswer,
                                clock: nat -> int, rows: seq<RouteRow>, served: seq<Entry>)
    requires Repaired(h, l, answer, clock, rows)
    requires served == RawAll(env, ServedEntries(HistoryAfterRepair(h, l, answer.plain.elems, clock), RouteOf(l), rows))
    ensures (forall x :: x in RawAll(env, answer.data.elems) ==> Agrees(served, x)) <==> AllComeBack(h, l, answer)
  {
    AllRawAgree(env, served, answer.data.elems);
    forall e | e in answer.data.elems
      ensures e.Obj? && (Agrees(served, Raw(env, e)) <==> ComesBack(h, l, answer.plain.elems, e.members))
    {
      LiveEntryAgrees(env, h, l, answer, clock, rows, e, served);
    }
  }

  /**
   * After a search repair on any history, the same answer matches if and only if every stage that served the
   * route before is one it carries, and every one of its entries comes back.
   */
  lemma SecondReadMatches(env: Environment, h: seq<StoredEntry>, l: RouteLookup, answer: LiveAnswer, clock: nat -> int,
                          rows: seq<RouteRow>)
    requires Repaired(h, l, answer, clock, rows)
    ensures MatchesAgain(env, h, l, answer, clock, rows)
            <==> NothingElseServed(h, l, answer.plain.elems) && AllComeBack(h, l, answer)
  {
    var after := HistoryAfterRepair(h, l, answer.plain.elems, clock);
    var served, live := RawAll(env, ServedEntries(after, RouteOf(l), rows)), RawAll(env, answer.data.elems);
    MatchesMeans(env, after, l, answer.data, rows);
    AllAgreeWhenAllComeBack(env, h, l, answer, clock, rows, served);
    if !NothingElseServed(h, l, answer.plain.elems) {
      ElseServedDiffers(env, h, l, answer, clock, rows);
    } else if AllComeBack(h, l, answer) {
      OnlyLiveIsServed(env, h, l, answer, clock, rows);
      AgreeingEntriesAreCached(served, live);
    }
  }

  // ---------- causes ----------

  lemma OverlayLacksLayout(trip: map<string, Json>, stage: map<string, Json>)
    ensures LacksLayout(Obj(TripProjection(trip) + StageProjection(stage)))
  {
  }

  lemma LayoutNeverComesBack(h: seq<StoredEntry>, l: RouteLookup, plain: seq<Json>, live: map<string, Json>)
    requires HasLayout(live)
    ensures !ComesBack(h, l, plain, live)
  {
    var t, s := StringField(live, "tripCode"), StringField(live, "tripStageCode");
    if LastOfTrip(plain, t).Some? && LastOfStage(plain, t, s).Some? {
      var trip, stage := LastOfTrip(plain, t).value, LastOfStage(plain, t, s).value;
      OverlayLacksLayout(trip, stage);
      LayoutSetsApart(Obj(TripProjection(trip) + StageProjection(stage)), live);
    }
  }

  lemma EveryEntryMustComeBack(env: Environment, h: seq<StoredEntry>, l: RouteLookup, answer: LiveAnswer,
                               clock: nat -> int, rows: seq<RouteRow>, e: Json)
    requires Repaired(h, l, answer, clock, rows) && e in answer.data.elems && e.Obj?
    requires !ComesBack(h, l, answer.plain.elems, e.members)
    ensures !MatchesAgain(env, h, l, answer, clock, rows)
  {
    SecondReadMatches(env, h, l, answer, clock, rows);
  }

  /** So an answer with a seat layout in any entry never matches again, whatever was stored before. */
  lemma SeatLayoutsNeverMatchAgain(env: Environment, h: seq<StoredEntry>, l: RouteLookup, answer: LiveAnswer,
                                   clock: nat -> int, rows: seq<RouteRow>, e: Json)
    requires Repaired(h, l, answer, clock, rows) && e in answer.data.elems && e.Obj? && HasLayout(e.members)
    ensures !MatchesAgain(env, h, l, answer, clock, rows)
  {
    LayoutNeverComesBack(h, l, answer.plain.elems, e.members);
    EveryEntryMustComeBack(env, h, l, answer, clock, rows, e);
  }

  /** A trip-owned field of a live entry is not that of the answer's last entry of its trip. */
  ghost predicate DiffersFromItsTrip(plain: seq<Json>, live: map<string, Json>, name: string) {
    var trip := LastOfTrip(plain, StringField(live, "tripCode"));
    name !in STAGE_FIELDS && trip.Some? && !Related(MemberOf(TripProjection(trip.value), name), MemberOf(live, name))
  }

  lemma DifferingTripNeverComesBack(h: seq<StoredEntry>, l: RouteLookup, plain: seq<Json>, live: map<string, Json>,
                                    name: string)
    requires DiffersFromItsTrip(plain, live, name)
    ensures !ComesBack(h, l, plain, live)
  {
    var t, s := StringField(live, "tripCode"), StringField(live, "tripStageCode");
    if LastOfStage(plain, t, s).Some? {
      var trip, stage := TripProjection(LastOfTrip(plain, t).value), StageProjection(LastOfStage(plain, t, s).value);
      assert MemberOf(trip + stage, name) == MemberOf(trip, name);
      OneMemberSetsApart(trip + stage, live, name);
    }
  }

  /** Nor does an answer with two stages of one trip whose trip-owned fields differ, with or without a layout. */
  lemma DifferingTripsNeverMatchAgain(env: Environment, h: seq<StoredEntry>, l: RouteLookup, answer: LiveAnswer,
                                      clock: nat -> int, rows: seq<RouteRow>, e: Json, name: string)
    requires Repaired(h, l, answer, clock, rows) && e in answer.data.elems && e.Obj?
    requires DiffersFromItsTrip(answer.plain.elems, e.members, name)
    ensures !MatchesAgain(env, h, l, answer, clock, rows)
  {
    DifferingTripNeverComesBack(h, l, answer.plain.elems, e.members, name);
    EveryEntryMustComeBack(env, h, l, answer, clock, rows, e);
  }

  /** No two entries of one trip. */
  ghost predicate DistinctTrips(entries: seq<Json>) {
    forall x, y :: x in entries && y in entries && x.Obj? && IsTrip(y, StringField(x.members, "tripCode")) ==> x == y
  }

  /** An entry is listed under the route, its stage passes the filter, and it has no seat layout. */
  ghost predicate Unspoilt(h: seq<StoredEntry>, l: RouteLookup, entries: seq<Json>, e: map<string, Json>) {
    && Listed(h, l, entries, RowFor(l, StringField(e, "tripCode"), StringField(e, "tripStageCode")))
    && Passes(StoredStage(e), l.from, l.to) && !HasLayout(e)
  }

  /** A live entry that is alone in its trip comes back exactly when its row is listed, it passes and has no layout. */
  lemma AloneComesBack(h: seq<StoredEntry>, l: RouteLookup, entries: seq<Json>, e: map<string, Json>)
    requires DistinctTrips(entries) && Obj(e) in entries
    ensures ComesBack(h, l, entries, e) <==> Unspoilt(h, l, entries, e)
  {
    var t, s := StringField(e, "tripCode"), StringField(e, "tripStageCode");
    assert IsStage(Obj(e), t, s);
    LastOfTripIsListed(entries, t);
    LastOfStageIsListed(entries, t, s);
    assert LastOfTrip(entries, t) == Some(e) && LastOfStage(entries, t, s) == Some(e);
    SplitMergesBack(e);
    LayoutIsTheOnlyLoss(e);
  }

  /**
   * With its numbers unchanged and no two entries of one trip, an answer matches again if and only if nothing
   * else served the route and each of its entries is listed under it, passes the filter and has no seat layout.
   */
  lemma DistinctTripsMatchAgain(env: Environment, h: seq<StoredEntry>, l: RouteLookup, answer: LiveAnswer,
                                clock: nat -> int, rows: seq<RouteRow>)
    requires Repaired(h, l, answer, clock, rows) && answer.plain == answer.data && DistinctTrips(answer.data.elems)
    ensures MatchesAgain(env, h, l, answer, clock, rows)
            <==> && NothingElseServed(h, l, answer.data.elems)
                 && forall e :: e in answer.data.elems ==> e.Obj? && Unspoilt(h, l, answer.data.elems, e.members)
  {
    SecondReadMatches(env, h, l, answer, clock, rows);
    forall e | e in answer.data.elems && e.Obj?
      ensures ComesBack(h, l, answer.data.elems, e.members) <==> Unspoilt(h, l, answer.data.elems, e.members)
    {
      AloneComesBack(h, l, answer.data.elems, e.members);
    }
  }
}
