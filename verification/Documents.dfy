/**
 * How one entry is split over documents and index rows, and what a log of such writes holds.
 *
 * Every store is a sequence of writes; the cache and the two index tables are what is left when
 * the log is replayed, the last write of a key winning.
 */
module Documents {
  import opened Wrappers
  import opened Text
  import opened JsonTree
  import opened Stations

  // ---------- keys ----------

  /** requireKeyComponents, for one component. */
  predicate ValidComponent(s: string) {
    !Blank(s) && ':' !in s
  }

  function TripKey(operator: string, trip: string): string {
    "trip:" + operator + ":" + trip
  }

  function StageKey(operator: string, trip: string, stage: string): string {
    "stage:" + operator + ":" + trip + ":" + stage
  }

  function BusMapKey(operator: string, trip: string, stage: string): string {
    "busmap:" + operator + ":" + trip + ":" + stage
  }

  lemma TripKeysAreInjective(o: string, t: string, o': string, t': string)
    requires ':' !in o && ':' !in o'
    ensures TripKey(o, t) == TripKey(o', t') ==> o == o' && t == t'
  {
    if TripKey(o, t) == TripKey(o', t') {
      assert TripKey(o, t)[5..] == o + ":" + t && TripKey(o', t')[5..] == o' + ":" + t';
      SplitAtMark(':', o, t, o', t');
    }
  }

  lemma ThreePartsAreInjective(o: string, t: string, s: string, o': string, t': string, s': string)
    requires ':' !in o && ':' !in t && ':' !in o' && ':' !in t'
    ensures o + ":" + (t + ":" + s) == o' + ":" + (t' + ":" + s') ==> o == o' && t == t' && s == s'
  {
    if o + ":" + (t + ":" + s) == o' + ":" + (t' + ":" + s') {
      SplitAtMark(':', o, t + ":" + s, o', t' + ":" + s');
      SplitAtMark(':', t, s, t', s');
    }
  }

  lemma StageKeysAreInjective(o: string, t: string, s: string, o': string, t': string, s': string)
    requires ':' !in o && ':' !in t && ':' !in o' && ':' !in t'
    ensures StageKey(o, t, s) == StageKey(o', t', s') ==> o == o' && t == t' && s == s'
  {
    assert StageKey(o, t, s)[6..] == o + ":" + (t + ":" + s) && StageKey(o', t', s')[6..] == o' + ":" + (t' + ":" + s');
    ThreePartsAreInjective(o, t, s, o', t', s');
  }

  lemma BusMapKeysAreInjective(o: string, t: string, s: string, o': string, t': string, s': string)
    requires ':' !in o && ':' !in t && ':' !in o' && ':' !in t'
    ensures BusMapKey(o, t, s) == BusMapKey(o', t', s') ==> o == o' && t == t' && s == s'
  {
    assert BusMapKey(o, t, s)[7..] == o + ":" + (t + ":" + s)
        && BusMapKey(o', t', s')[7..] == o' + ":" + (t' + ":" + s');
    ThreePartsAreInjective(o, t, s, o', t', s');
  }

  lemma KeyInitials(o: string, t: string, s: string)
    ensures TripKey(o, t)[0] == 't' && StageKey(o, t, s)[0] == 's' && BusMapKey(o, t, s)[0] == 'b'
  {
  }

  /** Trip, stage and busmap keys of colon-free components never coincide, within a kind or across kinds. */
  lemma KeysAreInjective(o: string, t: string, s: string, o': string, t': string, s': string)
    requires ':' !in o && ':' !in t && ':' !in s && ':' !in o' && ':' !in t' && ':' !in s'
    ensures TripKey(o, t) == TripKey(o', t') <==> o == o' && t == t'
    ensures StageKey(o, t, s) == StageKey(o', t', s') <==> o == o' && t == t' && s == s'
    ensures BusMapKey(o, t, s) == BusMapKey(o', t', s') <==> o == o' && t == t' && s == s'
    ensures TripKey(o, t) != StageKey(o', t', s') && TripKey(o, t) != BusMapKey(o', t', s')
    ensures StageKey(o, t, s) != BusMapKey(o', t', s')
  {
    TripKeysAreInjective(o, t, o', t');
    StageKeysAreInjective(o, t, s, o', t', s');
    BusMapKeysAreInjective(o, t, s, o', t', s');
    KeyInitials(o, t, s);
    KeyInitials(o', t', s');
  }

  // ---------- projections ----------

  function WithoutSeatLayout(bus: map<string, Json>): map<string, Json> {
    bus - {"seatLayoutList"}
  }

  function TripValue(name: string, value: Json): Json {
    if name == "bus" && value.Obj? then Obj(WithoutSeatLayout(value.members)) else value
  }

  /** commonTripProjection: everything but the stage fields, the bus without its seat layout. */
  function TripProjection(entry: map<string, Json>): map<string, Json> {
    map name | name in entry && name !in STAGE_FIELDS :: TripValue(name, entry[name])
  }

  /** The entry a SEARCH read is meant to give back. */
  function WithoutBusLayout(entry: map<string, Json>): map<string, Json> {
    map name | name in entry :: TripValue(name, entry[name])
  }

  /** Splitting an entry and overlaying the two halves gives it back, minus the bus seat layout. */
  lemma SplitMergesBack(entry: map<string, Json>)
    ensures TripProjection(entry) + StageProjection(entry) == WithoutBusLayout(entry)
    ensures TripProjection(entry).Keys !! StageProjection(entry).Keys
  {
  }

  // ---------- writes ----------

  /** One row of the route index; the primary key is everything but the update time. */
  datatype RouteRow = RouteRow(operator: string, date: string, from: string, to: string, trip: string, stage: string)

  datatype ScheduleRow = ScheduleRow(operator: string, schedule: string, date: string, trip: string, stage: string)

  datatype Write =
    | Document(key: string, json: Json)
    | RouteIndex(route: RouteRow, updatedAt: int)
    | ScheduleIndex(schedule: ScheduleRow, updatedAt: int)

  datatype Action = Search | BusMap | SearchBusMap

  /** The identifying fields of one entry. */
  datatype Identifiers = Identifiers(operator: string, trip: string, stage: string, date: string, from: string,
                                     to: string)

  /** The operator of the envelope, else the entry's own, else that of its operator object. */
  function OperatorOf(envelope: string, entry: map<string, Json>): string {
    if envelope != "" then envelope
    else if StringField(entry, "operatorCode") != "" then StringField(entry, "operatorCode")
    else NestedStringField(entry, "operator", "code")
  }

  function IdentifiersOf(envelope: string, entry: map<string, Json>): Identifiers {
    Identifiers(OperatorOf(envelope, entry), StringField(entry, "tripCode"), StringField(entry, "tripStageCode"),
                StringField(entry, "travelDate"), NestedStringField(entry, "fromStation", "code"),
                NestedStringField(entry, "toStation", "code"))
  }

  predicate KeyIdentifiersValid(id: Identifiers) {
    ValidComponent(id.operator) && ValidComponent(id.trip) && ValidComponent(id.stage)
  }

  predicate SearchIdentifiersValid(id: Identifiers) {
    KeyIdentifiersValid(id) && ValidComponent(id.date) && ValidComponent(id.from) && ValidComponent(id.to)
  }

  /** What each action requires to be present and colon-free. */
  predicate Storable(action: Action, id: Identifiers) {
    if action == BusMap then KeyIdentifiersValid(id) else SearchIdentifiersValid(id)
  }

  function ScheduleOf(entry: map<string, Json>): string {
    if StringField(entry, "scheduleCode") != "" then StringField(entry, "scheduleCode")
    else if StringField(entry, "schedulecode") != "" then StringField(entry, "schedulecode")
    else NestedStringField(entry, "schedule", "code")
  }

  function DocumentWrites(id: Identifiers, entry: map<string, Json>): seq<Write> {
    [Document(TripKey(id.operator, id.trip), Obj(TripProjection(entry))),
     Document(StageKey(id.operator, id.trip, id.stage), Obj(StageProjection(entry)))]
  }

  function RouteRowOf(id: Identifiers, r: Route): RouteRow {
    RouteRow(id.operator, id.date, r.from, r.to, id.trip, id.stage)
  }

  function RouteWrites(id: Identifiers, routes: seq<Route>, now: int): seq<Write> {
    seq(|routes|, i requires 0 <= i < |routes| => RouteIndex(RouteRowOf(id, routes[i]), now))
  }

  ghost function IndexWrites(id: Identifiers, entry: map<string, Json>, now: int): seq<Write> {
    RouteWrites(id, IndexedRoutes(Route(id.from, id.to), StopList(entry)), now)
    + ScheduleWrites(id, ScheduleOf(entry), now)
  }

  /** The schedule row, if there is a schedule. */
  function ScheduleWrites(id: Identifiers, schedule: string, now: int): seq<Write> {
    if schedule == "" then [] else [ScheduleIndex(ScheduleRow(id.operator, schedule, id.date, id.trip, id.stage), now)]
  }

  function BusMapWrites(id: Identifiers, entry: map<string, Json>): seq<Write> {
    [Document(BusMapKey(id.operator, id.trip, id.stage), Obj(entry))]
  }

  /** Every write of one storable entry, in order: documents before index rows before the busmap. */
  ghost function EntryWrites(action: Action, id: Identifiers, entry: map<string, Json>, now: int): seq<Write> {
    match action
    case BusMap => BusMapWrites(id, entry)
    case Search => DocumentWrites(id, entry) + IndexWrites(id, entry, now)
    case SearchBusMap => DocumentWrites(id, entry) + IndexWrites(id, entry, now) + BusMapWrites(id, entry)
  }

  // ---------- what a log holds ----------

  function CacheOf(log: seq<Write>): map<string, Json> {
    if log == [] then map[]
    else
      var front, last := CacheOf(log[..|log| - 1]), log[|log| - 1];
      if last.Document? then front[last.key := last.json] else front
  }

  function RoutesOf(log: seq<Write>): map<RouteRow, int> {
    if log == [] then map[]
    else
      var front, last := RoutesOf(log[..|log| - 1]), log[|log| - 1];
      if last.RouteIndex? then front[last.route := last.updatedAt] else front
  }

  function SchedulesOf(log: seq<Write>): map<ScheduleRow, int> {
    if log == [] then map[]
    else
      var front, last := SchedulesOf(log[..|log| - 1]), log[|log| - 1];
      if last.ScheduleIndex? then front[last.schedule := last.updatedAt] else front
  }

  lemma ReplayOne(log: seq<Write>, w: Write)
    ensures CacheOf(log + [w]) == if w.Document? then CacheOf(log)[w.key := w.json] else CacheOf(log)
    ensures RoutesOf(log + [w]) == if w.RouteIndex? then RoutesOf(log)[w.route := w.updatedAt] else RoutesOf(log)
    ensures SchedulesOf(log + [w])
            == if w.ScheduleIndex? then SchedulesOf(log)[w.schedule := w.updatedAt] else SchedulesOf(log)
  {
    assert (log + [w])[..|log|] == log;
  }

  /** The document last written under a key. */
  function LastDocument(log: seq<Write>, key: string): Option<Json> {
    if log == [] then None
    else
      var last := log[|log| - 1];
      if last.Document? && last.key == key then Some(last.json) else LastDocument(log[..|log| - 1], key)
  }

  lemma {:induction false} CacheHoldsLastDocuments(log: seq<Write>, key: string)
    ensures LastDocument(log, key) == if key in CacheOf(log) then Some(CacheOf(log)[key]) else None
  {
    if log != [] {
      CacheHoldsLastDocuments(log[..|log| - 1], key);
    }
  }

  lemma {:induction false} LastDocumentOfAppend(log: seq<Write>, more: seq<Write>, key: string)
    ensures LastDocument(log + more, key)
            == if LastDocument(more, key).Some? then LastDocument(more, key) else LastDocument(log, key)
  {
    if more == [] {
      assert log + more == log;
    } else {
      var front := more[..|more| - 1];
      assert (log + more)[..|log + more| - 1] == log + front;
      LastDocumentOfAppend(log, front, key);
    }
  }

  // ---------- growing a log ----------

  /** The writes were appended in order, all of them or, when cut short, some prefix. */
  ghost predicate Grew(before: seq<Write>, after: seq<Write>, writes: seq<Write>, complete: bool) {
    if complete then after == before + writes
    else exists n :: 0 <= n <= |writes| && after == before + writes[..n]
  }

  lemma GrewNothing(log: seq<Write>, writes: seq<Write>)
    ensures Grew(log, log, writes, false)
    ensures Grew(log, log, [], true)
  {
    assert log == log + writes[..0];
  }

  // ---------- rows never precede their documents ----------

  /** The two documents an index row points to. */
  ghost predicate Backed(log: seq<Write>, w: Write) {
    match w
    case Document(_, _) => true
    case RouteIndex(r, _) =>
      LastDocument(log, TripKey(r.operator, r.trip)).Some?
          && LastDocument(log, StageKey(r.operator, r.trip, r.stage)).Some?
    case ScheduleIndex(r, _) =>
      LastDocument(log, TripKey(r.operator, r.trip)).Some?
          && LastDocument(log, StageKey(r.operator, r.trip, r.stage)).Some?
  }

  /** Every index row of the log was written after the documents it points to. */
  ghost predicate Sound(log: seq<Write>) {
    forall i :: 0 <= i < |log| ==> Backed(log[..i], log[i])
  }

  lemma LaterWritesKeepBacking(log: seq<Write>, more: seq<Write>, w: Write)
    requires Backed(log, w) || Backed(more, w)
    ensures Backed(log + more, w)
  {
    match w
    case Document(_, _) =>
    case RouteIndex(r, _) =>
      LastDocumentOfAppend(log, more, TripKey(r.operator, r.trip));
      LastDocumentOfAppend(log, more, StageKey(r.operator, r.trip, r.stage));
    case ScheduleIndex(r, _) =>
      LastDocumentOfAppend(log, more, TripKey(r.operator, r.trip));
      LastDocumentOfAppend(log, more, StageKey(r.operator, r.trip, r.stage));
  }

  lemma SoundLogsJoin(log: seq<Write>, more: seq<Write>)
    requires Sound(log) && Sound(more)
    ensures Sound(log + more)
  {
    var all := log + more;
    forall i | 0 <= i < |all| ensures Backed(all[..i], all[i]) {
      if i < |log| {
        assert all[..i] == log[..i];
      } else {
        assert all[..i] == log + more[..i - |log|];
        LaterWritesKeepBacking(log, more[..i - |log|], all[i]);
      }
    }
  }

  lemma SoundPrefix(log: seq<Write>, n: nat)
    requires Sound(log) && n <= |log|
    ensures Sound(log[..n])
  {
    forall i | 0 <= i < n ensures Backed(log[..n][..i], log[..n][i]) {
      assert log[..n][..i] == log[..i];
    }
  }

  lemma BothDocumentsWritten(id: Identifiers, entry: map<string, Json>)
    ensures LastDocument(DocumentWrites(id, entry), TripKey(id.operator, id.trip)).Some?
    ensures LastDocument(DocumentWrites(id, entry), StageKey(id.operator, id.trip, id.stage)).Some?
  {
    var docs := DocumentWrites(id, entry);
    assert docs[..1] == [docs[0]];
    assert LastDocument([docs[0]], docs[0].key).Some?;
  }

  lemma IndexRowsFollowDocuments(action: Action, id: Identifiers, entry: map<string, Json>, now: int, i: nat)
    requires i < |EntryWrites(action, id, entry, now)| && !EntryWrites(action, id, entry, now)[i].Document?
    ensures i >= 2 && EntryWrites(action, id, entry, now)[..i]
        == DocumentWrites(id, entry) + EntryWrites(action, id, entry, now)[2..i]
    ensures Backed(DocumentWrites(id, entry), EntryWrites(action, id, entry, now)[i])
  {
    BothDocumentsWritten(id, entry);
  }

  /** One entry's writes are sound on their own: both documents come before every index row. */
  lemma EntryWritesAreSound(action: Action, id: Identifiers, entry: map<string, Json>, now: int)
    ensures Sound(EntryWrites(action, id, entry, now))
  {
    var writes, docs := EntryWrites(action, id, entry, now), DocumentWrites(id, entry);
    forall i | 0 <= i < |writes| ensures Backed(writes[..i], writes[i]) {
      if !writes[i].Document? {
        IndexRowsFollowDocuments(action, id, entry, now, i);
        LaterWritesKeepBacking(docs, writes[2..i], writes[i]);
      }
    }
  }

  /** In the state a sound log leaves, every row of either index has its trip and stage documents. */
  lemma {:induction false} RowsHaveTheirDocuments(log: seq<Write>)
    requires Sound(log)
    ensures forall r :: r in RoutesOf(log) ==>
              TripKey(r.operator, r.trip) in CacheOf(log) && StageKey(r.operator, r.trip, r.stage) in CacheOf(log)
    ensures forall r :: r in SchedulesOf(log) ==>
              TripKey(r.operator, r.trip) in CacheOf(log) && StageKey(r.operator, r.trip, r.stage) in CacheOf(log)
  {
    if log != [] {
      var front, last := log[..|log| - 1], log[|log| - 1];
      forall i | 0 <= i < |front| ensures Backed(front[..i], front[i]) {
        assert front[..i] == log[..i];
      }
      RowsHaveTheirDocuments(front);
      assert Backed(front, last);
      assert CacheOf(front).Keys <= CacheOf(log).Keys;
      forall key { CacheHoldsLastDocuments(front, key); }
    }
  }
}
