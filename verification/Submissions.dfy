/** What the Master makes of a submission: the action it names, the entries it carries, and what a busmap leaves. */
module Submissions {
  import opened Wrappers
  import opened JsonTree
  import opened Documents
  import opened Storage
  import opened LastWriter
  import opened Overlays
  import opened Reader

  // ---------- the action a submission names ----------

  /** The word in any letter case. */
  predicate Spells(text: string, word: string) {
    |text| == |word| && forall i :: 0 <= i < |word| ==> text[i] == word[i] || text[i] == UpperChar(word[i])
  }

  predicate LowerLetters(word: string) {
    forall i :: 0 <= i < |word| ==> 'a' <= word[i] <= 'z'
  }

  lemma UpperIgnoresCase(text: string, word: string)
    requires LowerLetters(word)
    ensures Upper(text) == Upper(word) <==> Spells(text, word)
  {
    if Upper(text) == Upper(word) {
      forall i | 0 <= i < |word| ensures text[i] == word[i] || text[i] == UpperChar(word[i]) {
        assert |Upper(text)| == |text| && Upper(text)[i] == UpperChar(text[i]);
        assert |Upper(word)| == |word| && Upper(word)[i] == UpperChar(word[i]);
      }
      assert |Upper(text)| == |text|;
    }
    if Spells(text, word) {
      forall i | 0 <= i < |word| ensures Upper(text)[i] == Upper(word)[i] {
      }
    }
  }

  lemma UpperNames()
    ensures Upper("search") == "SEARCH" && Upper("busmap") == "BUSMAP" && Upper("searchbusmap") == "SEARCHBUSMAP"
  {
  }

  /** The payload of a submission: what the Worker wrapped, else the whole of it. */
  function PayloadOf(root: map<string, Json>): Option<map<string, Json>> {
    if "orbitResponse" !in root then Some(root)
    else if root["orbitResponse"].Obj? then Some(root["orbitResponse"].members) else None
  }

  /** A text of the envelope, else of the payload. */
  function Named(root: map<string, Json>, payload: map<string, Json>, name: string): string {
    if StringField(root, name) != "" then StringField(root, name) else StringField(payload, name)
  }

  /** The action for a spelling: the two busmap ones by name, everything else a search. */
  ghost predicate Means(text: string, action: Action) {
    match action
    case BusMap => Spells(text, "busmap")
    case SearchBusMap => Spells(text, "searchbusmap")
    case Search => !Spells(text, "busmap") && !Spells(text, "searchbusmap")
  }

  lemma ActionOfSpelling(text: string)
    ensures Means(text, ActionNamed(Upper(text)))
    ensures Upper(text) == "BUSMAP" <==> Spells(text, "busmap")
    ensures Upper(text) == "" <==> text == ""
  {
    UpperNames();
    UpperIgnoresCase(text, "busmap");
    UpperIgnoresCase(text, "searchbusmap");
    assert |Upper(text)| == |text|;
  }

  lemma OneMeaning(text: string, a: Action, b: Action)
    requires Means(text, a) && Means(text, b)
    ensures a == b
  {
  }

  // ---------- the entries a submission carries ----------

  /** A data list is stored entry by entry, for the action named, whoever submits it; an empty one not at all. */
  lemma ListIsRead(root: map<string, Json>, payload: map<string, Json>, action: Action)
    requires PayloadOf(root) == Some(payload) && "data" in payload && payload["data"].Arr?
    requires Means(Named(root, payload, "actionType"), action)
    ensures RequestOf(Obj(root))
            == if payload["data"].elems == [] then None
               else Some((payload["data"].elems, action, Named(root, payload, "operatorCode")))
  {
    ActionOfSpelling(Named(root, payload, "actionType"));
    OneMeaning(Named(root, payload, "actionType"), action, ActionNamed(Upper(Named(root, payload, "actionType"))));
  }

  /** A Worker's busmap may be a single data object, or the payload itself when it has no data. */
  lemma WorkerBusMapIsRead(root: map<string, Json>, payload: map<string, Json>)
    requires "orbitResponse" in root && PayloadOf(root) == Some(payload)
    requires Spells(Named(root, payload, "actionType"), "busmap")
    ensures var operator := Named(root, payload, "operatorCode");
            && ("data" !in payload ==> RequestOf(Obj(root)) == Some(([Obj(payload)], BusMap, operator)))
            && ("data" in payload && payload["data"].Obj? ==>
                  RequestOf(Obj(root)) == Some(([payload["data"]], BusMap, operator)))
            && ("data" in payload && !payload["data"].Obj? && !payload["data"].Arr? ==> RequestOf(Obj(root)) == None)
  {
    ActionOfSpelling(Named(root, payload, "actionType"));
  }

  /** A single object straight from Bits is a busmap when no action is named, else of the action named. */
  lemma DirectObjectIsRead(root: map<string, Json>, action: Action)
    requires "orbitResponse" !in root && "data" in root && root["data"].Obj?
    requires Means(StringField(root, "actionType"), action)
    ensures RequestOf(Obj(root))
            == Some(([root["data"]], if StringField(root, "actionType") == "" then BusMap else action,
                     StringField(root, "operatorCode")))
  {
    ActionOfSpelling(StringField(root, "actionType"));
    OneMeaning(StringField(root, "actionType"), action, ActionNamed(Upper(StringField(root, "actionType"))));
  }

  /** Nothing else is a request: no object, a wrapped non-object, or no entries where they are looked for. */
  lemma NothingElseIsRead(root: map<string, Json>, payload: map<string, Json>)
    requires PayloadOf(root) == Some(payload)
    requires "data" !in payload || !payload["data"].Arr?
    requires "orbitResponse" !in root ==> "data" !in payload || !payload["data"].Obj?
    requires "orbitResponse" in root ==> !Spells(Named(root, payload, "actionType"), "busmap")
    ensures RequestOf(Obj(root)) == None
  {
    ActionOfSpelling(Named(root, payload, "actionType"));
  }

  lemma MalformedIsNotRead(value: Json)
    requires !value.Obj? || PayloadOf(value.members) == None
    ensures RequestOf(value) == None
  {
  }

  // ---------- what a busmap request writes ----------

  lemma BusMapIsOneDocument(operator: string, entry: Json, now: int)
    requires StorableEntry(BusMap, operator, entry)
    ensures var id := IdentifiersOf(operator, entry.members);
            WritesOf(BusMap, operator, entry, now) == [Document(BusMapKey(id.operator, id.trip, id.stage), entry)]
  {
  }

  /** One document per entry, under its busmap key, holding that entry. */
  lemma {:induction false} BusMapsAreStoredWhole(operator: string, entries: seq<Json>, clock: nat -> int, i: nat)
    requires AllStorable(BusMap, operator, entries) && i < |entries|
    ensures |AllWrites(BusMap, operator, entries, clock)| == |entries| && entries[i].Obj?
    ensures var id := IdentifiersOf(operator, entries[i].members);
            AllWrites(BusMap, operator, entries, clock)[i]
            == Document(BusMapKey(id.operator, id.trip, id.stage), entries[i])
    decreases |entries|
  {
    var front, last := entries[..|entries| - 1], entries[|entries| - 1];
    BusMapIsOneDocument(operator, last, clock(|front|));
    if i < |front| {
      BusMapsAreStoredWhole(operator, front, clock, i);
    } else if front != [] {
      BusMapsAreStoredWhole(operator, front, clock, 0);
    }
  }

  /** What a history becomes when a busmap request is stored completely. */
  ghost function AfterBusMaps(h: seq<StoredEntry>, operator: string, entries: seq<Json>, clock: nat -> int)
    : (after: seq<StoredEntry>)
    requires ValidHistory(h) && AllStorable(BusMap, operator, entries)
    ensures ValidHistory(after)
    ensures HistoryWrites(after) == HistoryWrites(h) + AllWrites(BusMap, operator, entries, clock)
  {
    SuccessfulRequestExtendsHistory(h, BusMap, operator, entries, clock);
    h + HistoryOf(BusMap, operator, entries, clock)
  }

  /** It changes no trip, no stage and no row, and the busmap of every stage it carries. */
  lemma BusMapsChangeBusMapsOnly(h: seq<StoredEntry>, operator: string, entries: seq<Json>, clock: nat -> int,
                                 t: string, s: string, r: RouteRow)
    requires ValidHistory(h) && operator != "" && AllStorable(BusMap, operator, entries)
    ensures var after := AfterBusMaps(h, operator, entries, clock);
            && LastTrip(after, operator, t) == LastTrip(h, operator, t)
            && LastStage(after, operator, t, s) == LastStage(h, operator, t, s)
            && LastBusMap(after, operator, t, s) == Over(LastOfStage(entries, t, s), LastBusMap(h, operator, t, s))
            && (r in RoutesOf(HistoryWrites(after)) <==> r in RoutesOf(HistoryWrites(h)))
  {
    RequestOverlays(h, BusMap, operator, entries, clock, t, s);
    BusMapsIndexNothing(h, operator, entries, clock, r);
  }

  lemma BusMapsKeepServing(h: seq<StoredEntry>, operator: string, entries: seq<Json>, clock: nat -> int, l: RouteLookup,
                           rows: seq<RouteRow>)
    requires ValidHistory(h) && operator != "" && l.operator == operator && AllStorable(BusMap, operator, entries)
    requires ListsTrip(rows, RoutesOf(HistoryWrites(h)), l)
    ensures var after := AfterBusMaps(h, operator, entries, clock);
            && ListsTrip(rows, RoutesOf(HistoryWrites(after)), l)
            && FirstWith(rows, ServedBy(after, RouteOf(l))) == FirstWith(rows, ServedBy(h, RouteOf(l)))
  {
    var after := AfterBusMaps(h, operator, entries, clock);
    forall r ensures r in RoutesOf(HistoryWrites(after)) <==> r in RoutesOf(HistoryWrites(h)) {
      BusMapsChangeBusMapsOnly(h, operator, entries, clock, "", "", r);
    }
    forall r | r in rows ensures ServedBy(after, RouteOf(l))(r) == ServedBy(h, RouteOf(l))(r) {
      BusMapsChangeBusMapsOnly(h, operator, entries, clock, r.trip, r.stage, r);
    }
    SameFirst(rows, ServedBy(after, RouteOf(l)), ServedBy(h, RouteOf(l)));
  }

  /**
   * After a busmap request, whatever was stored before, a busmap read whose first serving stage the request
   * carries returns the request's last entry for that stage.
   */
  lemma BusMapRequestIsReadBack(h: seq<StoredEntry>, operator: string, entries: seq<Json>, clock: nat -> int,
                                legacy: LegacyMerge, l: RouteLookup, rows: seq<RouteRow>, stage: string)
    requires ValidHistory(h) && operator != "" && l.operator == operator && AllStorable(BusMap, operator, entries)
    requires ListsTrip(rows, RoutesOf(HistoryWrites(h)), l)
    requires var first := FirstWith(rows, ServedBy(h, RouteOf(l))); first.Some? && first.value.stage == stage
    requires LastOfStage(entries, l.trip, stage).Some?
    ensures BusMapRead(legacy, CacheOf(HistoryWrites(AfterBusMaps(h, operator, entries, clock))), {}, l, rows)
            == Ok(Obj(LastOfStage(entries, l.trip, stage).value))
  {
    var after := AfterBusMaps(h, operator, entries, clock);
    BusMapsKeepServing(h, operator, entries, clock, l, rows);
    FirstServed(after, RouteOf(l), rows);
    BusMapReturnsLastResponse(after, legacy, l, rows);
    BusMapsChangeBusMapsOnly(h, operator, entries, clock, l.trip, stage, RouteRow("", "", "", "", "", ""));
  }
}
