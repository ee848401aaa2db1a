/** How old a cached route is, and how a live answer is turned into a repair of the cache. */
module LiveCopy {
  import opened Wrappers
  import opened Text
  import opened JsonTree
  import opened Documents
  import opened Storage
  import opened Reader

  // ---------- freshness ----------

  datatype Tier = Hot | Warm | Cold

  /** The unset timestamp, before every real one. */
  const ZERO_TIME := 0

  /** classifyFreshness. */
  function ClassifyFreshness(updatedAt: int, now: int, hotMaxAge: int, warmMaxAge: int): Tier {
    if updatedAt == ZERO_TIME then Cold
    else if now - updatedAt <= hotMaxAge then Hot
    else if now - updatedAt <= warmMaxAge then Warm
    else Cold
  }

  /** The latest of the rows' timestamps, the unset one when none is later. */
  ghost predicate IsNewest(newest: int, rows: seq<RouteRow>, routes: map<RouteRow, int>)
    requires forall r :: r in rows ==> r in routes
  {
    && newest >= ZERO_TIME && (forall r :: r in rows ==> routes[r] <= newest)
    && (newest == ZERO_TIME || exists r :: r in rows && routes[r] == newest)
  }

  /** newestUpdatedAt. */
  method NewestUpdatedAt(rows: seq<RouteRow>, routes: map<RouteRow, int>) returns (newest: int)
    requires forall r :: r in rows ==> r in routes
    ensures IsNewest(newest, rows, routes)
  {
    newest := ZERO_TIME;
    for i := 0 to |rows|
      invariant newest >= ZERO_TIME && forall r :: r in rows[..i] ==> routes[r] <= newest
      invariant newest == ZERO_TIME || exists r :: r in rows && routes[r] == newest
    {
      assert rows[i] in rows && rows[..i + 1] == rows[..i] + [rows[i]];
      if routes[rows[i]] > newest {
        newest := routes[rows[i]];
      }
    }
    assert rows[..|rows|] == rows;
  }

  /** Too old to serve without asking Bits. */
  predicate Stale(updatedAt: int, now: int, hotMaxAge: int, warmMaxAge: int) {
    updatedAt <= ZERO_TIME || (now - updatedAt > hotMaxAge && now - updatedAt > warmMaxAge)
  }

  /** A route is Cold exactly when every one of its rows is stale: one fresh row keeps it. */
  lemma ColdMeansEveryRowIsStale(rows: seq<RouteRow>, routes: map<RouteRow, int>, newest: int, now: int,
                                 hotMaxAge: int, warmMaxAge: int)
    requires (forall r :: r in rows ==> r in routes) && IsNewest(newest, rows, routes)
    ensures ClassifyFreshness(newest, now, hotMaxAge, warmMaxAge) == Cold
            <==> forall r :: r in rows ==> Stale(routes[r], now, hotMaxAge, warmMaxAge)
  {
    if newest != ZERO_TIME {
      var r :| r in rows && routes[r] == newest;
      assert Stale(routes[r], now, hotMaxAge, warmMaxAge)
          <==> ClassifyFreshness(newest, now, hotMaxAge, warmMaxAge) == Cold;
    }
  }

  /** And it is Hot exactly when one of its rows is at most the hot age old. */
  lemma HotMeansSomeRowIsHot(rows: seq<RouteRow>, routes: map<RouteRow, int>, newest: int, now: int,
                             hotMaxAge: int, warmMaxAge: int)
    requires (forall r :: r in rows ==> r in routes) && IsNewest(newest, rows, routes)
    ensures ClassifyFreshness(newest, now, hotMaxAge, warmMaxAge) == Hot
            <==> exists r :: r in rows && routes[r] > ZERO_TIME && now - routes[r] <= hotMaxAge
  {
    if newest != ZERO_TIME {
      var r :| r in rows && routes[r] == newest;
    }
  }

  // ---------- live answers ----------

  datatype LiveAction = SearchAction | BusMapAction

  /** The data member of a live answer: null, a list or an object. */
  type LiveData = j: Json | j.Null? || j.Arr? || j.Obj? witness Null

  predicate Empty(data: LiveData) {
    data.Null? || (data.Arr? && data.elems == []) || (data.Obj? && data.members == map[])
  }

  /** splitBitsEntries. */
  function SplitLive(data: LiveData): seq<Json> {
    if Empty(data) then [] else if data.Arr? then data.elems else [data]
  }

  /** An answer brings the elements of a list, or its object unless that has no members; Empty ones bring nothing. */
  lemma EmptyAnswersBringNothing(data: LiveData)
    ensures forall e :: e in SplitLive(data)
                        <==> (data.Arr? && e in data.elems) || (data.Obj? && data.members != map[] && e == data)
    ensures Empty(data) <==> SplitLive(data) == []
  {
  }

  /**
   * A live answer: the data as Bits sent it, and as decoding it into a plain value and encoding it again
   * leaves it, which may change its numbers but always decodes again.
   */
  datatype RawAnswer = RawAnswer(data: LiveData, plain: LiveData)

  type LiveAnswer = a: RawAnswer | SameButNumbers(a.data, a.plain) && PlainlyDecodes(a.plain)
    witness RawAnswer(Null, Null)

  // ---------- the repair request ----------

  /** setIfBlank. */
  function SetIfBlank(entry: map<string, Json>, name: string, value: string): map<string, Json> {
    if value == "" || !Blank(StringField(entry, name)) then entry else entry[name := Str(value)]
  }

  /** setNestedCodeIfBlank. */
  function SetNestedCodeIfBlank(entry: map<string, Json>, station: string, code: string): map<string, Json> {
    if code == "" || !Blank(NestedStringField(entry, station, "code")) then entry
    else entry[station := Obj(NestedObject(entry, station)["code" := Str(code)])]
  }

  /** enrichBusMapRepairEntry. */
  function Enrich(entry: map<string, Json>, lookup: RouteLookup): map<string, Json> {
    var named := SetIfBlank(SetIfBlank(entry, "tripCode", lookup.trip), "travelDate", lookup.date);
    SetNestedCodeIfBlank(SetNestedCodeIfBlank(named, "fromStation", lookup.from), "toStation", lookup.to)
  }

  /** A code of one's own stays; a blank one is filled with what the lookup gives. */
  ghost predicate Filled(own: string, given: string, text: string) {
    text == if Blank(own) && given != "" then given else own
  }

  /** The two hold the same under every name but those. */
  ghost predicate SameBut(a: map<string, Json>, b: map<string, Json>, names: set<string>) {
    forall name :: name !in names ==> (name in a <==> name in b) && (name in a ==> a[name] == b[name])
  }

  lemma TextIsFilled(entry: map<string, Json>, name: string, value: string)
    ensures var filled := SetIfBlank(entry, name, value);
            && Filled(StringField(entry, name), value, StringField(filled, name)) && SameBut(entry, filled, {name})
  {
  }

  lemma NestedCodeIsFilled(entry: map<string, Json>, station: string, code: string)
    ensures var filled := SetNestedCodeIfBlank(entry, station, code);
            && Filled(NestedStringField(entry, station, "code"), code, NestedStringField(filled, station, "code"))
            && SameBut(entry, filled, {station})
  {
  }

  lemma OthersReadTheSame(a: map<string, Json>, b: map<string, Json>, names: set<string>, name: string)
    requires SameBut(a, b, names) && name !in names
    ensures StringField(a, name) == StringField(b, name)
    ensures NestedStringField(a, name, "code") == NestedStringField(b, name, "code")
  {
  }

  lemma SameButBoth(a: map<string, Json>, b: map<string, Json>, c: map<string, Json>, x: set<string>, y: set<string>)
    requires SameBut(a, b, x) && SameBut(b, c, y)
    ensures SameBut(a, c, x + y)
  {
    forall name | name !in x + y ensures (name in a <==> name in c) && (name in a ==> a[name] == c[name]) {
      assert name !in x && name !in y;
    }
  }

  /** Enriching fills the trip, the date and the two stations where they are blank, and nothing else. */
  lemma EnrichingFillsBlanks(entry: map<string, Json>, lookup: RouteLookup)
    ensures var rich := Enrich(entry, lookup);
            && Filled(StringField(entry, "tripCode"), lookup.trip, StringField(rich, "tripCode"))
            && Filled(StringField(entry, "travelDate"), lookup.date, StringField(rich, "travelDate"))
            && Filled(NestedStringField(entry, "fromStation", "code"), lookup.from,
                      NestedStringField(rich, "fromStation", "code"))
            && Filled(NestedStringField(entry, "toStation", "code"), lookup.to,
                      NestedStringField(rich, "toStation", "code"))
            && SameBut(entry, rich, {"tripCode"} + {"travelDate"} + ({"fromStation"} + {"toStation"}))
  {
    var tripped := SetIfBlank(entry, "tripCode", lookup.trip);
    var dated := SetIfBlank(tripped, "travelDate", lookup.date);
    var left := SetNestedCodeIfBlank(dated, "fromStation", lookup.from);
    var rich := SetNestedCodeIfBlank(left, "toStation", lookup.to);
    TextIsFilled(entry, "tripCode", lookup.trip);
    TextIsFilled(tripped, "travelDate", lookup.date);
    NestedCodeIsFilled(dated, "fromStation", lookup.from);
    NestedCodeIsFilled(left, "toStation", lookup.to);
    SameButBoth(entry, tripped, dated, {"tripCode"}, {"travelDate"});
    SameButBoth(dated, left, rich, {"fromStation"}, {"toStation"});
    SameButBoth(entry, dated, rich, {"tripCode"} + {"travelDate"}, {"fromStation"} + {"toStation"});
    OthersReadTheSame(dated, rich, {"fromStation"} + {"toStation"}, "tripCode");
    OthersReadTheSame(dated, rich, {"fromStation"} + {"toStation"}, "travelDate");
    OthersReadTheSame(tripped, dated, {"travelDate"}, "tripCode");
    OthersReadTheSame(entry, tripped, {"tripCode"}, "travelDate");
    OthersReadTheSame(left, rich, {"toStation"}, "fromStation");
    OthersReadTheSame(dated, left, {"fromStation"}, "toStation");
    OthersReadTheSame(entry, dated, {"tripCode"} + {"travelDate"}, "fromStation");
    OthersReadTheSame(entry, dated, {"tripCode"} + {"travelDate"}, "toStation");
  }

  function RepairData(action: LiveAction, lookup: RouteLookup, plain: LiveData): Json {
    if action == BusMapAction && plain.Obj? then Obj(Enrich(plain.members, lookup)) else plain
  }

  function RepairRequest(action: LiveAction, lookup: RouteLookup, plain: LiveData): Json {
    Obj(map["actionType" := Str(if action == BusMapAction then "searchbusmap" else "search"),
            "operatorCode" := Str(lookup.operator),
            "orbitResponse" := Obj(map["data" := RepairData(action, lookup, plain)])])
  }

  /** A repair submits the answer as a Worker does, for the lookup's operator, a busmap object enriched. */
  lemma RepairCarriesTheAnswer(action: LiveAction, lookup: RouteLookup, plain: LiveData)
    ensures var root := RepairRequest(action, lookup, plain).members;
            && StringField(root, "operatorCode") == lookup.operator
            && StringField(root, "actionType") == (if action == BusMapAction then "searchbusmap" else "search")
            && NestedObject(root, "orbitResponse")
               == map["data" := if action == BusMapAction && plain.Obj? then Obj(Enrich(plain.members, lookup))
                                else plain]
  {
  }

  function StoredAs(action: LiveAction): Action {
    if action == BusMapAction then SearchBusMap else Search
  }

  /**
   * A live answer is stored exactly when its data is a non-empty list. A single object, the usual
   * busmap answer, is never stored, enriched or not: the combined action only reads lists.
   */
  lemma RepairReadsOnlyLists(action: LiveAction, lookup: RouteLookup, plain: LiveData)
    ensures RequestOf(RepairRequest(action, lookup, plain))
            == if plain.Arr? && plain.elems != [] then Some((plain.elems, StoredAs(action), lookup.operator)) else None
  {
    assert Upper("search") == "SEARCH";
    assert Upper("searchbusmap") == "SEARCHBUSMAP";
  }

  /** Whether an answer can be stored does not depend on its numbers. */
  lemma {:induction false} NumbersDoNotDecideStorability(action: Action, operator: string, x: seq<Json>, y: seq<Json>)
    requires |x| == |y| && forall i :: 0 <= i < |x| ==> SameButNumbers(x[i], y[i])
    ensures AllStorable(action, operator, x) <==> AllStorable(action, operator, y)
  {
    if x != [] {
      var n := |x| - 1;
      NumbersDoNotDecideStorability(action, operator, x[..n], y[..n]);
      EntryStorabilitySurvives(action, operator, x[n], y[n]);
    }
  }

  lemma IdentifiersSurvive(operator: string, m: map<string, Json>, n: map<string, Json>)
    requires SameButNumbers(Obj(m), Obj(n))
    ensures IdentifiersOf(operator, m) == IdentifiersOf(operator, n)
  {
    TextSurvives(m, n);
    assert OperatorOf(operator, m) == OperatorOf(operator, n);
  }

  lemma EntryStorabilitySurvives(action: Action, operator: string, x: Json, y: Json)
    requires SameButNumbers(x, y)
    ensures StorableEntry(action, operator, x) <==> StorableEntry(action, operator, y)
  {
    if x.Obj? {
      IdentifiersSurvive(operator, x.members, y.members);
    }
  }

  /** What a caller can see of a repair's guards: a decodable non-empty list of storable entries, no failing write. */
  ghost predicate Repairable(outcome: nat -> Outcome, attempts: nat, action: LiveAction, lookup: RouteLookup,
                             answer: LiveAnswer)
  {
    && answer.data.Arr? && answer.data.elems != [] && PlainlyDecodes(answer.data)
    && AllStorable(StoredAs(action), lookup.operator, answer.data.elems)
    && FaultFree(outcome, attempts, WriteCounts(StoredAs(action), lookup.operator, answer.plain.elems))
  }

  /** What a repair of an answer asks the store to do. */
  lemma RepairStoresTheList(action: LiveAction, lookup: RouteLookup, answer: LiveAnswer)
    ensures RequestOf(RepairRequest(action, lookup, answer.plain)).Some?
            <==> answer.data.Arr? && answer.data.elems != []
    ensures answer.data.Arr? && answer.data.elems != [] ==>
              && RequestOf(RepairRequest(action, lookup, answer.plain)).value
                 == (answer.plain.elems, StoredAs(action), lookup.operator)
              && (AllStorable(StoredAs(action), lookup.operator, answer.plain.elems)
                  <==> AllStorable(StoredAs(action), lookup.operator, answer.data.elems))
  {
    RepairReadsOnlyLists(action, lookup, answer.plain);
    if answer.data.Arr? {
      NumbersDoNotDecideStorability(StoredAs(action), lookup.operator, answer.data.elems, answer.plain.elems);
    }
  }
}
