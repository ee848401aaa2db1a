/** Stop lists: the read-time route matcher and the index rows written for an entry. */
module Stations {
  import opened JsonTree
  import opened Text

  // ---------- stop codes ----------

  function StationCode(v: Json): string {
    if !v.Obj? then ""
    else if "stationCode" in v.members && v.members["stationCode"].Str? then v.members["stationCode"].s
    else if "code" in v.members && v.members["code"].Str? then v.members["code"].s
    else
      var station := if "station" in v.members then StationCode(v.members["station"]) else "";
      if station != "" then station
      else if "stationDetails" in v.members then StationCode(v.members["stationDetails"])
      else ""
  }

  function CodesOf(points: seq<Json>): seq<string> {
    if points == [] then []
    else
      var front, code := CodesOf(points[..|points| - 1]), StationCode(points[|points| - 1]);
      if code != "" then front + [code] else front
  }

  /** The codes listed under one array field. */
  function ListedCodes(members: map<string, Json>, field: string): seq<string> {
    if field in members && members[field].Arr? then CodesOf(members[field].elems) else []
  }

  function EndCode(members: map<string, Json>, field: string): seq<string> {
    var code := if field in members then StationCode(members[field]) else "";
    if code != "" then [code] else []
  }

  function Ends(members: map<string, Json>): seq<string> {
    EndCode(members, "fromStation") + EndCode(members, "toStation")
  }

  /** The stop list of an entry: the first non-empty listing, else its two ends. */
  function StopList(members: map<string, Json>): seq<string> {
    if ListedCodes(members, "stationPoint") != [] then ListedCodes(members, "stationPoint")
    else if ListedCodes(members, "stationPoints") != [] then ListedCodes(members, "stationPoints")
    else if ListedCodes(members, "stations") != [] then ListedCodes(members, "stations")
    else Ends(members)
  }

  lemma {:induction false} CodesAreNotBlank(points: seq<Json>)
    ensures "" !in CodesOf(points)
  {
    if points != [] {
      CodesAreNotBlank(points[..|points| - 1]);
    }
  }

  lemma StopsAreNotBlank(members: map<string, Json>)
    ensures "" !in StopList(members)
  {
    forall field | field in members && members[field].Arr?
      ensures "" !in CodesOf(members[field].elems)
    {
      CodesAreNotBlank(members[field].elems);
    }
  }

  method CodesUnder(members: map<string, Json>, field: string) returns (codes: seq<string>)
    ensures codes == ListedCodes(members, field)
  {
    codes := [];
    if field in members && members[field].Arr? {
      var points := members[field].elems;
      for k := 0 to |points|
        invariant codes == CodesOf(points[..k])
      {
        assert points[..k + 1][..k] == points[..k];
        var code := StationCode(points[k]);
        if code != "" {
          codes := codes + [code];
        }
      }
      assert points[..|points|] == points;
    }
  }

  const LISTING_FIELDS := ["stationPoint", "stationPoints", "stations"]

  lemma ListingFieldCases(members: map<string, Json>, i: nat)
    requires i < 3
    requires forall j :: 0 <= j < i ==> ListedCodes(members, LISTING_FIELDS[j]) == []
    requires ListedCodes(members, LISTING_FIELDS[i]) != []
    ensures StopList(members) == ListedCodes(members, LISTING_FIELDS[i])
  {
    if i > 0 { assert ListedCodes(members, LISTING_FIELDS[0]) == []; }
    if i > 1 { assert ListedCodes(members, LISTING_FIELDS[1]) == []; }
  }

  /** stationCodesFromValue. */
  method StationCodesFromValue(value: Json) returns (codes: seq<string>)
    ensures codes == if value.Obj? then StopList(value.members) else []
  {
    codes := [];
    if !value.Obj? {
      return;
    }
    var members := value.members;
    for i := 0 to 3
      invariant codes == []
      invariant forall j :: 0 <= j < i ==> ListedCodes(members, LISTING_FIELDS[j]) == []
    {
      codes := CodesUnder(members, LISTING_FIELDS[i]);
      if |codes| > 0 {
        ListingFieldCases(members, i);
        return;
      }
    }
    assert ListedCodes(members, LISTING_FIELDS[0]) == ListedCodes(members, LISTING_FIELDS[1])
        == ListedCodes(members, LISTING_FIELDS[2]) == [];
    codes := Ends(members);
  }

  // ---------- the matcher ----------

  /** The second stop comes somewhere after the first. */
  predicate Serves(codes: seq<string>, fromCode: string, toCode: string) {
    exists i, j :: 0 <= i < j < |codes| && codes[i] == fromCode && codes[j] == toCode
  }

  method IndexOfStation(codes: seq<string>, wanted: string) returns (index: int)
    ensures -1 <= index < |codes|
    ensures index >= 0 ==> codes[index] == wanted && forall k :: 0 <= k < index ==> codes[k] != wanted
    ensures index < 0 ==> wanted !in codes
  {
    for i := 0 to |codes|
      invariant forall k :: 0 <= k < i ==> codes[k] != wanted
    {
      if codes[i] == wanted {
        return i;
      }
    }
    index := -1;
  }

  /** The read-time filter: a stage that does not decode into a plain value serves nothing. */
  predicate Passes(stage: Json, fromCode: string, toCode: string) {
    PlainlyDecodes(stage) && stage.Obj? && Serves(StopList(stage.members), fromCode, toCode)
  }

  /** stageContainsRoute: looking only after the first occurrence loses nothing. */
  method StageContainsRoute(stage: Json, fromCode: string, toCode: string) returns (contains: bool)
    ensures contains <==> Passes(stage, fromCode, toCode)
  {
    if !PlainlyDecodes(stage) {
      return false;
    }
    var codes := StationCodesFromValue(stage);
    var fromIndex := IndexOfStation(codes, fromCode);
    if fromIndex < 0 {
      return false;
    }
    for j := fromIndex + 1 to |codes|
      invariant forall k :: fromIndex < k < j ==> codes[k] != toCode
    {
      if codes[j] == toCode {
        return true;
      }
    }
    return false;
  }

  // ---------- the index rows of one entry ----------

  datatype Route = Route(from: string, to: string)

  const NUL := 0 as char

  /** The text the duplicate check is keyed by. */
  function RouteText(r: Route): string {
    r.from + [NUL] + r.to
  }

  ghost function Texts(rows: seq<Route>): set<string> {
    set k | 0 <= k < |rows| :: RouteText(rows[k])
  }

  ghost predicate Listed(rows: seq<Route>, r: Route) {
    RouteText(r) in Texts(rows)
  }

  /** One pair is appended unless its text was seen. */
  ghost function AddRoute(rows: seq<Route>, r: Route): seq<Route> {
    if Listed(rows, r) then rows else rows + [r]
  }

  /** The rows after all pairs whose first stop comes before i, and those of stop i up to stop j. */
  ghost function RowsUpTo(base: Route, codes: seq<string>, i: nat, j: nat): seq<Route>
    requires i <= |codes| && j <= |codes|
    decreases i, j
  {
    if i < |codes| && j > i + 1 then AddRoute(RowsUpTo(base, codes, i, j - 1), Route(codes[i], codes[j - 1]))
    else if i > 0 then RowsUpTo(base, codes, i - 1, |codes|)
    else [base]
  }

  /** The routes indexed for an entry: its own, then every ordered pair of stops once. */
  ghost function IndexedRoutes(base: Route, codes: seq<string>): seq<Route> {
    RowsUpTo(base, codes, |codes|, 0)
  }

  /** stageMetadataRecords; the other columns of every record are those of the base record. */
  method StageMetadataRoutes(base: Route, entry: Json) returns (rows: seq<Route>)
    requires entry.Obj?
    ensures rows == IndexedRoutes(base, StopList(entry.members))
  {
    rows := [base];
    var seen := {RouteText(base)};
    assert Texts(rows) == seen by {
      assert rows[0] == base;
    }
    var stations := StationCodesFromValue(entry);
    StopsAreNotBlank(entry.members);
    for i := 0 to |stations|
      invariant rows == RowsUpTo(base, stations, i, 0)
      invariant seen == Texts(rows)
    {
      for j := i + 1 to |stations|
        invariant rows == RowsUpTo(base, stations, i, j)
        invariant seen == Texts(rows)
      {
        var route := Route(stations[i], stations[j]);
        assert stations[i] in stations && stations[j] in stations;
        var key := RouteText(route);
        if stations[i] == "" || stations[j] == "" {
          continue;
        }
        if key in seen {
          continue;
        }
        seen := seen + {key};
        TextsGrow(rows, route);
        rows := rows + [route];
      }
    }
  }

  lemma TextsGrow(rows: seq<Route>, r: Route)
    ensures Texts(rows + [r]) == Texts(rows) + {RouteText(r)}
  {
    var all := rows + [r];
    assert all[|rows|] == r;
    assert forall k :: 0 <= k < |rows| ==> all[k] == rows[k];
    forall text | text in Texts(rows) ensures text in Texts(all) {
      var k :| 0 <= k < |rows| && RouteText(rows[k]) == text;
      assert RouteText(all[k]) == text;
    }
  }

  // ---------- index and matcher agree ----------

  /** What should be indexed: the base pair and every pair the matcher accepts. */
  ghost predicate Wanted(base: Route, codes: seq<string>, r: Route) {
    r == base || Serves(codes, r.from, r.to)
  }

  ghost predicate DistinctTexts(rows: seq<Route>) {
    forall i, j :: 0 <= i < j < |rows| ==> RouteText(rows[i]) != RouteText(rows[j])
  }

  lemma {:induction false} RowsAreWantedAndDistinct(base: Route, codes: seq<string>, i: nat, j: nat)
    requires i <= |codes| && j <= |codes|
    ensures var rows := RowsUpTo(base, codes, i, j);
            && DistinctTexts(rows)
            && rows != [] && rows[0] == base
            && forall r :: r in rows ==> Wanted(base, codes, r)
    decreases i, j
  {
    if i < |codes| && j > i + 1 {
      RowsAreWantedAndDistinct(base, codes, i, j - 1);
    } else if i > 0 {
      RowsAreWantedAndDistinct(base, codes, i - 1, |codes|);
    }
  }

  lemma {:induction false} EveryPairIsListed(base: Route, codes: seq<string>, i: nat, j: nat, p: nat, q: nat)
    requires i <= |codes| && j <= |codes|
    requires p < q < |codes| && (p < i || (p == i && q < j))
    ensures Listed(RowsUpTo(base, codes, i, j), Route(codes[p], codes[q]))
    decreases i, j
  {
    if i < |codes| && j > i + 1 {
      var front, r := RowsUpTo(base, codes, i, j - 1), Route(codes[i], codes[j - 1]);
      if p < i || q < j - 1 {
        EveryPairIsListed(base, codes, i, j - 1, p, q);
        ListedStays(front, r, Route(codes[p], codes[q]));
      } else {
        ListedAfterAdding(front, r);
      }
    } else {
      EveryPairIsListed(base, codes, i - 1, |codes|, p, q);
    }
  }

  lemma ListedStays(rows: seq<Route>, r: Route, s: Route)
    requires Listed(rows, s)
    ensures Listed(AddRoute(rows, r), s)
  {
    TextsGrow(rows, r);
  }

  lemma ListedAfterAdding(rows: seq<Route>, r: Route)
    ensures Listed(AddRoute(rows, r), r)
  {
    TextsGrow(rows, r);
  }

  /** No two wanted routes share their duplicate-check text. */
  ghost predicate TextsTellRoutesApart(base: Route, codes: seq<string>) {
    forall r, s :: Wanted(base, codes, r) && Wanted(base, codes, s) && RouteText(r) == RouteText(s) ==> r == s
  }

  /** Every indexed row is wanted, no row repeats, and every wanted route has a row with its text. */
  lemma IndexIsSound(base: Route, codes: seq<string>)
    ensures var rows := IndexedRoutes(base, codes);
            && DistinctTexts(rows)
            && (forall r :: r in rows ==> Wanted(base, codes, r))
            && (forall r :: Wanted(base, codes, r) ==> Listed(rows, r))
  {
    var rows := IndexedRoutes(base, codes);
    RowsAreWantedAndDistinct(base, codes, |codes|, 0);
    forall r | Wanted(base, codes, r) ensures Listed(rows, r) {
      if r == base {
        assert RouteText(rows[0]) == RouteText(r);
      } else {
        var p, q :| 0 <= p < q < |codes| && codes[p] == r.from && codes[q] == r.to;
        EveryPairIsListed(base, codes, |codes|, 0, p, q);
      }
    }
  }

  /**
   * The index holds exactly the base pair and the pairs the matcher accepts, if and only if no two
   * of those pairs read the same once joined by NUL.
   */
  lemma IndexAgreesWithMatcher(base: Route, codes: seq<string>)
    ensures (forall r :: r in IndexedRoutes(base, codes) <==> Wanted(base, codes, r))
            <==> TextsTellRoutesApart(base, codes)
  {
    var rows := IndexedRoutes(base, codes);
    IndexIsSound(base, codes);
    if TextsTellRoutesApart(base, codes) {
      forall r | Wanted(base, codes, r) ensures r in rows {
        var k :| 0 <= k < |rows| && RouteText(rows[k]) == RouteText(r);
        assert rows[k] in rows;
      }
    }
    if forall r :: r in rows <==> Wanted(base, codes, r) {
      forall r, s | Wanted(base, codes, r) && Wanted(base, codes, s) && RouteText(r) == RouteText(s)
        ensures r == s
      {
        var i :| 0 <= i < |rows| && rows[i] == r;
        var j :| 0 <= j < |rows| && rows[j] == s;
        assert i == j;
      }
    }
  }

  predicate NulFree(s: string) {
    NUL !in s
  }

  /** Codes without NUL always satisfy it. */
  lemma NulFreeCodesAreToldApart(base: Route, codes: seq<string>)
    requires NulFree(base.from) && forall code :: code in codes ==> NulFree(code)
    ensures TextsTellRoutesApart(base, codes)
  {
    forall r, s | Wanted(base, codes, r) && Wanted(base, codes, s) && RouteText(r) == RouteText(s)
      ensures r == s
    {
      assert NulFree(r.from) && NulFree(s.from);
      SplitAtMark(NUL, r.from, r.to, s.from, s.to);
    }
  }

  /** A NUL inside a code can swallow a route: two of these pairs join to the same text. */
  lemma NulInCodesLosesARoute()
    ensures var codes := ["a", "a" + [NUL] + "b", "b" + [NUL] + "c", "c"];
            var base := Route("x", "y");
            && Serves(codes, "a", "b" + [NUL] + "c") && Serves(codes, "a" + [NUL] + "b", "c")
            && !forall r :: r in IndexedRoutes(base, codes) <==> Wanted(base, codes, r)
  {
    var codes := ["a", "a" + [NUL] + "b", "b" + [NUL] + "c", "c"];
    var base := Route("x", "y");
    var r, s := Route("a", "b" + [NUL] + "c"), Route("a" + [NUL] + "b", "c");
    assert codes[0] == r.from && codes[2] == r.to;
    assert codes[1] == s.from && codes[3] == s.to;
    assert RouteText(r) == RouteText(s);
    assert r != s;
    assert Wanted(base, codes, r) && Wanted(base, codes, s);
    IndexAgreesWithMatcher(base, codes);
  }

  // ---------- what survives in the stored stage ----------

  const STAGE_FIELDS := {"tripStageCode", "fromStation", "toStation", "stationPoint", "stageFare"}

  function StageProjection(entry: map<string, Json>): map<string, Json> {
    map name | name in entry && name in STAGE_FIELDS :: entry[name]
  }

  /** The stop list comes from stationPoints or stations, which the stage document does not keep. */
  predicate ListedElsewhere(entry: map<string, Json>) {
    && ListedCodes(entry, "stationPoint") == []
    && (ListedCodes(entry, "stationPoints") != [] || ListedCodes(entry, "stations") != [])
  }

  /** The stored stage yields the entry's stop list unless that list is kept elsewhere and differs from the ends. */
  lemma StageKeepsStops(entry: map<string, Json>)
    ensures StopList(StageProjection(entry)) == if ListedElsewhere(entry) then Ends(entry) else StopList(entry)
    ensures StopList(StageProjection(entry)) == StopList(entry)
            <==> !ListedElsewhere(entry) || StopList(entry) == Ends(entry)
  {
    var stage := StageProjection(entry);
    assert "stationPoints" !in stage && "stations" !in stage;
    assert ListedCodes(stage, "stationPoint") == ListedCodes(entry, "stationPoint");
    assert Ends(stage) == Ends(entry);
  }

  /** What the read-time filter sees of an entry. */
  function StoredStage(entry: map<string, Json>): Json {
    Obj(StageProjection(entry))
  }

  /**
   * Every indexed row but the entry's own passes the read-time filter, if and only if there is no such
   * row, or the stage decodes and the stops are kept with it or are just the two ends.
   */
  lemma FilterAcceptsTheIndex(base: Route, entry: map<string, Json>)
    ensures (forall r :: r in IndexedRoutes(base, StopList(entry)) && r != base ==>
               Passes(StoredStage(entry), r.from, r.to))
            <==> forall r :: r in IndexedRoutes(base, StopList(entry)) && r != base ==>
                   && PlainlyDecodes(StoredStage(entry))
                   && (!ListedElsewhere(entry) || Ends(entry) == [r.from, r.to])
  {
    var rows := IndexedRoutes(base, StopList(entry));
    IndexIsSound(base, StopList(entry));
    forall r | r in rows && r != base
      ensures Passes(StoredStage(entry), r.from, r.to)
              <==> PlainlyDecodes(StoredStage(entry)) && (!ListedElsewhere(entry) || Ends(entry) == [r.from, r.to])
    {
      FilterAcceptsRow(entry, r);
    }
  }

  /** One indexed pair passes exactly when the stage decodes and keeps its stops, or the pair is its two ends. */
  lemma FilterAcceptsRow(entry: map<string, Json>, r: Route)
    requires Serves(StopList(entry), r.from, r.to)
    ensures Passes(StoredStage(entry), r.from, r.to)
            <==> PlainlyDecodes(StoredStage(entry)) && (!ListedElsewhere(entry) || Ends(entry) == [r.from, r.to])
  {
    StageKeepsStops(entry);
    EndsServeThemselves(entry, r);
  }

  lemma EndsServeThemselves(entry: map<string, Json>, r: Route)
    ensures Serves(Ends(entry), r.from, r.to) <==> Ends(entry) == [r.from, r.to]
  {
    var ends := Ends(entry);
    assert |ends| <= 2;
    if ends == [r.from, r.to] {
      assert ends[0] == r.from && ends[1] == r.to;
    }
  }

  /**
   * The same over the ordered pairs of listed stops, where no two of them read the same once joined by
   * NUL: exactly then no indexed row is lost at read time.
   */
  lemma FilterAcceptsEveryPair(base: Route, entry: map<string, Json>)
    requires TextsTellRoutesApart(base, StopList(entry))
    ensures var codes := StopList(entry);
            (forall r :: r in IndexedRoutes(base, codes) && r != base ==> Passes(StoredStage(entry), r.from, r.to))
            <==> forall i, j :: 0 <= i < j < |codes| && Route(codes[i], codes[j]) != base ==>
                   && PlainlyDecodes(StoredStage(entry))
                   && (!ListedElsewhere(entry) || Ends(entry) == [codes[i], codes[j]])
  {
    var codes := StopList(entry);
    var rows := IndexedRoutes(base, codes);
    FilterAcceptsTheIndex(base, entry);
    IndexAgreesWithMatcher(base, codes);
    forall r | r in rows && r != base
      ensures exists i, j :: 0 <= i < j < |codes| && r == Route(codes[i], codes[j])
    {
      assert Wanted(base, codes, r);
      var i, j :| 0 <= i < j < |codes| && codes[i] == r.from && codes[j] == r.to;
      assert r == Route(codes[i], codes[j]);
    }
    forall i, j | 0 <= i < j < |codes|
      ensures Route(codes[i], codes[j]) in rows
    {
      assert Wanted(base, codes, Route(codes[i], codes[j]));
    }
  }

  function Stop(code: string): Json {
    Obj(map["code" := Str(code)])
  }

  lemma StopsListedElsewhereAreNotServed()
    ensures var entry := map["fromStation" := Stop("A"), "toStation" := Stop("C"),
                             "stations" := Arr([Stop("A"), Stop("B"), Stop("C")])];
            var base := Route("A", "C");
            && Route("A", "B") in IndexedRoutes(base, StopList(entry))
            && !Serves(StopList(StageProjection(entry)), "A", "B")
  {
    var stops := [Stop("A"), Stop("B"), Stop("C")];
    var entry := map["fromStation" := Stop("A"), "toStation" := Stop("C"), "stations" := Arr(stops)];
    var base, codes := Route("A", "C"), ["A", "B", "C"];
    assert CodesOf(stops) == codes by {
      assert stops[..2] == [Stop("A"), Stop("B")] && stops[..2][..1] == [Stop("A")] && stops[..2][..1][..0] == [];
      assert CodesOf([Stop("A")]) == ["A"] by { assert [Stop("A")][..0] == []; }
      assert CodesOf(stops[..2]) == ["A", "B"];
    }
    assert StopList(entry) == codes;
    StageKeepsStops(entry);
    assert Ends(entry) == ["A", "C"];
    assert codes[0] == "A" && codes[1] == "B";
    assert Wanted(base, codes, Route("A", "B"));
    forall code | code in codes ensures NulFree(code) {
    }
    NulFreeCodesAreToldApart(base, codes);
    IndexAgreesWithMatcher(base, codes);
  }

  /** A stop listed only under `stations` is indexed and then never found. */
  lemma StopsListedElsewhereAreNotFound()
    ensures var entry := map["fromStation" := Stop("A"), "toStation" := Stop("C"),
                             "stations" := Arr([Stop("A"), Stop("B"), Stop("C")])];
            Route("A", "B") in IndexedRoutes(Route("A", "C"), StopList(entry)) && !Passes(StoredStage(entry), "A", "B")
  {
    StopsListedElsewhereAreNotServed();
  }
}
