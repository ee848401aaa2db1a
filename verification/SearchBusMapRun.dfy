/** The Worker's searchbusmap run: one Search fetch, one BusMap fetch for every entry, a deep merge. */
module SearchBusMapRun {
  import opened Wrappers
  import opened Text
  import opened Literals
  import opened JsonTree
  import opened Documents
  import opened Storage

  // ---------- the deep merge ----------

  /** Objects merge member by member, anything else of the overlay replaces the base. */
  function MergeValue(base: Json, overlay: Json): Json
    decreases overlay
  {
    if base.Obj? && overlay.Obj? then
      Obj(map name | name in base.members.Keys + overlay.members.Keys ::
          if name !in overlay.members then base.members[name]
          else if name !in base.members then overlay.members[name]
          else MergeValue(base.members[name], overlay.members[name]))
    else overlay
  }

  /** mergeJSONObjects. */
  function MergeJsonObjects(base: map<string, Json>, overlay: map<string, Json>): map<string, Json> {
    MergeValue(Obj(base), Obj(overlay)).members
  }

  /** The value reached by following member names. */
  function At(value: Json, path: seq<string>): Option<Json> {
    if path == [] then Some(value)
    else if value.Obj? && path[0] in value.members then At(value.members[path[0]], path[1..])
    else None
  }

  /** A value other than an object stands somewhere strictly above the path. */
  ghost predicate Blocked(value: Json, path: seq<string>) {
    exists n :: 0 <= n < |path| && At(value, path[..n]).Some? && !At(value, path[..n]).value.Obj?
  }

  lemma BlockedBelow(value: Json, path: seq<string>)
    requires path != [] && value.Obj? && path[0] in value.members
    ensures Blocked(value, path) <==> Blocked(value.members[path[0]], path[1..])
  {
    var inner := value.members[path[0]];
    forall n | 0 <= n < |path| - 1
      ensures At(value, path[..n + 1]) == At(inner, path[1..][..n])
    {
      assert path[..n + 1][1..] == path[1..][..n];
    }
    if Blocked(value, path) {
      var n :| 0 <= n < |path| && At(value, path[..n]).Some? && !At(value, path[..n]).value.Obj?;
      assert path[..n] == [] || path[..n][0] == path[0];
      assert n > 0;
      assert At(value, path[..(n - 1) + 1]) == At(inner, path[1..][..n - 1]);
    }
    if Blocked(inner, path[1..]) {
      var n :| 0 <= n < |path| - 1 && At(inner, path[1..][..n]).Some? && !At(inner, path[1..][..n]).value.Obj?;
      assert At(value, path[..n + 1]).Some?;
    }
  }

  /** What is found at a path after merging, from what the two sides hold there. */
  ghost function MergedAt(base: Json, overlay: Json, path: seq<string>): Option<Json> {
    match At(overlay, path)
    case Some(over) =>
      var under := At(base, path);
      if over.Obj? && under.Some? && under.value.Obj? then Some(MergeValue(under.value, over)) else Some(over)
    case None => if Blocked(overlay, path) then None else At(base, path)
  }

  /**
   * The merge read path by path: values of the overlay win, objects on both sides merge, a path the
   * overlay does not mention keeps the base, and nothing survives below a replaced value.
   */
  lemma {:induction false} MergeReadsPathByPath(base: Json, overlay: Json, path: seq<string>)
    ensures At(MergeValue(base, overlay), path) == MergedAt(base, overlay, path)
    decreases |path|
  {
    if path != [] {
      if !overlay.Obj? {
        assert At(overlay, path[..0]) == Some(overlay);
      } else if path[0] in overlay.members {
        BlockedBelow(overlay, path);
        if base.Obj? && path[0] in base.members {
          MergeReadsPathByPath(base.members[path[0]], overlay.members[path[0]], path[1..]);
        } else {
          NothingBelow(overlay.members[path[0]], path[1..]);
        }
      } else {
        NotMentioned(overlay, path);
      }
    }
  }

  /** Below a blocked path there is nothing. */
  lemma {:induction false} NothingBelow(value: Json, path: seq<string>)
    ensures Blocked(value, path) ==> At(value, path).None?
    decreases |path|
  {
    if path != [] && value.Obj? && path[0] in value.members {
      BlockedBelow(value, path);
      NothingBelow(value.members[path[0]], path[1..]);
    }
  }

  lemma NotMentioned(value: Json, path: seq<string>)
    requires path != [] && value.Obj? && path[0] !in value.members
    ensures !Blocked(value, path)
  {
    forall n | 0 <= n < |path|
      ensures At(value, path[..n]).None? || At(value, path[..n]).value.Obj?
    {
      if n > 0 {
        assert path[..n][0] == path[0];
      }
    }
  }

  /** Merging the same answer again changes nothing. */
  lemma {:induction false} MergeIsIdempotent(base: Json, overlay: Json)
    ensures MergeValue(MergeValue(base, overlay), overlay) == MergeValue(base, overlay)
    decreases overlay
  {
    var merged := MergeValue(base, overlay);
    if overlay.Obj? {
      forall name | name in overlay.members
        ensures MergeValue(merged.members[name], overlay.members[name]) == merged.members[name]
      {
        var over := overlay.members[name];
        if base.Obj? && name in base.members {
          MergeIsIdempotent(base.members[name], over);
        } else {
          MergeIsIdempotent(over, over);
          MergeWithItself(over);
        }
      }
      assert MergeValue(merged, overlay).members == merged.members;
    }
  }

  lemma {:induction false} MergeWithItself(value: Json)
    ensures MergeValue(value, value) == value
  {
    if value.Obj? {
      forall name | name in value.members
        ensures MergeValue(value.members[name], value.members[name]) == value.members[name]
      {
        MergeWithItself(value.members[name]);
      }
      assert MergeValue(value, value).members == value.members;
    }
  }

  // ---------- identifiers ----------

  datatype StageIdentifiers =
    StageIdentifiers(tripCode: string, tripStageCode: string, travelDate: string, fromCode: string, toCode: string)

  /** textField and nestedTextField: the trimmed text of a member. */
  function TextField(members: map<string, Json>, name: string): string {
    TrimSpace(StringField(members, name))
  }

  function NestedTextField(members: map<string, Json>, parent: string, name: string): string {
    TrimSpace(NestedStringField(members, parent, name))
  }

  function StageIdentifiersOf(entry: map<string, Json>): StageIdentifiers {
    StageIdentifiers(TextField(entry, "tripCode"), TextField(entry, "tripStageCode"), TextField(entry, "travelDate"),
                     NestedTextField(entry, "fromStation", "code"), NestedTextField(entry, "toStation", "code"))
  }

  /** searchEntryIdentifiers succeeds. */
  predicate Complete(id: StageIdentifiers) {
    id.tripCode != "" && id.tripStageCode != "" && id.travelDate != "" && id.fromCode != "" && id.toCode != ""
  }

  predicate SameUnlessBlank(actual: string, expected: string) {
    actual == "" || actual == expected
  }

  /** validateBusMapIdentity. */
  predicate IdentityMatches(entry: map<string, Json>, expected: StageIdentifiers) {
    var actual := StageIdentifiersOf(entry);
    && SameUnlessBlank(actual.tripCode, expected.tripCode)
    && SameUnlessBlank(actual.tripStageCode, expected.tripStageCode)
    && SameUnlessBlank(actual.travelDate, expected.travelDate)
    && SameUnlessBlank(actual.fromCode, expected.fromCode)
    && SameUnlessBlank(actual.toCode, expected.toCode)
  }

  /** setNestedCode. */
  function SetNestedCode(members: map<string, Json>, name: string, code: string): map<string, Json> {
    members[name := Obj(NestedObject(members, name)["code" := Str(code)])]
  }

  /** A merge with the identifiers put back. */
  function WithIdentifiers(merged: map<string, Json>, id: StageIdentifiers): map<string, Json> {
    var coded := merged["tripCode" := Str(id.tripCode)]["tripStageCode" := Str(id.tripStageCode)];
    var named := coded["travelDate" := Str(id.travelDate)];
    SetNestedCode(SetNestedCode(named, "fromStation", id.fromCode), "toStation", id.toCode)
  }

  /** One combined entry: the merge, with the identifiers of the Search entry put back. */
  function Combine(entry: map<string, Json>, busMap: map<string, Json>): map<string, Json> {
    WithIdentifiers(MergeJsonObjects(entry, busMap), StageIdentifiersOf(entry))
  }

  /** The paths under which an identifier, or an object holding one, stands. */
  predicate HoldsIdentifier(path: seq<string>) {
    path == [] || path[0] in {"tripCode", "tripStageCode", "travelDate"}
    || (path[0] in {"fromStation", "toStation"} && (|path| == 1 || path[1] == "code"))
  }

  lemma NestedCodeReads(members: map<string, Json>, name: string, code: string, path: seq<string>)
    requires path != [] && (path[0] != name || (|path| > 1 && path[1] != "code"))
    ensures At(Obj(SetNestedCode(members, name, code)), path) == At(Obj(members), path)
  {
    var nested := NestedObject(members, name);
    if path[0] == name {
      assert path[1..][0] == path[1];
      assert At(Obj(nested["code" := Str(code)]), path[1..]) == At(Obj(nested), path[1..]);
    }
  }

  lemma NamedReads(members: map<string, Json>, name: string, value: Json, path: seq<string>)
    requires path != [] && path[0] != name
    ensures At(Obj(members[name := value]), path) == At(Obj(members), path)
  {
  }

  /** Outside the identifiers a combined entry is the merge, path by path. */
  lemma CombinedEntryIsTheMergeElsewhere(entry: map<string, Json>, busMap: map<string, Json>, path: seq<string>)
    requires !HoldsIdentifier(path)
    ensures At(Obj(Combine(entry, busMap)), path) == MergedAt(Obj(entry), Obj(busMap), path)
  {
    var id, merged := StageIdentifiersOf(entry), MergeJsonObjects(entry, busMap);
    var one := merged["tripCode" := Str(id.tripCode)];
    var two := one["tripStageCode" := Str(id.tripStageCode)];
    var named := two["travelDate" := Str(id.travelDate)];
    NamedReads(merged, "tripCode", Str(id.tripCode), path);
    NamedReads(one, "tripStageCode", Str(id.tripStageCode), path);
    NamedReads(two, "travelDate", Str(id.travelDate), path);
    NestedCodeReads(named, "fromStation", id.fromCode, path);
    NestedCodeReads(SetNestedCode(named, "fromStation", id.fromCode), "toStation", id.toCode, path);
    MergeReadsPathByPath(Obj(entry), Obj(busMap), path);
  }

  lemma NamedCodes(members: map<string, Json>, name: string, code: string)
    ensures NestedStringField(SetNestedCode(members, name, code), name, "code") == code
    ensures forall other, field :: other != name ==>
              NestedStringField(SetNestedCode(members, name, code), other, field)
                  == NestedStringField(members, other, field)
    ensures forall other :: other != name ==>
              StringField(SetNestedCode(members, name, code), other) == StringField(members, other)
  {
  }

  lemma IdentifiersReadBack(merged: map<string, Json>, id: StageIdentifiers)
    ensures var members := WithIdentifiers(merged, id);
            && StringField(members, "tripCode") == id.tripCode
                && StringField(members, "tripStageCode") == id.tripStageCode
            && StringField(members, "travelDate") == id.travelDate
            && NestedStringField(members, "fromStation", "code") == id.fromCode
            && NestedStringField(members, "toStation", "code") == id.toCode
  {
    var coded := merged["tripCode" := Str(id.tripCode)]["tripStageCode" := Str(id.tripStageCode)];
    var named := coded["travelDate" := Str(id.travelDate)];
    NamedCodes(named, "fromStation", id.fromCode);
    NamedCodes(SetNestedCode(named, "fromStation", id.fromCode), "toStation", id.toCode);
  }

  lemma CombinedFields(entry: map<string, Json>, busMap: map<string, Json>)
    ensures var id, combined := StageIdentifiersOf(entry), Combine(entry, busMap);
            && StringField(combined, "tripCode") == id.tripCode
                && StringField(combined, "tripStageCode") == id.tripStageCode
            && StringField(combined, "travelDate") == id.travelDate
            && NestedStringField(combined, "fromStation", "code") == id.fromCode
            && NestedStringField(combined, "toStation", "code") == id.toCode
  {
    IdentifiersReadBack(MergeJsonObjects(entry, busMap), StageIdentifiersOf(entry));
  }

  /** A combined entry carries its Search entry's five identifiers, as trimmed text. */
  lemma CombinedEntryKeepsIdentifiers(entry: map<string, Json>, busMap: map<string, Json>)
    ensures StageIdentifiersOf(Combine(entry, busMap)) == StageIdentifiersOf(entry)
  {
    CombinedFields(entry, busMap);
    TrimIsIdempotent(StringField(entry, "tripCode"));
    TrimIsIdempotent(StringField(entry, "tripStageCode"));
    TrimIsIdempotent(StringField(entry, "travelDate"));
    TrimIsIdempotent(NestedStringField(entry, "fromStation", "code"));
    TrimIsIdempotent(NestedStringField(entry, "toStation", "code"));
  }

  // ---------- answers of Bits ----------

  /** A fetch fails, or brings a body: empty, not decodable, or one JSON value. */
  datatype Reply = FetchFailed | EmptyBody | Undecodable | Body(value: Json)

  /** requireSuccessfulBitsStatus. */
  predicate Successful(envelope: map<string, Json>) {
    "status" in envelope ==> envelope["status"].Num? && LiteralText(envelope["status"].literal) == "1"
  }

  function DecodeEnvelope(reply: Reply): Option<map<string, Json>> {
    if reply.Body? && reply.value.Obj? && Successful(reply.value.members) then Some(reply.value.members) else None
  }

  predicate AllObjects(values: seq<Json>) {
    forall v :: v in values ==> v.Obj?
  }

  /** The envelope's data is a non-empty list of objects. */
  predicate HasEntries(envelope: map<string, Json>) {
    && "data" in envelope && envelope["data"].Arr?
    && envelope["data"].elems != [] && forall i :: 0 <= i < |envelope["data"].elems| ==> envelope["data"].elems[i].Obj?
  }

  /** decodeSearchResponse: the envelope, exactly when it is a successful one with entries. */
  function DecodeSearch(reply: Reply): (r: Option<map<string, Json>>)
    ensures r.Some? <==> && reply.Body? && reply.value.Obj?
                         && Successful(reply.value.members) && HasEntries(reply.value.members)
    ensures r.Some? ==> r.value == reply.value.members && AllObjects(r.value["data"].elems)
  {
    match DecodeEnvelope(reply)
    case None => None
    case Some(envelope) =>
      if "data" in envelope && envelope["data"].Arr? && envelope["data"].elems != []
         && AllObjects(envelope["data"].elems)
      then Some(envelope)
      else None
  }

  /** decodeBusMapResponse: a data object, a one-element data list, or the bare entry. */
  function DecodeBusMap(reply: Reply): Option<map<string, Json>> {
    match DecodeEnvelope(reply)
    case None => None
    case Some(envelope) =>
      if "data" in envelope then
        match envelope["data"]
        case Obj(members) => if members == map[] then None else Some(members)
        case Arr(elems) =>
          if |elems| == 1 && elems[0].Obj? && elems[0].members != map[] then Some(elems[0].members) else None
        case _ => None
      else if TextField(envelope, "tripCode") == "" && TextField(envelope, "tripStageCode") == "" then None
      else Some(envelope - {"status"})
  }

  // ---------- the run ----------

  datatype Message = Message(action: string, reference: string, operator: string, zone: string,
                             fromCode: string, toCode: string, tripDate: string,
                             tripCode: string, fromStation: string, toStation: string, travelDate: string)

  /** A quota call that admitted the request or failed open, and a fetch with its request. */
  datatype Event = QuotaPassed | Fetched(request: Message)

  /** What the limiter and Bits answer: quota and fetch number k. A refused quota is a cancelled wait. */
  datatype Service = Service(quota: nat -> bool, reply: nat -> Reply)

  function BusMapRequest(m: Message, entry: map<string, Json>): Message {
    var id := StageIdentifiersOf(entry);
    m.(action := "busmap", tripCode := id.tripCode,
       fromStation := id.fromCode, toStation := id.toCode, travelDate := id.travelDate)
  }

  /** The events of a run over these entries that meets no failure. */
  ghost function Plan(m: Message, entries: seq<Json>): seq<Event>
    requires AllObjects(entries)
  {
    if entries == [] then [QuotaPassed, Fetched(m.(action := "search"))]
    else Plan(m, entries[..|entries| - 1]) + [QuotaPassed, Fetched(BusMapRequest(m, entries[|entries| - 1].members))]
  }

  /** The request of fetch k: the search, then the busmap of every entry. */
  ghost function RequestNumber(m: Message, entries: seq<Json>, k: nat): Message
    requires AllObjects(entries) && k <= |entries|
  {
    if k == 0 then m.(action := "search") else BusMapRequest(m, entries[k - 1].members)
  }

  lemma {:induction false} PlanLength(m: Message, entries: seq<Json>)
    requires AllObjects(entries)
    ensures |Plan(m, entries)| == 2 * (|entries| + 1)
  {
    if entries != [] {
      PlanLength(m, entries[..|entries| - 1]);
    }
  }

  /** Exactly one fetch more than there are entries, each right after a quota call of its own. */
  lemma {:induction false} PlanPairsQuotaAndFetch(m: Message, entries: seq<Json>, k: nat)
    requires AllObjects(entries) && k <= |entries|
    ensures |Plan(m, entries)| == 2 * (|entries| + 1)
    ensures Plan(m, entries)[2 * k] == QuotaPassed
    ensures Plan(m, entries)[2 * k + 1] == Fetched(RequestNumber(m, entries, k))
    decreases |entries|
  {
    PlanLength(m, entries);
    if entries != [] {
      var front := entries[..|entries| - 1];
      PlanLength(m, front);
      if k < |entries| {
        PlanPairsQuotaAndFetch(m, front, k);
      }
    }
  }

  /** Entry k can be combined: complete identifiers, an admitted fetch, and a matching answer. */
  predicate Combinable(w: Service, entry: map<string, Json>, k: nat) {
    && Complete(StageIdentifiersOf(entry)) && w.quota(k + 1)
    && DecodeBusMap(w.reply(k + 1)).Some?
    && IdentityMatches(DecodeBusMap(w.reply(k + 1)).value, StageIdentifiersOf(entry))
  }

  /** The entries of the Search answer, none when there is no usable answer. */
  function SearchEntries(w: Service): (entries: seq<Json>)
    ensures AllObjects(entries)
  {
    if w.quota(0) && DecodeSearch(w.reply(0)).Some? then DecodeSearch(w.reply(0)).value["data"].elems else []
  }

  ghost predicate AllCombinable(w: Service, entries: seq<Json>)
    requires AllObjects(entries)
  {
    entries == []
    || (AllCombinable(w, entries[..|entries| - 1]) && Combinable(w, entries[|entries| - 1].members, |entries| - 1))
  }

  lemma {:induction false} AllCombinableMeansEach(w: Service, entries: seq<Json>, k: nat)
    requires AllObjects(entries) && AllCombinable(w, entries) && k < |entries|
    ensures Combinable(w, entries[k].members, k)
  {
    if k < |entries| - 1 {
      AllCombinableMeansEach(w, entries[..|entries| - 1], k);
    }
  }

  /** The run succeeds: a usable Search answer, and every one of its entries can be combined. */
  ghost predicate Succeeds(w: Service) {
    SearchEntries(w) != [] && AllCombinable(w, SearchEntries(w))
  }

  function CombinedEntry(w: Service, entry: map<string, Json>, k: nat): Json
    requires Combinable(w, entry, k)
  {
    Obj(Combine(entry, DecodeBusMap(w.reply(k + 1)).value))
  }

  /** The combined entries, in search order. */
  ghost function CombinedEntries(w: Service, entries: seq<Json>): (combined: seq<Json>)
    requires AllObjects(entries) && AllCombinable(w, entries)
    ensures |combined| == |entries|
  {
    if entries == [] then []
    else CombinedEntries(w, entries[..|entries| - 1])
         + [CombinedEntry(w, entries[|entries| - 1].members, |entries| - 1)]
  }

  /** Entry k of the response is Search entry k, with its own BusMap answer merged in. */
  lemma {:induction false} CombinedEntriesKeepOrder(w: Service, entries: seq<Json>, k: nat)
    requires AllObjects(entries) && AllCombinable(w, entries) && k < |entries|
    ensures Combinable(w, entries[k].members, k)
    ensures CombinedEntries(w, entries)[k] == CombinedEntry(w, entries[k].members, k)
  {
    if k < |entries| - 1 {
      CombinedEntriesKeepOrder(w, entries[..|entries| - 1], k);
    }
  }

  /** The response submitted: the Search envelope with its data replaced by the combined entries. */
  ghost function CombinedResponse(w: Service): Json
    requires Succeeds(w)
  {
    Obj(DecodeSearch(w.reply(0)).value["data" := Arr(CombinedEntries(w, SearchEntries(w)))])
  }

  /** The calls made for one entry: none without its identifiers or its quota. */
  ghost function CallsFor(m: Message, w: Service, entry: map<string, Json>, k: nat): seq<Event> {
    if Complete(StageIdentifiersOf(entry)) && w.quota(k + 1) then [QuotaPassed, Fetched(BusMapRequest(m, entry))]
    else []
  }

  /** The calls of a run over these entries, which ends with the first that cannot be combined. */
  ghost function RunTrace(m: Message, w: Service, entries: seq<Json>): seq<Event>
    requires AllObjects(entries)
  {
    if entries == [] then [QuotaPassed, Fetched(m.(action := "search"))]
    else
      var front, last := entries[..|entries| - 1], entries[|entries| - 1].members;
      RunTrace(m, w, front) + (if AllCombinable(w, front) then CallsFor(m, w, last, |front|) else [])
  }

  /** It is the plan, as far as the run gets. */
  lemma {:induction false} RunFollowsThePlan(m: Message, w: Service, entries: seq<Json>)
    requires AllObjects(entries)
    ensures RunTrace(m, w, entries) <= Plan(m, entries)
    ensures AllCombinable(w, entries) ==> RunTrace(m, w, entries) == Plan(m, entries)
  {
    if entries != [] {
      var front := entries[..|entries| - 1];
      RunFollowsThePlan(m, w, front);
      assert RunTrace(m, w, front) + [] == RunTrace(m, w, front);
    }
  }

  lemma OneMoreTraced(m: Message, w: Service, entries: seq<Json>, k: nat)
    requires AllObjects(entries) && k < |entries| && AllCombinable(w, entries[..k])
    ensures RunTrace(m, w, entries[..k + 1])
            == RunTrace(m, w, entries[..k]) + CallsFor(m, w, entries[k].members, k)
  {
    assert entries[..k + 1][..k] == entries[..k];
  }

  /** After an entry that cannot be combined nothing is called any more. */
  lemma {:induction false} NothingAfterAFailure(m: Message, w: Service, entries: seq<Json>, k: nat)
    requires AllObjects(entries) && k <= |entries| && !AllCombinable(w, entries[..k])
    ensures RunTrace(m, w, entries) == RunTrace(m, w, entries[..k]) && !AllCombinable(w, entries)
    decreases |entries|
  {
    if k == |entries| {
      assert entries[..k] == entries;
    } else {
      var front := entries[..|entries| - 1];
      assert front[..k] == entries[..k];
      NothingAfterAFailure(m, w, front, k);
      assert RunTrace(m, w, front) + [] == RunTrace(m, w, front);
    }
  }

  /** One BusMap fetch. */
  method FetchOne(m: Message, w: Service, entry: map<string, Json>, k: nat)
    returns (combined: Option<Json>, events: seq<Event>)
    ensures combined.Some? <==> Combinable(w, entry, k)
    ensures combined.Some? ==> combined.value == Obj(Combine(entry, DecodeBusMap(w.reply(k + 1)).value))
    ensures events == CallsFor(m, w, entry, k)
  {
    var id := StageIdentifiersOf(entry);
    if !Complete(id) || !w.quota(k + 1) {
      return None, [];
    }
    events := [QuotaPassed, Fetched(BusMapRequest(m, entry))];
    var busMap := DecodeBusMap(w.reply(k + 1));
    if busMap.None? || !IdentityMatches(busMap.value, id) {
      return None, events;
    }
    combined := Some(Obj(Combine(entry, busMap.value)));
  }

  lemma OneMoreEntryCombined(w: Service, entries: seq<Json>, k: nat)
    requires AllObjects(entries) && k < |entries| && AllCombinable(w, entries[..k])
    ensures Combinable(w, entries[k].members, k) ==>
              && AllCombinable(w, entries[..k + 1])
              && CombinedEntries(w, entries[..k + 1])
                 == CombinedEntries(w, entries[..k]) + [CombinedEntry(w, entries[k].members, k)]
    ensures !Combinable(w, entries[k].members, k) ==> !AllCombinable(w, entries)
  {
    assert entries[..k + 1][..k] == entries[..k];
    if AllCombinable(w, entries) {
      AllCombinableMeansEach(w, entries, k);
    }
  }

  /** The loop over the Search entries, stopped by the first that cannot be combined. */
  method FetchBusMaps(m: Message, w: Service, entries: seq<Json>)
    returns (combined: seq<Json>, ok: bool, trace: seq<Event>)
    requires AllObjects(entries)
    ensures ok <==> AllCombinable(w, entries)
    ensures ok ==> combined == CombinedEntries(w, entries)
    ensures trace == RunTrace(m, w, entries)
  {
    combined := [];
    trace := [QuotaPassed, Fetched(m.(action := "search"))];
    for k := 0 to |entries|
      invariant AllCombinable(w, entries[..k]) && combined == CombinedEntries(w, entries[..k])
      invariant trace == RunTrace(m, w, entries[..k])
    {
      OneMoreTraced(m, w, entries, k);
      OneMoreEntryCombined(w, entries, k);
      var next, events := FetchOne(m, w, entries[k].members, k);
      if next.None? {
        FailedEntry(w, entries, k);
        NothingAfterAFailure(m, w, entries, k + 1);
        return combined, false, trace + events;
      }
      trace, combined := trace + events, combined + [next.value];
    }
    assert entries[..|entries|] == entries;
    ok := true;
  }

  lemma FailedEntry(w: Service, entries: seq<Json>, k: nat)
    requires AllObjects(entries) && k < |entries| && !Combinable(w, entries[k].members, k)
    ensures !AllCombinable(w, entries[..k + 1])
  {
  }

  /** fetchSearchAndBusMaps; no response when anything fails. */
  method FetchSearchAndBusMaps(m: Message, w: Service) returns (response: Option<Json>, trace: seq<Event>)
    ensures response.Some? <==> Succeeds(w)
    ensures response.Some? ==> response.value == CombinedResponse(w)
    ensures trace == if w.quota(0) then RunTrace(m, w, SearchEntries(w)) else []
  {
    if !w.quota(0) {
      return None, [];
    }
    var search := DecodeSearch(w.reply(0));
    if search.None? {
      return None, [QuotaPassed, Fetched(m.(action := "search"))];
    }
    var envelope := search.value;
    var combined, ok, events := FetchBusMaps(m, w, envelope["data"].elems);
    if !ok {
      return None, events;
    }
    response, trace := Some(Obj(envelope["data" := Arr(combined)])), events;
  }

  /** A request for the busmap of what is stored under these identifiers; everything else is as in the message. */
  predicate AsksFor(m: Message, r: Message, id: Identifiers) {
    && r.action == "busmap"
    && r.tripCode == id.trip && r.fromStation == id.from && r.toStation == id.to && r.travelDate == id.date
    && r.reference == m.reference && r.operator == m.operator && r.zone == m.zone
    && r.fromCode == m.fromCode && r.toCode == m.toCode && r.tripDate == m.tripDate
  }

  lemma RequestAsksFor(m: Message, entry: map<string, Json>, busMap: map<string, Json>)
    ensures AsksFor(m, BusMapRequest(m, entry), IdentifiersOf(m.operator, Combine(entry, busMap)))
  {
    CombinedFields(entry, busMap);
  }

  lemma FetchOfEntry(m: Message, entries: seq<Json>, k: nat)
    requires AllObjects(entries) && k < |entries|
    ensures |Plan(m, entries)| == 2 * (|entries| + 1)
    ensures Plan(m, entries)[2 * k + 3] == Fetched(BusMapRequest(m, entries[k].members))
  {
    var next := k + 1;
    PlanPairsQuotaAndFetch(m, entries, next);
    assert 2 * next + 1 == 2 * k + 3;
  }

  lemma CombinedEntryAsked(m: Message, w: Service, k: nat)
    requires Succeeds(w) && k < |SearchEntries(w)|
    ensures CombinedEntries(w, SearchEntries(w))[k].Obj?
    ensures AsksFor(m, BusMapRequest(m, SearchEntries(w)[k].members),
                    IdentifiersOf(m.operator, CombinedEntries(w, SearchEntries(w))[k].members))
  {
    var entry := SearchEntries(w)[k].members;
    CombinedEntriesKeepOrder(w, SearchEntries(w), k);
    RequestAsksFor(m, entry, DecodeBusMap(w.reply(k + 1)).value);
  }

  /**
   * What is asked of Bits: first the search of the message, then for entry k the busmap of exactly the trip,
   * stations and date the Master stores that entry under.
   */
  lemma FetchesAskForWhatIsStored(m: Message, w: Service, k: nat) returns (request: Message)
    requires Succeeds(w) && k < |SearchEntries(w)|
    ensures var trace := RunTrace(m, w, SearchEntries(w));
            && |trace| == 2 * (|SearchEntries(w)| + 1)
            && trace[1] == Fetched(m.(action := "search")) && trace[2 * k + 3] == Fetched(request)
    ensures CombinedEntries(w, SearchEntries(w))[k].Obj?
    ensures AsksFor(m, request, IdentifiersOf(m.operator, CombinedEntries(w, SearchEntries(w))[k].members))
  {
    request := BusMapRequest(m, SearchEntries(w)[k].members);
    RunFollowsThePlan(m, w, SearchEntries(w));
    FetchOfEntry(m, SearchEntries(w), k);
    PlanPairsQuotaAndFetch(m, SearchEntries(w), 0);
    CombinedEntryAsked(m, w, k);
  }

  // ---------- submission ----------

  /** Text members, of which empty ones are omitted. */
  function WithTexts(members: map<string, Json>, fields: seq<(string, string)>): map<string, Json>
    decreases |fields|
  {
    if fields == [] then members
    else
      var (name, text) := fields[0];
      WithTexts(if text == "" then members else members[name := Str(text)], fields[1..])
  }

  /** The request sent to the Master. */
  function SubmittedRequest(m: Message, response: Json): Json {
    Obj(WithTexts(map["actionType" := Str(m.action), "operatorCode" := Str(m.operator), "orbitResponse" := response],
                  OptionalFields(m)))
  }

  function OptionalFields(m: Message): seq<(string, string)> {
    [("refid", m.reference), ("fromCode", m.fromCode), ("toCode", m.toCode), ("tripDate", m.tripDate),
     ("tripCode", m.tripCode), ("fromStationCode", m.fromStation), ("toStationCode", m.toStation),
     ("travelDate", m.travelDate)]
  }

  predicate ColonFreeIdentifiers(id: StageIdentifiers) {
    ':' !in id.tripCode && ':' !in id.tripStageCode && ':' !in id.travelDate && ':' !in id.fromCode && ':' !in id.toCode
  }

  lemma {:induction false} OtherMembersStay(members: map<string, Json>, fields: seq<(string, string)>, name: string)
    requires name in members && forall f :: f in fields ==> f.0 != name
    ensures name in WithTexts(members, fields) && WithTexts(members, fields)[name] == members[name]
    decreases |fields|
  {
    if fields != [] {
      var (first, text) := fields[0];
      assert fields[0] in fields;
      OtherMembersStay(if text == "" then members else members[first := Str(text)], fields[1..], name);
    }
  }

  lemma OptionalNames(m: Message, name: string)
    requires name in {"actionType", "operatorCode", "orbitResponse"}
    ensures forall f :: f in OptionalFields(m) ==> f.0 != name
  {
  }

  lemma RequestReadsBack(m: Message, response: Json)
    ensures var root := SubmittedRequest(m, response).members;
            && StringField(root, "actionType") == m.action && StringField(root, "operatorCode") == m.operator
            && "orbitResponse" in root && root["orbitResponse"] == response
  {
    var required := map["actionType" := Str(m.action), "operatorCode" := Str(m.operator), "orbitResponse" := response];
    forall name | name in {"actionType", "operatorCode", "orbitResponse"}
      ensures name in WithTexts(required, OptionalFields(m))
          && WithTexts(required, OptionalFields(m))[name] == required[name]
    {
      OptionalNames(m, name);
      OtherMembersStay(required, OptionalFields(m), name);
    }
  }

  /** A trimmed identifier that is present is a valid key component exactly when it has no colon. */
  lemma TrimmedComponent(s: string)
    ensures TrimSpace(s) != "" ==> (ValidComponent(TrimSpace(s)) <==> ':' !in TrimSpace(s))
  {
    TrimIsIdempotent(s);
  }

  lemma CombinedEntryIsStorable(operator: string, entry: map<string, Json>, busMap: map<string, Json>)
    requires Complete(StageIdentifiersOf(entry)) && !Blank(operator)
    ensures StorableEntry(SearchBusMap, operator, Obj(Combine(entry, busMap)))
            <==> ':' !in operator && ColonFreeIdentifiers(StageIdentifiersOf(entry))
  {
    var id, combined := StageIdentifiersOf(entry), Combine(entry, busMap);
    CombinedFields(entry, busMap);
    assert IdentifiersOf(operator, combined)
        == Identifiers(operator, id.tripCode, id.tripStageCode, id.travelDate, id.fromCode, id.toCode);
    TrimmedComponent(StringField(entry, "tripCode"));
    TrimmedComponent(StringField(entry, "tripStageCode"));
    TrimmedComponent(StringField(entry, "travelDate"));
    TrimmedComponent(NestedStringField(entry, "fromStation", "code"));
    TrimmedComponent(NestedStringField(entry, "toStation", "code"));
  }

  /** The Master reads a submitted run as its entries, to be stored as SEARCHBUSMAP under the message's operator. */
  lemma MasterReadsCombinedEntries(m: Message, response: Json)
    requires m.action == "searchbusmap" && m.operator != ""
    requires response.Obj? && "data" in response.members && response.members["data"].Arr?
    requires response.members["data"].elems != []
    ensures RequestOf(SubmittedRequest(m, response)) == Some((response.members["data"].elems, SearchBusMap, m.operator))
  {
    RequestReadsBack(m, response);
    assert Upper("searchbusmap") == "SEARCHBUSMAP";
  }

  lemma LastOfMany(values: seq<Json>)
    requires values != []
    ensures forall v :: v in values <==> v in values[..|values| - 1] || v == values[|values| - 1]
  {
    SplitLast(values);
  }

  lemma LastOfAppended(front: seq<Json>, last: Json)
    ensures (front + [last])[..|front + [last]| - 1] == front
  {
  }

  lemma {:induction false} CombinedEntriesAreStorable(operator: string, w: Service, entries: seq<Json>)
    requires !Blank(operator) && AllObjects(entries) && AllCombinable(w, entries)
    ensures AllStorable(SearchBusMap, operator, CombinedEntries(w, entries))
            <==> entries == []
                 || (&& ':' !in operator
                     && forall e :: e in entries ==> ColonFreeIdentifiers(StageIdentifiersOf(e.members)))
  {
    if entries != [] {
      var n := |entries| - 1;
      var front, last := entries[..n], entries[n];
      LastOfMany(entries);
      LastOfAppended(CombinedEntries(w, front), CombinedEntry(w, last.members, n));
      CombinedEntriesAreStorable(operator, w, front);
      CombinedEntryIsStorable(operator, last.members, DecodeBusMap(w.reply(n + 1)).value);
    }
  }

  /** The Master accepts every combined entry of a run exactly when no key component has a colon. */
  lemma MasterAcceptsCombinedEntries(m: Message, w: Service)
    requires m.action == "searchbusmap" && !Blank(m.operator) && Succeeds(w)
    ensures var entries := SearchEntries(w);
            && RequestOf(SubmittedRequest(m, CombinedResponse(w)))
                == Some((CombinedEntries(w, entries), SearchBusMap, m.operator))
            && (AllStorable(SearchBusMap, m.operator, CombinedEntries(w, entries))
                <==> ':' !in m.operator && forall e :: e in entries ==>
                    ColonFreeIdentifiers(StageIdentifiersOf(e.members)))
  {
    MasterReadsCombinedEntries(m, CombinedResponse(w));
    CombinedEntriesAreStorable(m.operator, w, SearchEntries(w));
  }
}
