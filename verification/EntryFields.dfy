/** Which member of a stored entry decides what, and which stored entry a read gives each member from. */
module EntryFields {
  import opened Wrappers
  import opened JsonTree
  import opened Stations
  import opened Documents
  import opened LastWriter
  import opened Reader

  // ---------- the first member that is given ----------

  /** The first of these texts that is not empty; empty when all are. */
  ghost predicate FirstGiven(texts: seq<string>, text: string) {
    || (text == "" && forall i :: 0 <= i < |texts| ==> texts[i] == "")
    || (text != "" && exists i :: 0 <= i < |texts| && texts[i] == text && forall j :: 0 <= j < i ==> texts[j] == "")
  }

  lemma FirstOfThree(a: string, b: string, c: string)
    ensures FirstGiven([a, b, c], if a != "" then a else if b != "" then b else c)
  {
    var texts := [a, b, c];
    assert texts[0] == a && texts[1] == b && texts[2] == c;
  }

  ghost function OperatorTexts(envelope: string, entry: map<string, Json>): seq<string> {
    [envelope, StringField(entry, "operatorCode"), NestedStringField(entry, "operator", "code")]
  }

  ghost function ScheduleTexts(entry: map<string, Json>): seq<string> {
    [StringField(entry, "scheduleCode"), StringField(entry, "schedulecode"),
     NestedStringField(entry, "schedule", "code")]
  }

  /** An entry is stored for the operator of its request, else of its own, and under its first schedule code. */
  lemma OperatorAndScheduleAreTheFirstGiven(envelope: string, entry: map<string, Json>)
    ensures FirstGiven(OperatorTexts(envelope, entry), OperatorOf(envelope, entry))
    ensures FirstGiven(ScheduleTexts(entry), ScheduleOf(entry))
  {
    FirstOfThree(envelope, StringField(entry, "operatorCode"), NestedStringField(entry, "operator", "code"));
    FirstOfThree(StringField(entry, "scheduleCode"), StringField(entry, "schedulecode"),
                 NestedStringField(entry, "schedule", "code"));
  }

  // ---------- the schedule index ----------

  /** The schedule row an entry asks for. */
  ghost predicate Schedules(e: StoredEntry, s: ScheduleRow) {
    && e.action != BusMap && s.schedule != "" && FirstGiven(ScheduleTexts(e.entry), s.schedule)
    && s.operator == e.id.operator && s.date == e.id.date && s.trip == e.id.trip && s.stage == e.id.stage
  }

  lemma OnlyOneIsFirstGiven(texts: seq<string>, a: string, b: string)
    requires FirstGiven(texts, a) && FirstGiven(texts, b)
    ensures a == b
  {
  }

  ghost function ScheduleKeys(log: seq<Write>): set<ScheduleRow> {
    set w | w in log && w.ScheduleIndex? :: w.schedule
  }

  lemma {:induction false} SchedulesAreTheRowsWritten(log: seq<Write>)
    ensures SchedulesOf(log).Keys == ScheduleKeys(log)
  {
    if log != [] {
      SchedulesAreTheRowsWritten(log[..|log| - 1]);
      SplitLast(log);
      ScheduleKeysOfAppend(log[..|log| - 1], [log[|log| - 1]]);
    }
  }

  lemma ScheduleKeysOfAppend(a: seq<Write>, b: seq<Write>)
    ensures ScheduleKeys(a + b) == ScheduleKeys(a) + ScheduleKeys(b)
  {
    assert forall w :: w in a + b <==> w in a || w in b;
  }

  lemma ScheduleKeysOfIndex(id: Identifiers, routes: seq<Route>, schedule: string, now: int)
    ensures ScheduleKeys(RouteWrites(id, routes, now) + ScheduleWrites(id, schedule, now))
            == if schedule == "" then {} else {ScheduleRow(id.operator, schedule, id.date, id.trip, id.stage)}
  {
    ScheduleKeysOfAppend(RouteWrites(id, routes, now), ScheduleWrites(id, schedule, now));
    assert ScheduleKeys(RouteWrites(id, routes, now)) == {};
    if schedule != "" {
      var row := ScheduleIndex(ScheduleRow(id.operator, schedule, id.date, id.trip, id.stage), now);
      assert ScheduleWrites(id, schedule, now) == [row] && row in [row];
    }
  }

  lemma ScheduleOfEntry(e: StoredEntry, s: ScheduleRow)
    ensures s in ScheduleKeys(WritesOfEntry(e)) <==> Schedules(e, s)
  {
    var routes := IndexedRoutes(Route(e.id.from, e.id.to), StopList(e.entry));
    var docs, index := DocumentWrites(e.id, e.entry), IndexWrites(e.id, e.entry, e.now);
    ScheduleKeysOfIndex(e.id, routes, ScheduleOf(e.entry), e.now);
    ScheduleKeysOfAppend(docs, index);
    ScheduleKeysOfAppend(docs + index, BusMapWrites(e.id, e.entry));
    assert ScheduleKeys(docs) == {} && ScheduleKeys(BusMapWrites(e.id, e.entry)) == {};
    OperatorAndScheduleAreTheFirstGiven("", e.entry);
    if Schedules(e, s) {
      OnlyOneIsFirstGiven(ScheduleTexts(e.entry), s.schedule, ScheduleOf(e.entry));
    }
  }

  ghost predicate SomeEntrySchedules(h: seq<StoredEntry>, s: ScheduleRow) {
    exists i :: 0 <= i < |h| && Schedules(h[i], s)
  }

  lemma OneMoreSchedules(front: seq<StoredEntry>, last: StoredEntry, s: ScheduleRow)
    ensures SomeEntrySchedules(front + [last], s) <==> SomeEntrySchedules(front, s) || Schedules(last, s)
  {
    var h := front + [last];
    assert h[|front|] == last;
    assert forall i :: 0 <= i < |front| ==> h[i] == front[i];
  }

  /** The schedule table holds exactly a row for every stored entry that names a schedule, under its first code. */
  lemma {:induction false} ScheduleIndexIsTheHistory(h: seq<StoredEntry>, s: ScheduleRow)
    ensures s in SchedulesOf(HistoryWrites(h)) <==> SomeEntrySchedules(h, s)
  {
    if h != [] {
      var front, last := h[..|h| - 1], h[|h| - 1];
      SplitLast(h);
      ScheduleIndexIsTheHistory(front, s);
      SchedulesAreTheRowsWritten(HistoryWrites(front));
      SchedulesAreTheRowsWritten(HistoryWrites(h));
      ScheduleKeysOfAppend(HistoryWrites(front), WritesOfEntry(last));
      ScheduleOfEntry(last, s);
      OneMoreSchedules(front, last, s);
    }
  }

  // ---------- where a read's members come from ----------

  /** The members that belong to a stage of the trip. */
  ghost predicate OfStage(name: string) {
    name == "tripStageCode" || name == "fromStation" || name == "toStation" || name == "stationPoint"
    || name == "stageFare"
  }

  /**
   * What a search serves for a row has its stage's code, stations, stops and fare from the last entry of
   * the stage, and every other member from the last entry of the trip, be it of another stage; only a bus
   * object comes without its seat layout.
   */
  lemma MembersComeFromTheLastOwner(h: seq<StoredEntry>, r: RouteRow, name: string)
    requires LastTrip(h, r.operator, r.trip).Some? && LastStage(h, r.operator, r.trip, r.stage).Some?
    ensures var trip, stage := LastTrip(h, r.operator, r.trip).value, LastStage(h, r.operator, r.trip, r.stage).value;
            var served := LastWritten(h, r);
            && served.Obj?
            && (name in served.members <==> name in if OfStage(name) then stage else trip)
            && (name in served.members ==>
                  var given := if OfStage(name) then stage[name] else trip[name];
                  if name == "bus" && given.Obj? then
                    served.members[name] == Obj(map field | field in given.members && field != "seatLayoutList"
                                                  :: given.members[field])
                  else served.members[name] == given)
  {
    var trip, stage := LastTrip(h, r.operator, r.trip).value, LastStage(h, r.operator, r.trip, r.stage).value;
    assert OfStage(name) <==> name in STAGE_FIELDS;
    if name == "bus" && "bus" in trip && trip["bus"].Obj? {
      var bus := trip["bus"].members;
      assert WithoutSeatLayout(bus) == map field | field in bus && field != "seatLayoutList" :: bus[field];
    }
  }

  /** Rebuilding lets the members of the stage win over those of the trip, but never its bus, in any cache. */
  lemma StageMembersWinButTheBus(cache: map<string, Json>, s: Resolved, name: string)
    requires RowKeysValid(s.row) && TripKey(s.row.operator, s.row.trip) in cache
    requires cache[TripKey(s.row.operator, s.row.trip)].Obj?
    ensures var trip := cache[TripKey(s.row.operator, s.row.trip)].members;
            var rebuilt := RebuildOne(cache, {}, s);
            && rebuilt.Ok? && |rebuilt.value| == 1 && rebuilt.value[0].Obj?
            && var entry := rebuilt.value[0].members;
               && (name in entry <==> name in trip || (name != "bus" && name in s.stage))
               && (name in entry ==>
                     entry[name] == if name != "bus" && name in s.stage then s.stage[name] else trip[name])
  {
  }
}
