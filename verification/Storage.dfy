/** TripDetailsStorage: the ordered writes of a Store call, any of which may fail. */
module Storage {
  import opened Wrappers
  import opened Progress
  import opened Text
  import opened JsonTree
  import opened Stations
  import opened Documents

  // ---------- which entries a payload carries ----------

  datatype Envelope = Worker | DirectBits

  datatype Payload = Payload(members: map<string, Json>, action: string, operator: string, envelope: Envelope)

  /** resolveTripDetailsPayload; no result when the value or its orbitResponse is not an object. */
  function ResolvePayload(value: Json): Option<Payload> {
    if !value.Obj? then None
    else
      var root := value.members;
      if "orbitResponse" in root && !root["orbitResponse"].Obj? then None
      else
        var envelope := if "orbitResponse" in root then Worker else DirectBits;
        var payload := if "orbitResponse" in root then root["orbitResponse"].members else root;
        var action, operator := StringField(root, "actionType"), StringField(root, "operatorCode");
        Some(Payload(payload,
                     if action == "" then StringField(payload, "actionType") else action,
                     if operator == "" then StringField(payload, "operatorCode") else operator,
                     envelope))
  }

  function UpperChar(c: char): char {
    if 'a' <= c <= 'z' then (c as int - 32) as char else c
  }

  function Upper(s: string): string {
    seq(|s|, i requires 0 <= i < |s| => UpperChar(s[i]))
  }

  /** Every action other than the two busmap ones is stored the SEARCH way. */
  function ActionNamed(upper: string): Action {
    if upper == "BUSMAP" then BusMap else if upper == "SEARCHBUSMAP" then SearchBusMap else Search
  }

  /** extractEntries: the data list, a single data object where accepted, or a Worker's bare busmap. */
  function ExtractEntries(p: Payload, upper: string): Option<(seq<Json>, Action)> {
    var data := if "data" in p.members then p.members["data"] else Null;
    if data.Arr? then
      if data.elems == [] then None else Some((data.elems, ActionNamed(upper)))
    else if data.Obj? && (p.envelope == DirectBits || upper == "BUSMAP") then
      Some(([data], if p.envelope == DirectBits && upper == "" then BusMap else ActionNamed(upper)))
    else if p.envelope == Worker && upper == "BUSMAP" && "data" !in p.members then
      Some(([Obj(p.members)], BusMap))
    else None
  }

  // ---------- what a list of entries writes ----------

  predicate StorableEntry(action: Action, operator: string, entry: Json) {
    entry.Obj? && Storable(action, IdentifiersOf(operator, entry.members))
  }

  predicate AllStorable(action: Action, operator: string, entries: seq<Json>) {
    entries == []
    || (&& AllStorable(action, operator, entries[..|entries| - 1])
        && StorableEntry(action, operator, entries[|entries| - 1]))
  }

  lemma {:induction false} AllStorableMeansEach(action: Action, operator: string, entries: seq<Json>)
    ensures AllStorable(action, operator, entries) <==> forall e :: e in entries ==> StorableEntry(action, operator, e)
  {
    if entries != [] {
      var front, last := entries[..|entries| - 1], entries[|entries| - 1];
      AllStorableMeansEach(action, operator, front);
      assert entries == front + [last];
      assert forall e :: e in entries <==> e in front || e == last;
    }
  }

  ghost function WritesOf(action: Action, operator: string, entry: Json, now: int): seq<Write> {
    if StorableEntry(action, operator, entry)
    then EntryWrites(action, IdentifiersOf(operator, entry.members), entry.members, now)
    else []
  }

  /** The writes of all entries in order, entry i stamped with the i-th clock reading. */
  ghost function AllWrites(action: Action, operator: string, entries: seq<Json>, clock: nat -> int): seq<Write> {
    if entries == [] then []
    else AllWrites(action, operator, entries[..|entries| - 1], clock)
         + WritesOf(action, operator, entries[|entries| - 1], clock(|entries| - 1))
  }

  function TripCodeOf(entry: Json): string {
    if entry.Obj? then StringField(entry.members, "tripCode") else ""
  }

  /** appendUpdatedTripCode. */
  function AppendTripCode(codes: seq<string>, code: string): seq<string> {
    var trimmed := TrimSpace(code);
    if trimmed == "" || trimmed in codes then codes else codes + [trimmed]
  }

  function UpdatedTripCodes(entries: seq<Json>): seq<string> {
    if entries == [] then []
    else AppendTripCode(UpdatedTripCodes(entries[..|entries| - 1]), TripCodeOf(entries[|entries| - 1]))
  }

  /** The trip code an entry gives, without the blanks around it. */
  ghost predicate GivesTripCode(e: Json, code: string) {
    e.Obj? && code == TrimSpace(StringField(e.members, "tripCode")) && code != ""
  }

  lemma TripCodeIsGiven(e: Json, code: string)
    ensures GivesTripCode(e, code) <==> TrimSpace(TripCodeOf(e)) == code && code != ""
  {
    assert TrimSpace("") == "";
  }

  /** The reported codes are the trimmed non-blank trip codes of the entries, each once. */
  lemma {:induction false} UpdatedTripCodesAreTheCodes(entries: seq<Json>)
    ensures forall code :: code in UpdatedTripCodes(entries) <==> exists e :: e in entries && GivesTripCode(e, code)
    ensures forall i, j :: 0 <= i < j < |UpdatedTripCodes(entries)| ==>
        UpdatedTripCodes(entries)[i] != UpdatedTripCodes(entries)[j]
  {
    if entries != [] {
      var front, last := entries[..|entries| - 1], entries[|entries| - 1];
      UpdatedTripCodesAreTheCodes(front);
      assert entries == front + [last];
      assert last in entries;
      assert forall e :: e in entries <==> e in front || e == last;
      var codes, trimmed := UpdatedTripCodes(front), TrimSpace(TripCodeOf(last));
      forall code ensures GivesTripCode(last, code) <==> trimmed == code && code != "" {
        TripCodeIsGiven(last, code);
      }
      assert forall code :: code in UpdatedTripCodes(entries) <==> code in codes || (code == trimmed && code != "");
    }
  }

  lemma OneMoreTripCode(entries: seq<Json>, i: nat)
    requires i < |entries|
    ensures UpdatedTripCodes(entries[..i + 1]) == AppendTripCode(UpdatedTripCodes(entries[..i]), TripCodeOf(entries[i]))
  {
    assert entries[..i + 1][..i] == entries[..i];
  }

  lemma OneMoreEntry(log: seq<Write>, action: Action, operator: string, entries: seq<Json>, i: nat, clock: nat -> int)
    requires i < |entries|
    ensures log + AllWrites(action, operator, entries[..i + 1], clock)
            == log + AllWrites(action, operator, entries[..i], clock) + WritesOf(action, operator, entries[i], clock(i))
  {
    assert entries[..i + 1][..i] == entries[..i];
    AppendIsAssociative(log, AllWrites(action, operator, entries[..i], clock),
                        WritesOf(action, operator, entries[i], clock(i)));
  }

  // ---------- the storage ----------

  /** A write may succeed, fail without effect, or take effect and still be reported as failed. */
  datatype Outcome = Stored | Lost | StoredButReportedFailed

  /** The next n writes are all applied and reported so. */
  ghost predicate FaultFree(outcome: nat -> Outcome, first: nat, n: nat) {
    forall i :: first <= i < first + n ==> outcome(i) == Stored
  }

  lemma FaultFreeSplits(outcome: nat -> Outcome, first: nat, n: nat, m: nat)
    ensures FaultFree(outcome, first, n + m) <==> FaultFree(outcome, first, n) && FaultFree(outcome, first + n, m)
  {
    forall i | first + n <= i < first + n + m ensures FaultFree(outcome, first, n + m) ==> outcome(i) == Stored {
    }
    forall i | first <= i < first + n + m
      ensures FaultFree(outcome, first, n) && FaultFree(outcome, first + n, m) ==> outcome(i) == Stored
    {
    }
  }

  /** What is left of writes tried in order, up to the first that is not reported stored. */
  ghost function Applied(outcome: nat -> Outcome, first: nat, writes: seq<Write>): seq<Write> {
    if writes == [] then []
    else
      var last := |writes| - 1;
      if !FaultFree(outcome, first, last) || outcome(first + last) == Lost
      then Applied(outcome, first, writes[..last])
      else writes
  }

  /** How many of n writes are tried. */
  ghost function Tried(outcome: nat -> Outcome, first: nat, n: nat): nat {
    if n == 0 then 0 else if FaultFree(outcome, first, n - 1) then n else Tried(outcome, first, n - 1)
  }

  /** The log and the number of the next write after these writes were tried in order. */
  ghost predicate InOrder(outcome: nat -> Outcome, first: nat, before: seq<Write>, next: nat, after: seq<Write>,
                          writes: seq<Write>) {
    after == before + Applied(outcome, first, writes) && next == first + Tried(outcome, first, |writes|)
  }

  lemma {:induction false} AppliedWhole(outcome: nat -> Outcome, first: nat, writes: seq<Write>)
    requires FaultFree(outcome, first, |writes|)
    ensures Applied(outcome, first, writes) == writes && Tried(outcome, first, |writes|) == |writes|
  {
    if writes != [] {
      FaultFreeSplits(outcome, first, |writes| - 1, 1);
    }
  }

  /** The second of two stretches is tried when the first meets no fault, from where that ends. */
  lemma {:induction false} AppliedJoin(outcome: nat -> Outcome, first: nat, a: seq<Write>, b: seq<Write>)
    ensures Applied(outcome, first, a + b)
            == if FaultFree(outcome, first, |a|) then a + Applied(outcome, first + |a|, b)
               else Applied(outcome, first, a)
    ensures Tried(outcome, first, |a| + |b|)
            == if FaultFree(outcome, first, |a|) then |a| + Tried(outcome, first + |a|, |b|)
               else Tried(outcome, first, |a|)
  {
    if b == [] {
      assert a + b == a && a + [] == a;
      if FaultFree(outcome, first, |a|) {
        AppliedWhole(outcome, first, a);
      }
    } else {
      var front := b[..|b| - 1];
      assert (a + b)[..|a + b| - 1] == a + front;
      AppliedJoin(outcome, first, a, front);
      FaultFreeSplits(outcome, first, |a|, |front|);
    }
  }

  /** They are a prefix of the writes, all of them exactly when none meets a fault or only the last is misreported. */
  lemma {:induction false} AppliedGrew(outcome: nat -> Outcome, first: nat, before: seq<Write>, writes: seq<Write>)
    ensures Applied(outcome, first, writes) <= writes
    ensures Grew(before, before + Applied(outcome, first, writes), writes, FaultFree(outcome, first, |writes|))
  {
    AppliedIsPrefix(outcome, first, writes);
    var n := |Applied(outcome, first, writes)|;
    assert writes[..n] == Applied(outcome, first, writes);
    if FaultFree(outcome, first, |writes|) {
      AppliedWhole(outcome, first, writes);
    }
  }

  lemma {:induction false} AppliedIsPrefix(outcome: nat -> Outcome, first: nat, writes: seq<Write>)
    ensures Applied(outcome, first, writes) <= writes
  {
    if writes != [] {
      AppliedIsPrefix(outcome, first, writes[..|writes| - 1]);
    }
  }

  lemma TriedNothing(outcome: nat -> Outcome, first: nat, log: seq<Write>)
    ensures InOrder(outcome, first, log, first, log, [])
  {
    assert log + [] == log;
  }

  lemma TriedOne(outcome: nat -> Outcome, first: nat, log: seq<Write>, w: Write)
    ensures InOrder(outcome, first, log, first + 1, if outcome(first) == Lost then log else log + [w], [w])
  {
    assert [w][..0] == [] && log + [] == log;
  }

  lemma TriedAll(outcome: nat -> Outcome, first: nat, before: seq<Write>, next: nat, after: seq<Write>,
                 writes: seq<Write>)
    requires FaultFree(outcome, first, |writes|) && InOrder(outcome, first, before, next, after, writes)
    ensures next == first + |writes|
  {
    AppliedWhole(outcome, first, writes);
  }

  lemma InOrderFurther(outcome: nat -> Outcome, first: nat, before: seq<Write>, second: nat, middle: seq<Write>,
                       next: nat, after: seq<Write>, a: seq<Write>, b: seq<Write>)
    requires FaultFree(outcome, first, |a|)
    requires InOrder(outcome, first, before, second, middle, a) && InOrder(outcome, second, middle, next, after, b)
    ensures InOrder(outcome, first, before, next, after, a + b)
  {
    AppliedWhole(outcome, first, a);
    AppliedJoin(outcome, first, a, b);
    AppendIsAssociative(before, a, Applied(outcome, second, b));
  }

  lemma InOrderStopped(outcome: nat -> Outcome, first: nat, before: seq<Write>, next: nat, after: seq<Write>,
                       a: seq<Write>, b: seq<Write>)
    requires !FaultFree(outcome, first, |a|) && InOrder(outcome, first, before, next, after, a)
    ensures InOrder(outcome, first, before, next, after, a + b)
  {
    AppliedJoin(outcome, first, a, b);
  }

  /** How many writes an entry takes, whatever the time. */
  ghost function WriteCount(action: Action, operator: string, entry: Json): nat {
    |WritesOf(action, operator, entry, ZERO_CLOCK)|
  }

  const ZERO_CLOCK := 0

  ghost function CountOf(action: Action, operator: string): Json -> nat {
    (entry: Json) => WriteCount(action, operator, entry)
  }

  /** How many writes a list of entries takes. */
  ghost function WriteCounts(action: Action, operator: string, entries: seq<Json>): nat {
    Steps(entries, CountOf(action, operator))
  }

  /** It takes as many as are listed for it, whatever the clock reads. */
  lemma {:induction false} WriteCountsAreLengths(action: Action, operator: string, entries: seq<Json>,
                                                 clock: nat -> int)
    ensures |AllWrites(action, operator, entries, clock)| == WriteCounts(action, operator, entries)
  {
    if entries != [] {
      WriteCountsAreLengths(action, operator, entries[..|entries| - 1], clock);
    }
  }

  /** An entry whose first write is number `start` can be stored and meets no fault. */
  ghost predicate EntryStored(outcome: nat -> Outcome, start: nat, action: Action, operator: string, entry: Json) {
    StorableEntry(action, operator, entry) && FaultFree(outcome, start, WriteCount(action, operator, entry))
  }

  ghost function StoredBy(outcome: nat -> Outcome, action: Action, operator: string): (nat, Json) -> bool {
    (start: nat, entry: Json) => EntryStored(outcome, start, action, operator, entry)
  }

  /** Every entry can be stored, and no write up to its last one fails. */
  ghost predicate StoredCompletely(outcome: nat -> Outcome, first: nat, action: Action, operator: string,
                                   entries: seq<Json>)
  {
    AllPass(entries, first, CountOf(action, operator), StoredBy(outcome, action, operator))
  }

  lemma {:induction false} OneMoreCount(action: Action, operator: string, entries: seq<Json>, i: nat)
    requires i < |entries|
    ensures WriteCounts(action, operator, entries[..i + 1])
            == WriteCounts(action, operator, entries[..i]) + WriteCount(action, operator, entries[i])
  {
    TakeOneMore(entries, i);
  }

  lemma StoredByMeans(outcome: nat -> Outcome, start: nat, action: Action, operator: string, entry: Json)
    ensures StoredBy(outcome, action, operator)(start, entry) == EntryStored(outcome, start, action, operator, entry)
  {
  }

  /** Where entry i stands, it decides whether the first i + 1 are stored, and may rule out the whole list. */
  lemma {:induction false} NextEntryDecides(outcome: nat -> Outcome, first: nat, action: Action, operator: string,
                                            entries: seq<Json>, i: nat)
    requires i < |entries| && StoredCompletely(outcome, first, action, operator, entries[..i])
    ensures var start := first + WriteCounts(action, operator, entries[..i]);
            if EntryStored(outcome, start, action, operator, entries[i])
            then StoredCompletely(outcome, first, action, operator, entries[..i + 1])
            else !StoredCompletely(outcome, first, action, operator, entries)
  {
    StoredByMeans(outcome, first + WriteCounts(action, operator, entries[..i]), action, operator, entries[i]);
    NextDecides(entries, first, CountOf(action, operator), StoredBy(outcome, action, operator), i);
  }

  lemma {:induction false} StoredCompletelyMeans(outcome: nat -> Outcome, first: nat, action: Action, operator: string,
                                                 entries: seq<Json>)
    ensures StoredCompletely(outcome, first, action, operator, entries)
            <==> && AllStorable(action, operator, entries)
                 && FaultFree(outcome, first, WriteCounts(action, operator, entries))
  {
    if entries != [] {
      var front, last := entries[..|entries| - 1], entries[|entries| - 1];
      StoredCompletelyMeans(outcome, first, action, operator, front);
      FaultFreeSplits(outcome, first, WriteCounts(action, operator, front), WriteCount(action, operator, last));
    }
  }

  /** The entries before this one were stored completely, and this one, if there is one, was not. */
  ghost predicate StoredUpTo(outcome: nat -> Outcome, first: nat, action: Action, operator: string,
                             entries: seq<Json>, clock: nat -> int, stored: nat)
    requires stored <= |entries|
  {
    && StoredCompletely(outcome, first, action, operator, entries[..stored])
    && (stored < |entries| ==>
          !EntryStored(outcome, first + WriteCounts(action, operator, entries[..stored]), action, operator,
                       entries[stored]))
  }

  /** The log and the number of the next write then: all writes of those entries, and what this one got to write. */
  ghost predicate LeftBy(outcome: nat -> Outcome, first: nat, before: seq<Write>, next: nat, after: seq<Write>,
                         action: Action, operator: string, entries: seq<Json>, clock: nat -> int, stored: nat)
    requires stored <= |entries|
  {
    InOrder(outcome, first + WriteCounts(action, operator, entries[..stored]),
            before + AllWrites(action, operator, entries[..stored], clock), next, after,
            if stored == |entries| then [] else WritesOf(action, operator, entries[stored], clock(stored)))
  }

  lemma WritesKeepTheirNumber(action: Action, operator: string, entry: Json, now: int)
    ensures |WritesOf(action, operator, entry, now)| == WriteCount(action, operator, entry)
  {
  }

  /** A completely stored entry leaves all its writes. */
  lemma StoredEntryGrows(outcome: nat -> Outcome, first: nat, before: seq<Write>, next: nat, after: seq<Write>,
                         action: Action, operator: string, entry: Json, now: int)
    requires EntryStored(outcome, first, action, operator, entry)
    requires InOrder(outcome, first, before, next, after, WritesOf(action, operator, entry, now))
    ensures after == before + WritesOf(action, operator, entry, now)
    ensures next == first + WriteCount(action, operator, entry)
  {
    WritesKeepTheirNumber(action, operator, entry, now);
    AppliedWhole(outcome, first, WritesOf(action, operator, entry, now));
  }

  lemma UnstoredEntryStops(outcome: nat -> Outcome, first: nat, before: seq<Write>, next: nat, after: seq<Write>,
                           action: Action, operator: string, entry: Json, now: int)
    requires !EntryStored(outcome, first, action, operator, entry)
    requires InOrder(outcome, first, before, next, after, WritesOf(action, operator, entry, now))
    ensures Grew(before, after, WritesOf(action, operator, entry, now), false)
  {
    var writes := WritesOf(action, operator, entry, now);
    WritesKeepTheirNumber(action, operator, entry, now);
    AppliedGrew(outcome, first, before, writes);
    if writes == [] {
      assert before + [] == before;
      GrewNothing(before, writes);
    }
  }

  /** What a request stopped at an entry leaves is its writes up to some point of that entry. */
  lemma StoppedAtEntry(outcome: nat -> Outcome, first: nat, before: seq<Write>, next: nat, after: seq<Write>,
                       action: Action, operator: string, entries: seq<Json>, clock: nat -> int, stored: nat)
    requires stored < |entries| && StoredUpTo(outcome, first, action, operator, entries, clock, stored)
    requires LeftBy(outcome, first, before, next, after, action, operator, entries, clock, stored)
    ensures Grew(before + AllWrites(action, operator, entries[..stored], clock), after,
                 WritesOf(action, operator, entries[stored], clock(stored)), false)
  {
    UnstoredEntryStops(outcome, first + WriteCounts(action, operator, entries[..stored]),
                       before + AllWrites(action, operator, entries[..stored], clock), next, after, action, operator,
                       entries[stored], clock(stored));
  }

  lemma StoppedAtEnd(outcome: nat -> Outcome, first: nat, before: seq<Write>, next: nat, after: seq<Write>,
                     action: Action, operator: string, entries: seq<Json>, clock: nat -> int)
    requires LeftBy(outcome, first, before, next, after, action, operator, entries, clock, |entries|)
    ensures Grew(before + AllWrites(action, operator, entries[..|entries|], clock), after, [], true)
  {
    NothingTried(outcome, first + WriteCounts(action, operator, entries[..|entries|]),
                 before + AllWrites(action, operator, entries[..|entries|], clock), next, after);
  }

  lemma NothingTried(outcome: nat -> Outcome, first: nat, before: seq<Write>, next: nat, after: seq<Write>)
    requires InOrder(outcome, first, before, next, after, [])
    ensures Grew(before, after, [], true)
  {
  }

  /** Where the loop stands before entry i. */
  ghost predicate Reached(outcome: nat -> Outcome, first: nat, before: seq<Write>, next: nat, after: seq<Write>,
                          action: Action, operator: string, entries: seq<Json>, clock: nat -> int, i: nat)
    requires i <= |entries|
  {
    && StoredCompletely(outcome, first, action, operator, entries[..i])
    && after == before + AllWrites(action, operator, entries[..i], clock)
    && next == first + WriteCounts(action, operator, entries[..i])
  }

  lemma ReachedFirst(outcome: nat -> Outcome, first: nat, before: seq<Write>, action: Action, operator: string,
                     entries: seq<Json>, clock: nat -> int)
    ensures Reached(outcome, first, before, first, before, action, operator, entries, clock, 0)
  {
    assert before + [] == before && entries[..0] == [];
  }

  lemma ReachedNext(outcome: nat -> Outcome, first: nat, before: seq<Write>, at: nat, middle: seq<Write>, next: nat,
                    after: seq<Write>, action: Action, operator: string, entries: seq<Json>, clock: nat -> int, i: nat)
    requires i < |entries| && EntryStored(outcome, at, action, operator, entries[i])
    requires Reached(outcome, first, before, at, middle, action, operator, entries, clock, i)
    requires InOrder(outcome, at, middle, next, after, WritesOf(action, operator, entries[i], clock(i)))
    ensures Reached(outcome, first, before, next, after, action, operator, entries, clock, i + 1)
  {
    OneMoreEntry(before, action, operator, entries, i, clock);
    OneMoreCount(action, operator, entries, i);
    NextEntryDecides(outcome, first, action, operator, entries, i);
    StoredEntryGrows(outcome, at, middle, next, after, action, operator, entries[i], clock(i));
  }

  lemma SameStart(outcome: nat -> Outcome, at: nat, start: nat, middle: seq<Write>, done: seq<Write>, next: nat,
                  after: seq<Write>, writes: seq<Write>)
    requires at == start && middle == done && InOrder(outcome, at, middle, next, after, writes)
    ensures InOrder(outcome, start, done, next, after, writes)
  {
  }

  lemma ReachedLast(outcome: nat -> Outcome, first: nat, before: seq<Write>, at: nat, middle: seq<Write>, next: nat,
                    after: seq<Write>, action: Action, operator: string, entries: seq<Json>, clock: nat -> int, i: nat)
    requires i < |entries| && !EntryStored(outcome, at, action, operator, entries[i])
    requires Reached(outcome, first, before, at, middle, action, operator, entries, clock, i)
    requires InOrder(outcome, at, middle, next, after, WritesOf(action, operator, entries[i], clock(i)))
    ensures StoredUpTo(outcome, first, action, operator, entries, clock, i)
    ensures LeftBy(outcome, first, before, next, after, action, operator, entries, clock, i)
  {
    SameStart(outcome, at, first + WriteCounts(action, operator, entries[..i]), middle,
              before + AllWrites(action, operator, entries[..i], clock), next, after,
              WritesOf(action, operator, entries[i], clock(i)));
  }

  lemma ReachedEnd(outcome: nat -> Outcome, first: nat, before: seq<Write>, next: nat, after: seq<Write>,
                   action: Action, operator: string, entries: seq<Json>, clock: nat -> int)
    requires Reached(outcome, first, before, next, after, action, operator, entries, clock, |entries|)
    ensures StoredUpTo(outcome, first, action, operator, entries, clock, |entries|)
    ensures LeftBy(outcome, first, before, next, after, action, operator, entries, clock, |entries|)
    ensures StoredCompletely(outcome, first, action, operator, entries)
  {
    assert entries[..|entries|] == entries;
    TriedNothing(outcome, next, after);
  }

  lemma RouteWritesSplit(id: Identifiers, rows: seq<Route>, i: nat, now: int)
    requires i < |rows|
    ensures var front, write := RouteWrites(id, rows[..i], now), RouteIndex(RouteRowOf(id, rows[i]), now);
            && RouteWrites(id, rows[..i + 1], now) == front + [write]
            && RouteWrites(id, rows, now) == front + [write] + RouteWrites(id, rows[i + 1..], now)
  {
  }

  class TripDetailsStorage {
    var cache: map<string, Json>
    var routes: map<RouteRow, int>
    var schedules: map<ScheduleRow, int>
    var attempts: nat
    const outcome: nat -> Outcome
    ghost var log: seq<Write>

    ghost predicate Valid()
      reads this
    {
      cache == CacheOf(log) && routes == RoutesOf(log) && schedules == SchedulesOf(log)
    }

    constructor (outcome: nat -> Outcome)
      ensures Valid() && log == [] && this.outcome == outcome
    {
      this.outcome := outcome;
      cache, routes, schedules, attempts, log := map[], map[], map[], 0, [];
    }

    /** Whether the next write is applied, and whether it is reported as successful. */
    method NextOutcome() returns (applied: bool, ok: bool)
      requires Valid()
      modifies this`attempts
      ensures applied <==> outcome(old(attempts)) != Lost
      ensures attempts == old(attempts) + 1 && (ok <==> outcome(old(attempts)) == Stored)
    {
      var result := outcome(attempts);
      attempts := attempts + 1;
      applied, ok := result != Lost, result == Stored;
    }

    /** SetJSONWithTTL. */
    method SetJson(key: string, json: Json) returns (ok: bool)
      requires Valid()
      modifies this
      ensures Valid()
      ensures InOrder(outcome, old(attempts), old(log), attempts, log, [Document(key, json)])
      ensures ok <==> outcome(old(attempts)) == Stored
    {
      ghost var write := Document(key, json);
      var applied: bool;
      TriedOne(outcome, attempts, log, write);
      applied, ok := NextOutcome();
      if applied {
        ReplayOne(log, write);
        cache := cache[key := json];
        log := log + [write];
        assert cache == CacheOf(log) && routes == RoutesOf(log) && schedules == SchedulesOf(log);
      }
    }

    /** SaveRouteMetadata, an upsert by primary key. */
    method SaveRoute(route: RouteRow, now: int) returns (ok: bool)
      requires Valid()
      modifies this
      ensures Valid()
      ensures InOrder(outcome, old(attempts), old(log), attempts, log, [RouteIndex(route, now)])
      ensures ok <==> outcome(old(attempts)) == Stored
    {
      ghost var write := RouteIndex(route, now);
      var applied: bool;
      TriedOne(outcome, attempts, log, write);
      applied, ok := NextOutcome();
      if applied {
        ReplayOne(log, write);
        routes := routes[route := now];
        log := log + [write];
        assert cache == CacheOf(log) && routes == RoutesOf(log) && schedules == SchedulesOf(log);
      }
    }

    /** SaveScheduleMetadata, an upsert by primary key. */
    method SaveSchedule(schedule: ScheduleRow, now: int) returns (ok: bool)
      requires Valid()
      modifies this
      ensures Valid()
      ensures InOrder(outcome, old(attempts), old(log), attempts, log, [ScheduleIndex(schedule, now)])
      ensures ok <==> outcome(old(attempts)) == Stored
    {
      ghost var write := ScheduleIndex(schedule, now);
      var applied: bool;
      TriedOne(outcome, attempts, log, write);
      applied, ok := NextOutcome();
      if applied {
        ReplayOne(log, write);
        schedules := schedules[schedule := now];
        log := log + [write];
        assert cache == CacheOf(log) && routes == RoutesOf(log) && schedules == SchedulesOf(log);
      }
    }

    /** storeSearchCache: the trip document, then the stage document. */
    method StoreSearchCache(id: Identifiers, entry: map<string, Json>) returns (ok: bool)
      requires Valid()
      modifies this
      ensures Valid()
      ensures InOrder(outcome, old(attempts), old(log), attempts, log,
                      if KeyIdentifiersValid(id) then DocumentWrites(id, entry) else [])
      ensures ok <==> KeyIdentifiersValid(id) && FaultFree(outcome, old(attempts), 2)
    {
      ghost var first, start, writes := attempts, log, DocumentWrites(id, entry);
      if !KeyIdentifiersValid(id) {
        TriedNothing(outcome, attempts, log);
        return false;
      }
      ok := SetJson(TripKey(id.operator, id.trip), Obj(TripProjection(entry)));
      assert writes == [writes[0]] + [writes[1]];
      if !ok {
        InOrderStopped(outcome, first, start, attempts, log, [writes[0]], [writes[1]]);
        return;
      }
      ghost var second, middle := attempts, log;
      ok := SetJson(StageKey(id.operator, id.trip, id.stage), Obj(StageProjection(entry)));
      InOrderFurther(outcome, first, start, second, middle, attempts, log, [writes[0]], [writes[1]]);
    }

    /** The loop over the indexed routes. */
    method StoreRoutes(id: Identifiers, rows: seq<Route>, now: int) returns (ok: bool)
      requires Valid()
      modifies this
      ensures Valid()
      ensures InOrder(outcome, old(attempts), old(log), attempts, log, RouteWrites(id, rows, now))
      ensures ok <==> FaultFree(outcome, old(attempts), |rows|)
    {
      ghost var first, start := attempts, log;
      TriedNothing(outcome, attempts, log);
      for i := 0 to |rows|
        invariant Valid()
        invariant InOrder(outcome, first, start, attempts, log, RouteWrites(id, rows[..i], now))
        invariant FaultFree(outcome, first, i)
      {
        ghost var second, middle := attempts, log;
        ghost var front, rest := RouteWrites(id, rows[..i], now), RouteWrites(id, rows[i + 1..], now);
        ghost var write := RouteIndex(RouteRowOf(id, rows[i]), now);
        AppliedWhole(outcome, first, front);
        ok := SaveRoute(RouteRowOf(id, rows[i]), now);
        InOrderFurther(outcome, first, start, second, middle, attempts, log, front, [write]);
        RouteWritesSplit(id, rows, i, now);
        if !ok {
          InOrderStopped(outcome, first, start, attempts, log, front + [write], rest);
          return;
        }
      }
      assert rows[..|rows|] == rows;
      ok := true;
    }

    /** The schedule row, if there is a schedule. */
    method StoreSchedule(id: Identifiers, schedule: string, now: int) returns (ok: bool)
      requires Valid()
      modifies this
      ensures Valid()
      ensures InOrder(outcome, old(attempts), old(log), attempts, log, ScheduleWrites(id, schedule, now))
      ensures ok <==> FaultFree(outcome, old(attempts), |ScheduleWrites(id, schedule, now)|)
    {
      if schedule == "" {
        TriedNothing(outcome, attempts, log);
        return true;
      }
      ok := SaveSchedule(ScheduleRow(id.operator, schedule, id.date, id.trip, id.stage), now);
    }

    /** storeSearchMetadata: every indexed route in order, then the schedule row. */
    method StoreSearchMetadata(id: Identifiers, entry: map<string, Json>, now: int) returns (ok: bool)
      requires Valid()
      modifies this
      ensures Valid()
      ensures InOrder(outcome, old(attempts), old(log), attempts, log, IndexWrites(id, entry, now))
      ensures ok <==> FaultFree(outcome, old(attempts), |IndexWrites(id, entry, now)|)
    {
      var rows := StageMetadataRoutes(Route(id.from, id.to), Obj(entry));
      ghost var first, start := attempts, log;
      ghost var routeWrites, last := RouteWrites(id, rows, now), ScheduleWrites(id, ScheduleOf(entry), now);
      FaultFreeSplits(outcome, attempts, |rows|, |last|);
      ok := StoreRoutes(id, rows, now);
      if !ok {
        InOrderStopped(outcome, first, start, attempts, log, routeWrites, last);
        return;
      }
      TriedAll(outcome, first, start, attempts, log, routeWrites);
      ghost var second, middle := attempts, log;
      ok := StoreSchedule(id, ScheduleOf(entry), now);
      InOrderFurther(outcome, first, start, second, middle, attempts, log, routeWrites, last);
    }

    /** storeBusMapCache. */
    method StoreBusMapCache(id: Identifiers, entry: map<string, Json>) returns (ok: bool)
      requires Valid()
      modifies this
      ensures Valid()
      ensures InOrder(outcome, old(attempts), old(log), attempts, log,
                      if Storable(BusMap, id) then BusMapWrites(id, entry) else [])
      ensures ok <==> Storable(BusMap, id) && FaultFree(outcome, old(attempts), 1)
    {
      if !KeyIdentifiersValid(id) {
        TriedNothing(outcome, attempts, log);
        return false;
      }
      ok := SetJson(BusMapKey(id.operator, id.trip, id.stage), Obj(entry));
    }

    /** The documents and index rows of a SEARCH or SEARCHBUSMAP entry. */
    method StoreSearchEntry(id: Identifiers, entry: map<string, Json>, now: int) returns (ok: bool)
      requires Valid()
      modifies this
      ensures Valid()
      ensures InOrder(outcome, old(attempts), old(log), attempts, log,
                      if KeyIdentifiersValid(id) then DocumentWrites(id, entry) + IndexWrites(id, entry, now) else [])
      ensures ok <==> && KeyIdentifiersValid(id)
                      && FaultFree(outcome, old(attempts), |DocumentWrites(id, entry) + IndexWrites(id, entry, now)|)
    {
      ghost var first, start := attempts, log;
      ghost var documents, index := DocumentWrites(id, entry), IndexWrites(id, entry, now);
      FaultFreeSplits(outcome, first, 2, |index|);
      ok := StoreSearchCache(id, entry);
      if !ok {
        if KeyIdentifiersValid(id) {
          InOrderStopped(outcome, first, start, attempts, log, documents, index);
        }
        return;
      }
      TriedAll(outcome, first, start, attempts, log, documents);
      ghost var second, middle := attempts, log;
      ok := StoreSearchMetadata(id, entry, now);
      InOrderFurther(outcome, first, start, second, middle, attempts, log, documents, index);
    }

    /**
     * One entry of a SEARCH, BUSMAP or SEARCHBUSMAP request: its writes in order, up to the first that is not
     * reported stored; none for an entry that cannot be stored.
     */
    method StoreEntry(action: Action, operator: string, entry: map<string, Json>, now: int) returns (ok: bool)
      requires Valid()
      modifies this
      ensures Valid()
      ensures InOrder(outcome, old(attempts), old(log), attempts, log, WritesOf(action, operator, Obj(entry), now))
      ensures ok <==> EntryStored(outcome, old(attempts), action, operator, Obj(entry))
    {
      var id := IdentifiersOf(operator, entry);
      if action == BusMap {
        ok := StoreBusMapCache(id, entry);
        return;
      }
      if !SearchIdentifiersValid(id) {
        TriedNothing(outcome, attempts, log);
        return false;
      }
      if action == Search {
        ok := StoreSearchEntry(id, entry, now);
        return;
      }
      ok := StoreBothEntries(id, entry, now);
    }

    /** A SEARCHBUSMAP entry: as a SEARCH entry, then its busmap. */
    method StoreBothEntries(id: Identifiers, entry: map<string, Json>, now: int) returns (ok: bool)
      requires Valid() && KeyIdentifiersValid(id)
      modifies this
      ensures Valid()
      ensures InOrder(outcome, old(attempts), old(log), attempts, log,
                      DocumentWrites(id, entry) + IndexWrites(id, entry, now) + BusMapWrites(id, entry))
      ensures ok <==> FaultFree(outcome, old(attempts),
                                |DocumentWrites(id, entry) + IndexWrites(id, entry, now) + BusMapWrites(id, entry)|)
    {
      ghost var first, start := attempts, log;
      ghost var writes, busMap := DocumentWrites(id, entry) + IndexWrites(id, entry, now), BusMapWrites(id, entry);
      FaultFreeSplits(outcome, first, |writes|, |busMap|);
      ok := StoreSearchEntry(id, entry, now);
      if !ok {
        InOrderStopped(outcome, first, start, attempts, log, writes, busMap);
        return;
      }
      TriedAll(outcome, first, start, attempts, log, writes);
      ghost var second, middle := attempts, log;
      ok := StoreBusMapCache(id, entry);
      InOrderFurther(outcome, first, start, second, middle, attempts, log, writes, busMap);
    }

    /** One element of a data list, which need not be an object. */
    method StoreElement(action: Action, operator: string, entry: Json, now: int) returns (ok: bool)
      requires Valid()
      modifies this
      ensures Valid()
      ensures InOrder(outcome, old(attempts), old(log), attempts, log, WritesOf(action, operator, entry, now))
      ensures ok <==> EntryStored(outcome, old(attempts), action, operator, entry)
    {
      if !entry.Obj? {
        TriedNothing(outcome, attempts, log);
        return false;
      }
      ok := StoreEntry(action, operator, entry.members, now);
    }

    /** The loop over the entries: an entry is reached when all before it were stored completely. */
    method StoreUntilFailure(action: Action, operator: string, entries: seq<Json>, clock: nat -> int)
      returns (tripCodes: seq<string>, ok: bool, ghost stored: nat)
      requires Valid()
      modifies this
      ensures Valid()
      ensures stored <= |entries| && (ok <==> stored == |entries|)
      ensures tripCodes == UpdatedTripCodes(entries[..stored])
      ensures StoredUpTo(outcome, old(attempts), action, operator, entries, clock, stored)
      ensures LeftBy(outcome, old(attempts), old(log), attempts, log, action, operator, entries, clock, stored)
      ensures ok <==> StoredCompletely(outcome, old(attempts), action, operator, entries)
    {
      ghost var start, first := log, attempts;
      tripCodes, stored := [], 0;
      ReachedFirst(outcome, attempts, log, action, operator, entries, clock);
      for i := 0 to |entries|
        invariant Valid() && stored == i
        invariant tripCodes == UpdatedTripCodes(entries[..i])
        invariant Reached(outcome, first, start, attempts, log, action, operator, entries, clock, i)
      {
        ghost var middle, at := log, attempts;
        ok := StoreElement(action, operator, entries[i], clock(i));
        if !ok {
          ReachedLast(outcome, first, start, at, middle, attempts, log, action, operator, entries, clock, i);
          NextEntryDecides(outcome, first, action, operator, entries, i);
          return;
        }
        ReachedNext(outcome, first, start, at, middle, attempts, log, action, operator, entries, clock, i);
        OneMoreTripCode(entries, i);
        tripCodes, stored := AppendTripCode(tripCodes, TripCodeOf(entries[i])), i + 1;
      }
      ReachedEnd(outcome, first, start, attempts, log, action, operator, entries, clock);
      ok := true;
    }

    /**
     * storeEntries and storeSearchBusMapEntries: entries in order up to the first failure, reporting
     * the trip codes of those stored completely. All are stored exactly when each can be and no write fails.
     */
    method StoreEntries(action: Action, operator: string, entries: seq<Json>, clock: nat -> int)
      returns (tripCodes: seq<string>, ok: bool, ghost stored: nat)
      requires Valid()
      modifies this
      ensures Valid()
      ensures stored <= |entries| && (ok <==> stored == |entries|)
      ensures tripCodes == UpdatedTripCodes(entries[..stored])
      ensures StoredUpTo(outcome, old(attempts), action, operator, entries, clock, stored)
      ensures LeftBy(outcome, old(attempts), old(log), attempts, log, action, operator, entries, clock, stored)
      ensures ok <==> AllStorable(action, operator, entries)
                      && FaultFree(outcome, old(attempts), WriteCounts(action, operator, entries))
    {
      ghost var first := attempts;
      tripCodes, ok, stored := StoreUntilFailure(action, operator, entries, clock);
      StoredCompletelyMeans(outcome, first, action, operator, entries);
    }

    /**
     * Store: nothing is written for a malformed payload; otherwise entries are stored up to the first
     * failure, and all of them exactly when each can be stored and no write fails.
     */
    method Store(value: Json, clock: nat -> int) returns (tripCodes: seq<string>, ok: bool, ghost stored: nat)
      requires Valid()
      modifies this
      ensures Valid()
      ensures Sound(old(log)) ==> Sound(log)
      ensures var request := RequestOf(value);
              && (request.None? ==> !ok && tripCodes == [] && log == old(log))
              && (request.Some? ==>
                    var (entries, action, operator) := request.value;
                    && stored <= |entries| && (ok <==> stored == |entries|)
                    && tripCodes == UpdatedTripCodes(entries[..stored])
                    && AllStorable(action, operator, entries[..stored])
                    && StoredUpTo(outcome, old(attempts), action, operator, entries, clock, stored)
                    && LeftBy(outcome, old(attempts), old(log), attempts, log, action, operator, entries, clock, stored)
                    && Grew(old(log) + AllWrites(action, operator, entries[..stored], clock), log,
                            if ok then [] else WritesOf(action, operator, entries[stored], clock(stored)), ok)
                    && (ok <==> AllStorable(action, operator, entries)
                                && FaultFree(outcome, old(attempts), WriteCounts(action, operator, entries))))
    {
      var request := RequestOf(value);
      if request.None? {
        return [], false, 0;
      }
      var (entries, action, operator) := request.value;
      ghost var start, first := log, attempts;
      tripCodes, ok, stored := StoreEntries(action, operator, entries, clock);
      if ok {
        StoppedAtEnd(outcome, first, start, attempts, log, action, operator, entries, clock);
      } else {
        StoppedAtEntry(outcome, first, start, attempts, log, action, operator, entries, clock, stored);
      }
      StoredCompletelyMeans(outcome, first, action, operator, entries[..stored]);
      if Sound(start) {
        StoppedRequestIsSound(start, log, action, operator, entries, clock, stored, ok);
      }
    }
  }

  /** The entries a request carries, how to store them, and the operator of its envelope. */
  function RequestOf(value: Json): Option<(seq<Json>, Action, string)> {
    match ResolvePayload(value)
    case None => None
    case Some(p) =>
      match ExtractEntries(p, Upper(p.action))
      case None => None
      case Some((entries, action)) => Some((entries, action, p.operator))
  }

  lemma {:induction false} LaterEntriesWriteLater(action: Action, operator: string, entries: seq<Json>,
                                                  clock: nat -> int, n: nat)
    requires n <= |entries|
    ensures AllWrites(action, operator, entries[..n], clock) <= AllWrites(action, operator, entries, clock)
  {
    if n == |entries| {
      assert entries[..n] == entries;
    } else {
      var front := entries[..|entries| - 1];
      assert front[..n] == entries[..n];
      LaterEntriesWriteLater(action, operator, front, clock, n);
    }
  }

  lemma PrefixGrew(before: seq<Write>, after: seq<Write>, done: seq<Write>, next: seq<Write>, all: seq<Write>)
    requires Grew(before + done, after, next, false) && done + next <= all
    ensures Grew(before, after, all, false)
  {
    var n :| 0 <= n <= |next| && after == before + done + next[..n];
    AppendIsAssociative(before, done, next[..n]);
    assert done + next[..n] == (done + next)[..|done| + n] == all[..|done| + n];
  }

  /** A request that stopped at an entry wrote a prefix of what the whole list would. */
  lemma StoppedIsPrefix(before: seq<Write>, after: seq<Write>, action: Action, operator: string, entries: seq<Json>,
                        clock: nat -> int, stored: nat, ok: bool)
    requires stored <= |entries| && (ok <==> stored == |entries|)
    requires Grew(before + AllWrites(action, operator, entries[..stored], clock), after,
                  if ok then [] else WritesOf(action, operator, entries[stored], clock(stored)), ok)
    ensures Grew(before, after, AllWrites(action, operator, entries, clock), ok)
  {
    if ok {
      assert entries[..stored] == entries;
      assert after == before + AllWrites(action, operator, entries, clock) + [];
    } else {
      var done := AllWrites(action, operator, entries[..stored], clock);
      var next := WritesOf(action, operator, entries[stored], clock(stored));
      TakeOneMore(entries, stored);
      LaterEntriesWriteLater(action, operator, entries, clock, stored + 1);
      PrefixGrew(before, after, done, next, AllWrites(action, operator, entries, clock));
    }
  }

  lemma {:induction false} AllWritesAreSound(action: Action, operator: string, entries: seq<Json>, clock: nat -> int)
    ensures Sound(AllWrites(action, operator, entries, clock))
  {
    if entries != [] {
      var front, last := entries[..|entries| - 1], entries[|entries| - 1];
      AllWritesAreSound(action, operator, front, clock);
      if StorableEntry(action, operator, last) {
        EntryWritesAreSound(action, IdentifiersOf(operator, last.members), last.members, clock(|entries| - 1));
      }
      SoundLogsJoin(AllWrites(action, operator, front, clock), WritesOf(action, operator, last, clock(|entries| - 1)));
    }
  }

  /** Wherever a request stops, a sound log stays sound. */
  lemma StoppedRequestIsSound(log: seq<Write>, after: seq<Write>, action: Action, operator: string, entries: seq<Json>,
                              clock: nat -> int, stored: nat, ok: bool)
    requires Sound(log) && stored <= |entries| && (ok <==> stored == |entries|)
    requires Grew(log + AllWrites(action, operator, entries[..stored], clock), after,
                  if ok then [] else WritesOf(action, operator, entries[stored], clock(stored)), ok)
    ensures Sound(after)
  {
    var done := log + AllWrites(action, operator, entries[..stored], clock);
    AllWritesAreSound(action, operator, entries[..stored], clock);
    SoundLogsJoin(log, AllWrites(action, operator, entries[..stored], clock));
    if ok {
      assert after == done;
    } else {
      var writes := WritesOf(action, operator, entries[stored], clock(stored));
      if StorableEntry(action, operator, entries[stored]) {
        var entry := entries[stored].members;
        EntryWritesAreSound(action, IdentifiersOf(operator, entry), entry, clock(stored));
      }
      var n :| 0 <= n <= |writes| && after == done + writes[..n];
      SoundPrefix(writes, n);
      SoundLogsJoin(done, writes[..n]);
    }
  }
}
