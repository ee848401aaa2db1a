/** Store requests running at once: their writes reach the store in any interleaving. */
module ConcurrentStores {
  import opened Wrappers
  import opened JsonTree
  import opened Documents
  import opened Storage

  /** A request, and how many of its writes are applied before it stops. */
  datatype Request = Request(action: Action, operator: string, entries: seq<Json>, clock: nat -> int, applied: nat)

  /** The writes a request applies, in its own order. */
  ghost function Applied(r: Request): seq<Write> {
    var all := AllWrites(r.action, r.operator, r.entries, r.clock);
    if r.applied <= |all| then all[..r.applied] else all
  }

  lemma AppliedIsSound(r: Request)
    ensures Sound(Applied(r))
  {
    var all := AllWrites(r.action, r.operator, r.entries, r.clock);
    AllWritesAreSound(r.action, r.operator, r.entries, r.clock);
    if r.applied <= |all| {
      SoundPrefix(all, r.applied);
    }
  }

  // ---------- interleaving ----------

  /** How often it has been the turn of a request. */
  function Turns(schedule: seq<nat>, id: nat): nat {
    if schedule == [] then 0
    else Turns(schedule[..|schedule| - 1], id) + (if schedule[|schedule| - 1] == id then 1 else 0)
  }

  /** Lists taking turns: at its turn a list adds its next element, if it has one. */
  function Interleaved<T>(parts: seq<seq<T>>, schedule: seq<nat>): seq<T> {
    if schedule == [] then []
    else
      var front, id := schedule[..|schedule| - 1], schedule[|schedule| - 1];
      var log, turn := Interleaved(parts, front), Turns(front, id);
      if id < |parts| && turn < |parts[id]| then log + [parts[id][turn]] else log
  }

  /** Every write of one log is somewhere in the other. */
  ghost predicate Contains(log: seq<Write>, part: seq<Write>) {
    forall w :: w in part ==> w in log
  }

  lemma {:induction false} DocumentsAreWrites(log: seq<Write>, key: string)
    ensures LastDocument(log, key).Some? <==> exists w :: w in log && w.Document? && w.key == key
  {
    if log != [] {
      SplitLast(log);
      DocumentsAreWrites(log[..|log| - 1], key);
    }
  }

  lemma ContainedDocuments(log: seq<Write>, part: seq<Write>, key: string)
    requires Contains(log, part)
    ensures LastDocument(part, key).Some? ==> LastDocument(log, key).Some?
  {
    DocumentsAreWrites(log, key);
    DocumentsAreWrites(part, key);
  }

  /** A row stays backed wherever its documents are among more writes, in whatever order. */
  lemma BackedByMore(log: seq<Write>, part: seq<Write>, w: Write)
    requires Contains(log, part) && Backed(part, w)
    ensures Backed(log, w)
  {
    match w
    case Document(_, _) =>
    case RouteIndex(r, _) =>
      ContainedDocuments(log, part, TripKey(r.operator, r.trip));
      ContainedDocuments(log, part, StageKey(r.operator, r.trip, r.stage));
    case ScheduleIndex(r, _) =>
      ContainedDocuments(log, part, TripKey(r.operator, r.trip));
      ContainedDocuments(log, part, StageKey(r.operator, r.trip, r.stage));
  }

  /** What a list has had turns for is there. */
  lemma {:induction false} TurnsAreTaken<T>(parts: seq<seq<T>>, schedule: seq<nat>, id: nat, i: nat)
    requires id < |parts| && i < |parts[id]| && i < Turns(schedule, id)
    ensures parts[id][i] in Interleaved(parts, schedule)
  {
    var front := schedule[..|schedule| - 1];
    if i < Turns(front, id) {
      TurnsAreTaken(parts, front, id, i);
    }
  }

  lemma OneMoreBackedWrite(log: seq<Write>, w: Write)
    requires Sound(log) && Backed(log, w)
    ensures Sound(log + [w])
  {
    var all := log + [w];
    forall i | 0 <= i < |all| ensures Backed(all[..i], all[i]) {
      assert all[..i] == log[..i];
    }
  }

  ghost predicate AllSound(parts: seq<seq<Write>>) {
    forall part :: part in parts ==> Sound(part)
  }

  /** The next write of a request finds its documents, whoever wrote in between. */
  lemma NextWriteIsBacked(parts: seq<seq<Write>>, schedule: seq<nat>, id: nat)
    requires AllSound(parts) && id < |parts| && Turns(schedule, id) < |parts[id]|
    ensures Backed(Interleaved(parts, schedule), parts[id][Turns(schedule, id)])
  {
    var own, turn := parts[id], Turns(schedule, id);
    assert own in parts;
    forall w | w in own[..turn] ensures w in Interleaved(parts, schedule) {
      var i :| 0 <= i < turn && own[i] == w;
      TurnsAreTaken(parts, schedule, id, i);
    }
    BackedByMore(Interleaved(parts, schedule), own[..turn], own[turn]);
  }

  /** Any interleaving of sound logs is sound. */
  lemma {:induction false} InterleavingsAreSound(parts: seq<seq<Write>>, schedule: seq<nat>)
    requires AllSound(parts)
    ensures Sound(Interleaved(parts, schedule))
  {
    if schedule != [] {
      var front, id := schedule[..|schedule| - 1], schedule[|schedule| - 1];
      InterleavingsAreSound(parts, front);
      if id < |parts| && Turns(front, id) < |parts[id]| {
        NextWriteIsBacked(parts, front, id);
        OneMoreBackedWrite(Interleaved(parts, front), parts[id][Turns(front, id)]);
      }
    }
  }

  ghost function AppliedBy(requests: seq<Request>): seq<seq<Write>> {
    seq(|requests|, i requires 0 <= i < |requests| => Applied(requests[i]))
  }

  /**
   * At every moment of any requests running at once over a sound store, each stopped anywhere, every row of
   * either index has its trip and stage documents.
   */
  lemma ConcurrentRowsHaveTheirDocuments(log: seq<Write>, requests: seq<Request>, schedule: seq<nat>)
    requires Sound(log)
    ensures var now := log + Interleaved(AppliedBy(requests), schedule);
            && Sound(now)
            && (forall r :: r in RoutesOf(now) ==>
                  TripKey(r.operator, r.trip) in CacheOf(now) && StageKey(r.operator, r.trip, r.stage) in CacheOf(now))
            && (forall r :: r in SchedulesOf(now) ==>
                  TripKey(r.operator, r.trip) in CacheOf(now) && StageKey(r.operator, r.trip, r.stage) in CacheOf(now))
  {
    forall part | part in AppliedBy(requests) ensures Sound(part) {
      var i :| 0 <= i < |requests| && part == Applied(requests[i]);
      AppliedIsSound(requests[i]);
    }
    InterleavingsAreSound(AppliedBy(requests), schedule);
    SoundLogsJoin(log, Interleaved(AppliedBy(requests), schedule));
    RowsHaveTheirDocuments(log + Interleaved(AppliedBy(requests), schedule));
  }
}
