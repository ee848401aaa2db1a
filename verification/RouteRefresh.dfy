/** One periodic run: choosing the stale routes worth refreshing and publishing a job for each. */
module RouteRefresh {
  import opened Wrappers
  import opened Text
  import opened Storage
  import opened PublishProtocol

  // ---------- the candidates ----------

  /** One stale metadata row, with its trip date as a day number when it reads as a date. */
  datatype StaleRow = StaleRow(operator: string, date: string, day: Option<int>, from: string, to: string,
                               updatedAt: int)

  const DAYS_AHEAD := 7

  /** A row of an active operator, of today or the seven days after, with both its ends. */
  ghost predicate Eligible(r: StaleRow, active: set<string>, today: int) {
    && r.operator in active && r.day.Some? && 0 <= r.day.value - today <= 7
    && r.from != "" && r.to != ""
  }

  function PairKey(r: StaleRow): string {
    r.operator + "\0" + (r.date + "\0" + (r.from + "\0" + r.to))
  }

  function JobOf(r: StaleRow): Job {
    Job(r.operator, r.date, r.from, r.to, r.updatedAt)
  }

  /** The job is about the row's route and date, in the row's own state. */
  predicate IsAbout(job: Job, r: StaleRow) {
    && job.operator == r.operator && job.date == r.date
    && job.from == r.from && job.to == r.to && job.updatedAt == r.updatedAt
  }

  /** For every key of an eligible row, a newest one of that key, and nothing else. */
  ghost predicate NewestPerKey(pairs: map<string, Job>, rows: seq<StaleRow>, active: set<string>, today: int) {
    && (forall key :: key in pairs ==>
          exists r :: r in rows && Eligible(r, active, today) && PairKey(r) == key && IsAbout(pairs[key], r))
    && (forall r :: r in rows && Eligible(r, active, today) ==>
          PairKey(r) in pairs && r.updatedAt <= pairs[PairKey(r)].updatedAt)
  }

  /** futureRoutePairs, before the grouping. */
  method FutureRoutePairs(rows: seq<StaleRow>, active: set<string>, today: int) returns (pairs: map<string, Job>)
    ensures NewestPerKey(pairs, rows, active, today)
  {
    pairs := map[];
    for i := 0 to |rows|
      invariant forall key :: key in pairs ==>
                  exists r :: r in rows && Eligible(r, active, today) && PairKey(r) == key && IsAbout(pairs[key], r)
      invariant forall r :: r in rows[..i] && Eligible(r, active, today) ==>
                  PairKey(r) in pairs && r.updatedAt <= pairs[PairKey(r)].updatedAt
    {
      var row := rows[i];
      assert row in rows && rows[..i + 1] == rows[..i] + [row];
      if row.operator !in active {
        continue;
      }
      if row.day.None? || row.day.value < today || row.day.value > today + DAYS_AHEAD {
        continue;
      }
      if row.from == "" || row.to == "" {
        continue;
      }
      var key := PairKey(row);
      if key !in pairs || row.updatedAt > pairs[key].updatedAt {
        pairs := pairs[key := JobOf(row)];
      }
    }
    assert rows[..|rows|] == rows;
  }

  /** The keys among these whose candidate is of the operator. */
  function OperatorKeys(pairs: map<string, Job>, keys: set<string>, operator: string): set<string> {
    set key | key in keys && key in pairs && pairs[key].operator == operator
  }

  /** Each candidate of some of the keys is in its operator's group, once per key, and nothing else is. */
  ghost predicate Grouped(groups: map<string, seq<Job>>, pairs: map<string, Job>, keys: set<string>) {
    && (forall key :: key in keys && key in pairs ==>
          pairs[key].operator in groups && pairs[key] in groups[pairs[key].operator])
    && (forall o :: o in groups ==> groups[o] != [] && |groups[o]| == |OperatorKeys(pairs, keys, o)|)
    && (forall o, job :: o in groups && job in groups[o] ==> job.operator == o && job in pairs.Values)
  }

  lemma OneMoreKey(pairs: map<string, Job>, keys: set<string>, key: string, o: string)
    requires key in pairs && key !in keys
    ensures |OperatorKeys(pairs, keys + {key}, o)|
            == |OperatorKeys(pairs, keys, o)| + (if pairs[key].operator == o then 1 else 0)
  {
    assert OperatorKeys(pairs, keys + {key}, o)
        == OperatorKeys(pairs, keys, o) + (if pairs[key].operator == o then {key} else {});
  }

  function GroupOf(groups: map<string, seq<Job>>, o: string): seq<Job> {
    if o in groups then groups[o] else []
  }

  lemma GroupGrows(groups: map<string, seq<Job>>, pairs: map<string, Job>, keys: set<string>, key: string)
    requires Grouped(groups, pairs, keys) && key in pairs && key !in keys
    ensures var job := pairs[key];
            Grouped(groups[job.operator := GroupOf(groups, job.operator) + [job]], pairs, keys + {key})
  {
    var job := pairs[key];
    var after := groups[job.operator := GroupOf(groups, job.operator) + [job]];
    if job.operator !in groups {
      assert OperatorKeys(pairs, keys, job.operator) == {};
    }
    forall o | o in after ensures after[o] != [] && |after[o]| == |OperatorKeys(pairs, keys + {key}, o)| {
      OneMoreKey(pairs, keys, key, o);
    }
    assert pairs[key] in pairs.Values;
  }

  /** The grouping by operator, in any order of the keys. */
  method GroupByOperator(pairs: map<string, Job>) returns (groups: map<string, seq<Job>>)
    ensures Grouped(groups, pairs, pairs.Keys)
  {
    groups := map[];
    var left := pairs.Keys;
    while left != {}
      invariant left <= pairs.Keys && Grouped(groups, pairs, pairs.Keys - left)
      decreases |left|
    {
      var key :| key in left;
      GroupGrows(groups, pairs, pairs.Keys - left, key);
      assert pairs.Keys - left + {key} == pairs.Keys - (left - {key});
      var job := pairs[key];
      groups := groups[job.operator := GroupOf(groups, job.operator) + [job]];
      left := left - {key};
    }
    assert pairs.Keys - {} == pairs.Keys;
  }

  predicate NulFree(r: StaleRow) {
    '\0' !in r.operator && '\0' !in r.date && '\0' !in r.from
  }

  /** Without NULs in the codes, rows share a key exactly when they are about the same route and date. */
  lemma KeysTellRoutesApart(a: StaleRow, b: StaleRow)
    requires NulFree(a) && NulFree(b)
    ensures PairKey(a) == PairKey(b) <==>
              a.operator == b.operator && a.date == b.date && a.from == b.from && a.to == b.to
  {
    if PairKey(a) == PairKey(b) {
      var lastA, lastB := a.from + "\0" + a.to, b.from + "\0" + b.to;
      SplitAtMark('\0', a.operator, a.date + "\0" + lastA, b.operator, b.date + "\0" + lastB);
      SplitAtMark('\0', a.date, lastA, b.date, lastB);
      SplitAtMark('\0', a.from, a.to, b.from, b.to);
    }
  }

  // ---------- Orbit's own routes ----------

  datatype OrbitRoutes = OrbitRoutes(top: seq<string>, normal: seq<string>)

  /** orbitRoutePriority: no priority means the route is not offered. */
  function PriorityOf(routes: OrbitRoutes, to: string): Option<int> {
    if to in routes.top then Some(9) else if to in routes.normal then Some(8) else None
  }

  /** The routes Orbit offers one operator, by origin station. */
  function Offer(routes: map<string, OrbitRoutes>, job: Job): Option<int> {
    if job.from in routes then PriorityOf(routes[job.from], job.to) else None
  }

  /** What one job counts as: a top route, another that Orbit offers, or none that it offers. */
  datatype Place = Top | Normal | Elsewhere

  ghost function PlaceOf(routes: map<string, OrbitRoutes>, job: Job): Place {
    if job.from in routes && job.to in routes[job.from].top then Top
    else if job.from in routes && job.to in routes[job.from].normal then Normal
    else Elsewhere
  }

  /** How many of the first jobs are in that place. */
  ghost function Among(jobs: seq<Job>, first: nat, routes: map<string, OrbitRoutes>, place: Place): nat
    requires first <= |jobs|
  {
    if first == 0 then 0
    else Among(jobs, first - 1, routes, place) + (if PlaceOf(routes, jobs[first - 1]) == place then 1 else 0)
  }

  // ---------- publishing ----------

  datatype PublishFaults = PublishFaults(findFails: bool, save: Outcome, confirmed: bool, mark: Outcome)

  datatype PublishResult = NotInOrbit | Skipped | QueuedJob | Error

  /** The steps of the protocol one publishRoute call goes through; those it does not reach change nothing. */
  ghost function RouteSteps(s: State, job: Job, w: PublishFaults): State {
    Step(Step(Step(Step(s, Find(job, w.findFails)), SaveReceived(w.save)), Publish(w.confirmed)), Mark(w.mark))
  }

  /** So a publishRoute call is a run of the protocol. */
  lemma RouteStepsAreARun(s: State, job: Job, w: PublishFaults)
    ensures RouteSteps(s, job, w)
            == RunFrom(s, [Find(job, w.findFails), SaveReceived(w.save), Publish(w.confirmed), Mark(w.mark)])
    ensures Reaches(s, RouteSteps(s, job, w))
  {
    RunOfFour(s, Find(job, w.findFails), SaveReceived(w.save), Publish(w.confirmed), Mark(w.mark));
  }

  /** Some step of the call may fail. */
  predicate Faulty(w: PublishFaults) {
    w.findFails || w.save != Stored || !w.confirmed || w.mark != Stored
  }

  /** Nothing can be refreshed for the operator, or some step of one of its candidates may fail. */
  ghost predicate MayFail(o: string, jobs: seq<Job>, orbit: map<string, map<string, OrbitRoutes>>,
                          faults: nat -> PublishFaults)
  {
    o !in orbit || exists i :: 0 <= i < |jobs| && Faulty(faults(i))
  }

  /** The call gets as far as a confirmed publish. */
  predicate Publishes(rows: map<Job, Status>, job: Job, w: PublishFaults) {
    !w.findFails && !Blocked(rows, job) && w.save == Stored && w.confirmed
  }

  lemma RouteDeeds(s: State, job: Job, w: PublishFaults, other: Job)
    requires s.runner.BetweenRoutes?
    ensures Count(RouteSteps(s, job, w).deeds, Published(other))
            == Count(s.deeds, Published(other)) + (if other == job && Publishes(s.rows, job, w) then 1 else 0)
  {
    OneMoreDeed(s.deeds, Published(job));
    OneMoreDeed(s.deeds, MarkedDead(job));
    OneMoreDeed(s.deeds + [Published(job)], QueuedMarkLost(job));
  }

  /** The outcome of a publishRoute call, and the rows it leaves. */
  function RouteResult(rows: map<Job, Status>, job: Job, w: PublishFaults): PublishResult {
    if w.findFails then Error
    else if Blocked(rows, job) then Skipped
    else if w.save == Stored && w.confirmed && w.mark == Stored then QueuedJob
    else Error
  }

  function RouteRows(rows: map<Job, Status>, job: Job, w: PublishFaults): map<Job, Status> {
    if w.findFails || Blocked(rows, job) then rows
    else
      var received := Written(rows, job, Received, w.save);
      if w.save != Stored then received else Written(received, job, if w.confirmed then Queued else Dead, w.mark)
  }

  lemma RouteStepsKeepRows(s: State, job: Job, w: PublishFaults)
    requires s.runner.BetweenRoutes?
    ensures RouteSteps(s, job, w).rows == RouteRows(s.rows, job, w)
    ensures RouteSteps(s, job, w).runner == if RouteResult(s.rows, job, w) == Error then Unlocked else BetweenRoutes
  {
  }

  /** How often a job was published. */
  ghost function Times(published: seq<(Job, int)>, job: Job): nat {
    if published == [] then 0
    else Times(published[..|published| - 1], job) + (if published[|published| - 1].0 == job then 1 else 0)
  }

  lemma OneMoreTime(published: seq<(Job, int)>, job: Job, priority: int, other: Job)
    ensures Times(published + [(job, priority)], other) == Times(published, other) + (if other == job then 1 else 0)
  {
    assert (published + [(job, priority)])[..|published|] == published;
  }

  /** The published jobs stay the counted ones. */
  lemma PublishedTogether(published: seq<(Job, int)>, s: State, job: Job, priority: int, w: PublishFaults)
    requires s.runner.BetweenRoutes? && forall other :: Times(published, other) == Count(s.deeds, Published(other))
    ensures var after := published + (if Publishes(s.rows, job, w) then [(job, priority)] else []);
            forall other :: Times(after, other) == Count(RouteSteps(s, job, w).deeds, Published(other))
  {
    var after := published + (if Publishes(s.rows, job, w) then [(job, priority)] else []);
    assert published + [] == published;
    forall other ensures Times(after, other) == Count(RouteSteps(s, job, w).deeds, Published(other)) {
      RouteDeeds(s, job, w, other);
      OneMoreTime(published, job, priority, other);
    }
  }

  datatype Tally = Tally(queued: nat, existing: nat, notInOrbit: nat, top: nat, normal: nat)

  /** Counts that add up to the candidates seen. */
  predicate Adds(t: Tally, seen: nat) {
    t.queued + t.existing + t.notInOrbit == seen && t.top + t.normal == t.queued + t.existing
  }

  /** The counters after one more candidate. */
  function Counting(t: Tally, offer: Option<int>, result: PublishResult): Tally {
    if offer.None? then t.(notInOrbit := t.notInOrbit + 1)
    else
      var matched := if offer.value == 9 then t.(top := t.top + 1) else t.(normal := t.normal + 1);
      if result == Skipped then matched.(existing := matched.existing + 1)
      else if result == QueuedJob then matched.(queued := matched.queued + 1)
      else matched
  }

  /** The first jobs are counted by their places; those that Orbit offers were queued or had been before. */
  ghost predicate Tallies(t: Tally, jobs: seq<Job>, first: nat, routes: map<string, OrbitRoutes>)
    requires first <= |jobs|
  {
    && t.top == Among(jobs, first, routes, Top) && t.normal == Among(jobs, first, routes, Normal)
    && t.notInOrbit == Among(jobs, first, routes, Elsewhere)
    && t.queued + t.existing == t.top + t.normal
  }

  lemma OneMoreCounted(t: Tally, jobs: seq<Job>, i: nat, routes: map<string, OrbitRoutes>, result: PublishResult)
    requires i < |jobs| && Tallies(t, jobs, i, routes)
    requires result == NotInOrbit <==> Offer(routes, jobs[i]).None?
    requires result != Error
    ensures var after := Counting(t, Offer(routes, jobs[i]), result);
            && Tallies(after, jobs, i + 1, routes)
            && after.queued == t.queued + if result == QueuedJob then 1 else 0
  {
  }

  lemma {:induction false} EveryJobHasAPlace(jobs: seq<Job>, first: nat, routes: map<string, OrbitRoutes>)
    requires first <= |jobs|
    ensures Among(jobs, first, routes, Top) + Among(jobs, first, routes, Normal)
            + Among(jobs, first, routes, Elsewhere) == first
  {
    if first > 0 {
      EveryJobHasAPlace(jobs, first - 1, routes);
    }
  }

  lemma TalliesAdd(t: Tally, jobs: seq<Job>, routes: map<string, OrbitRoutes>)
    requires Tallies(t, jobs, |jobs|, routes)
    ensures Adds(t, |jobs|)
  {
    EveryJobHasAPlace(jobs, |jobs|, routes);
  }

  function Sum(a: Tally, b: Tally): Tally {
    Tally(a.queued + b.queued, a.existing + b.existing, a.notInOrbit + b.notInOrbit, a.top + b.top, a.normal + b.normal)
  }

  datatype RunResult = AlreadyRunning | RunFailed | RunDone

  /** The keys of the candidates of some operators. */
  ghost function KeysOfOperators(pairs: map<string, Job>, operators: set<string>): set<string> {
    set key | key in pairs && pairs[key].operator in operators
  }

  lemma OneMoreOperator(pairs: map<string, Job>, groups: map<string, seq<Job>>, operators: set<string>, o: string)
    requires Grouped(groups, pairs, pairs.Keys) && o in groups && o !in operators
    ensures |KeysOfOperators(pairs, operators + {o})| == |KeysOfOperators(pairs, operators)| + |groups[o]|
  {
    var before, own := KeysOfOperators(pairs, operators), OperatorKeys(pairs, pairs.Keys, o);
    assert KeysOfOperators(pairs, operators + {o}) == before + own;
    assert before !! own;
  }

  /** Every operator once, in some order. */
  ghost predicate Enumerates(order: seq<string>, operators: set<string>) {
    && (forall o :: o in order <==> o in operators)
    && (forall i, j :: 0 <= i < j < |order| ==> order[i] != order[j])
  }

  /** The order a map happens to be walked in. */
  method SomeOrder(operators: set<string>) returns (order: seq<string>)
    ensures Enumerates(order, operators)
  {
    var left := operators;
    order := [];
    while left != {}
      invariant left <= operators && Enumerates(order, operators - left)
      decreases |left|
    {
      var o :| o in left;
      left, order := left - {o}, order + [o];
    }
  }

  function Candidates(groups: map<string, seq<Job>>, order: seq<string>): nat {
    if order == [] then 0
    else Candidates(groups, order[..|order| - 1]) + |GroupOf(groups, order[|order| - 1])|
  }

  lemma {:induction false} CandidatesAddUp(pairs: map<string, Job>, groups: map<string, seq<Job>>, order: seq<string>,
                                           operators: set<string>)
    requires Grouped(groups, pairs, pairs.Keys) && operators <= groups.Keys && Enumerates(order, operators)
    ensures Candidates(groups, order) == |KeysOfOperators(pairs, operators)|
  {
    if order == [] {
      assert operators == {};
      assert KeysOfOperators(pairs, operators) == {};
    } else {
      var front, last := order[..|order| - 1], order[|order| - 1];
      SplitLast(order);
      assert Enumerates(front, operators - {last});
      CandidatesAddUp(pairs, groups, front, operators - {last});
      OneMoreOperator(pairs, groups, operators - {last}, last);
      assert operators - {last} + {last} == operators;
    }
  }

  lemma AllCandidates(pairs: map<string, Job>, groups: map<string, seq<Job>>, order: seq<string>)
    requires Grouped(groups, pairs, pairs.Keys) && Enumerates(order, groups.Keys)
    ensures Candidates(groups, order) == |pairs|
  {
    CandidatesAddUp(pairs, groups, order, groups.Keys);
    assert KeysOfOperators(pairs, groups.Keys) == pairs.Keys;
  }

  /** Orbit still offers the job's route; the operators whose routes cannot be fetched are not in the map. */
  predicate Offered(orbit: map<string, map<string, OrbitRoutes>>, job: Job) {
    job.operator in orbit && Offer(orbit[job.operator], job).Some?
  }

  ghost predicate SomeMayFail(groups: map<string, seq<Job>>, order: seq<string>,
                              orbit: map<string, map<string, OrbitRoutes>>, faults: string -> nat -> PublishFaults)
  {
    exists o :: o in order && MayFail(o, GroupOf(groups, o), orbit, faults(o))
  }

  /** Orbit's routes of an operator cannot be fetched, or some step of one of so many candidates may fail. */
  ghost predicate Hindered(o: string, candidates: nat, orbit: map<string, map<string, OrbitRoutes>>,
                           faults: string -> nat -> PublishFaults)
  {
    o !in orbit || exists i: nat :: i < candidates && Faulty(faults(o)(i))
  }

  ghost predicate RunHindered(pairs: map<string, Job>, orbit: map<string, map<string, OrbitRoutes>>,
                              faults: string -> nat -> PublishFaults)
  {
    exists key :: key in pairs && Hindered(pairs[key].operator, |pairs|, orbit, faults)
  }

  lemma GroupHasACandidate(pairs: map<string, Job>, groups: map<string, seq<Job>>, o: string) returns (key: string)
    requires Grouped(groups, pairs, pairs.Keys) && o in groups
    ensures key in pairs && pairs[key].operator == o && |groups[o]| <= |pairs|
  {
    assert groups[o][0] in groups[o];
    key :| key in pairs && pairs[key] == groups[o][0];
    SubsetIsSmaller(OperatorKeys(pairs, pairs.Keys, o), pairs.Keys);
  }

  lemma FewerAreHindered(o: string, jobs: seq<Job>, candidates: nat, orbit: map<string, map<string, OrbitRoutes>>,
                         faults: string -> nat -> PublishFaults)
    requires MayFail(o, jobs, orbit, faults(o)) && |jobs| <= candidates
    ensures Hindered(o, candidates, orbit, faults)
  {
  }

  lemma HinderedGroup(pairs: map<string, Job>, groups: map<string, seq<Job>>, order: seq<string>,
                      orbit: map<string, map<string, OrbitRoutes>>, faults: string -> nat -> PublishFaults)
    requires Grouped(groups, pairs, pairs.Keys) && Enumerates(order, groups.Keys)
    requires SomeMayFail(groups, order, orbit, faults)
    ensures RunHindered(pairs, orbit, faults)
  {
    var o :| o in order && MayFail(o, GroupOf(groups, o), orbit, faults(o));
    var key := GroupHasACandidate(pairs, groups, o);
    FewerAreHindered(o, groups[o], |pairs|, orbit, faults);
    assert key in pairs && Hindered(pairs[key].operator, |pairs|, orbit, faults);
  }

  lemma SubsetIsSmaller(a: set<string>, b: set<string>)
    requires a <= b
    ensures |a| <= |b|
  {
    assert b == a + (b - a);
  }

  /** Every candidate of one operator that Orbit offers is QUEUED or COMPLETED. */
  ghost predicate GroupSettled(rows: map<Job, Status>, jobs: seq<Job>, routes: map<string, OrbitRoutes>) {
    forall job :: job in jobs && Offer(routes, job).Some? ==> Blocked(rows, job)
  }

  /** The same of several operators. */
  ghost predicate OperatorsSettled(rows: map<Job, Status>, groups: map<string, seq<Job>>, order: seq<string>,
                          orbit: map<string, map<string, OrbitRoutes>>)
  {
    forall o :: o in order ==> o in orbit && GroupSettled(rows, GroupOf(groups, o), orbit[o])
  }

  /** Jobs published by one run, each with the priority Orbit gives its route. */
  ghost predicate OfferedJobs(published: seq<(Job, int)>, jobs: seq<Job>, routes: map<string, OrbitRoutes>) {
    forall p :: p in published ==> p.0 in jobs && Offer(routes, p.0) == Some(p.1)
  }

  /** The operator's top routes, and its other routes. */
  ghost predicate TopRoute(orbit: map<string, map<string, OrbitRoutes>>, job: Job) {
    job.operator in orbit && job.from in orbit[job.operator] && job.to in orbit[job.operator][job.from].top
  }

  ghost predicate NormalRoute(orbit: map<string, map<string, OrbitRoutes>>, job: Job) {
    job.operator in orbit && job.from in orbit[job.operator] && job.to in orbit[job.operator][job.from].normal
  }

  /** Published candidates, each with the priority Orbit gives its route. */
  ghost predicate FromCandidates(published: seq<(Job, int)>, pairs: map<string, Job>,
                                 orbit: map<string, map<string, OrbitRoutes>>) {
    forall p :: p in published ==>
      p.0 in pairs.Values && p.0.operator in orbit && Offer(orbit[p.0.operator], p.0) == Some(p.1)
  }

  lemma GroupIsOfCandidates(published: seq<(Job, int)>, pairs: map<string, Job>, groups: map<string, seq<Job>>,
                            o: string, orbit: map<string, map<string, OrbitRoutes>>)
    requires Grouped(groups, pairs, pairs.Keys) && o in orbit
    requires OfferedJobs(published, GroupOf(groups, o), orbit[o])
    ensures FromCandidates(published, pairs, orbit)
  {
  }

  /**
   * Every published job is that of a stale row of an active operator, of today or the seven days after,
   * with both its ends; a top route goes out with priority 9, any other that Orbit offers with 8.
   */
  ghost predicate WellPublished(published: seq<(Job, int)>, rows: seq<StaleRow>, active: set<string>, today: int,
                                orbit: map<string, map<string, OrbitRoutes>>) {
    forall p :: p in published ==>
      && (exists r :: r in rows && IsAbout(p.0, r) && r.day.Some? && 0 <= r.day.value - today <= 7)
      && p.0.operator in active && p.0.from != "" && p.0.to != ""
      && (if TopRoute(orbit, p.0) then p.1 == 9 else NormalRoute(orbit, p.0) && p.1 == 8)
  }

  lemma CandidatesAreWellPublished(published: seq<(Job, int)>, pairs: map<string, Job>, rows: seq<StaleRow>,
                                   active: set<string>, today: int, orbit: map<string, map<string, OrbitRoutes>>)
    requires NewestPerKey(pairs, rows, active, today) && FromCandidates(published, pairs, orbit)
    ensures WellPublished(published, rows, active, today, orbit)
  {
    forall p | p in published
      ensures exists r :: r in rows && IsAbout(p.0, r) && Eligible(r, active, today)
    {
      var key :| key in pairs && pairs[key] == p.0;
    }
  }

  /** Orbit's top routes are delivered ahead of all others a run publishes. */
  lemma TopRoutesGoFirst(published: seq<(Job, int)>, pairs: map<string, Job>,
                         orbit: map<string, map<string, OrbitRoutes>>, p: (Job, int), q: (Job, int))
    requires FromCandidates(published, pairs, orbit) && p in published && q in published
    ensures TopRoute(orbit, p.0) || NormalRoute(orbit, p.0)
    ensures p.1 > q.1 <==> TopRoute(orbit, p.0) && !TopRoute(orbit, q.0)
  {
    assert Offer(orbit[p.0.operator], p.0) == Some(p.1) && Offer(orbit[q.0.operator], q.0) == Some(q.1);
  }

  lemma SettledGrows(before: map<Job, Status>, after: map<Job, Status>, groups: map<string, seq<Job>>,
                     order: seq<string>, o: string, orbit: map<string, map<string, OrbitRoutes>>)
    requires OperatorsSettled(before, groups, order, orbit)
    requires forall job :: Blocked(before, job) ==> Blocked(after, job)
    requires o in orbit && GroupSettled(after, GroupOf(groups, o), orbit[o])
    ensures OperatorsSettled(after, groups, order + [o], orbit)
  {
  }

  /** Then every candidate that Orbit offers is QUEUED or COMPLETED. */
  lemma AllSettled(rows: map<Job, Status>, pairs: map<string, Job>, groups: map<string, seq<Job>>, order: seq<string>,
                   orbit: map<string, map<string, OrbitRoutes>>)
    requires Grouped(groups, pairs, pairs.Keys) && Enumerates(order, groups.Keys)
    requires OperatorsSettled(rows, groups, order, orbit)
    ensures forall key :: key in pairs && Offered(orbit, pairs[key]) ==> Blocked(rows, pairs[key])
  {
  }

  /** Every candidate was counted once, as many published as queued, and what Orbit offers is QUEUED or COMPLETED. */
  ghost predicate CarriedOut(rows: map<Job, Status>, pairs: map<string, Job>,
                             orbit: map<string, map<string, OrbitRoutes>>, tally: Tally, publishes: nat)
  {
    && Adds(tally, |pairs|) && publishes == tally.queued
    && forall key :: key in pairs && Offered(orbit, pairs[key]) ==> Blocked(rows, pairs[key])
  }

  /** The service between Worker callbacks: rows and lock are those of the publish protocol. */
  class OrbitRouteRefreshService {
    var rows: map<Job, Status>
    var locked: bool
    var published: seq<(Job, int)>
    ghost var state: State

    ghost predicate Valid()
      reads this
    {
      && rows == state.rows && (locked <==> !state.runner.Unlocked?)
      && Reaches(INITIAL, state)
      && forall job :: Times(published, job) == Count(state.deeds, Published(job))
    }

    constructor ()
      ensures Valid() && rows == map[] && !locked && published == [] && state == INITIAL
    {
      rows, locked, published, state := map[], false, [], INITIAL;
      ReachesItself(INITIAL);
    }

    /** Whatever runs and callbacks a service has been through, its publishes keep the bound of the protocol. */
    lemma PublishedJobsAreBounded(job: Job)
      requires Valid()
      ensures Times(published, job) <= 1 + Count(state.deeds, MarkedDead(job)) + Count(state.deeds, QueuedMarkLost(job))
    {
      var events :| state == RunFrom(INITIAL, events);
      PublishesAreBounded(events, job);
    }

    /** A Worker callback marks a job COMPLETED or DEAD. */
    method ReceiveCallback(job: Job, dead: bool, outcome: Outcome)
      requires Valid()
      modifies this`rows, this`state
      ensures Valid() && state == Step(old(state), Callback(job, dead, outcome))
    {
      ReachesByOne(state, Callback(job, dead, outcome));
      ReachesOn(INITIAL, state, Step(state, Callback(job, dead, outcome)));
      OneMoreDeed(state.deeds, MarkedDead(job));
      rows := Written(rows, job, if dead then Dead else Completed, outcome);
      state := Step(state, Callback(job, dead, outcome));
    }

    /** publishRoute, as far as rows, broker and lock go. */
    method PublishSteps(job: Job, priority: int, w: PublishFaults) returns (result: PublishResult)
      modifies this`rows, this`published, this`locked
      ensures result == RouteResult(old(rows), job, w) && rows == RouteRows(old(rows), job, w)
      ensures published == old(published) + (if Publishes(old(rows), job, w) then [(job, priority)] else [])
      ensures locked == (old(locked) && result != Error)
    {
      assert published + [] == published;
      if w.findFails {
        locked := false;
        return Error;
      }
      if job in rows && (rows[job] == Queued || rows[job] == Completed) {
        return Skipped;
      }
      rows := Written(rows, job, Received, w.save);
      if w.save != Stored {
        locked := false;
        return Error;
      }
      if !w.confirmed {
        rows := Written(rows, job, Dead, w.mark);
        locked := false;
        return Error;
      }
      published := published + [(job, priority)];
      rows := Written(rows, job, Queued, w.mark);
      if w.mark != Stored {
        locked := false;
        return Error;
      }
      result := QueuedJob;
    }

    /** publishRoute: a run of the protocol; it queues exactly a job that is not blocked and meets no fault. */
    method PublishRoute(job: Job, priority: int, w: PublishFaults) returns (result: PublishResult)
      requires Valid() && state.runner.BetweenRoutes?
      modifies this
      ensures Valid() && state == RouteSteps(old(state), job, w) && Reaches(old(state), state)
      ensures if result == Error then state.runner.Unlocked? else state.runner.BetweenRoutes?
      ensures result == Skipped <==> !w.findFails && Blocked(old(rows), job)
      ensures result == QueuedJob <==>
                !w.findFails && !Blocked(old(rows), job) && w.save == Stored && w.confirmed && w.mark == Stored
      ensures result == Skipped ==> rows == old(rows)
      ensures result == QueuedJob ==> Blocked(rows, job)
      ensures published == old(published) + (if Publishes(old(rows), job, w) then [(job, priority)] else [])
      ensures result != NotInOrbit
      ensures forall other :: other != job ==> (Blocked(rows, other) <==> Blocked(old(rows), other))
      ensures Blocked(old(rows), job) ==> Blocked(rows, job)
    {
      RouteStepsAreARun(state, job, w);
      RouteStepsKeepRows(state, job, w);
      ReachesOn(INITIAL, state, RouteSteps(state, job, w));
      PublishedTogether(published, state, job, priority, w);
      result := PublishSteps(job, priority, w);
      state := RouteSteps(state, job, w);
    }

    /** One candidate of the route loop. */
    method PublishIfOffered(job: Job, routes: map<string, OrbitRoutes>, w: PublishFaults)
      returns (result: PublishResult, ghost added: seq<(Job, int)>)
      requires Valid() && state.runner.BetweenRoutes?
      modifies this
      ensures Valid()
      ensures if result == Error then state.runner.Unlocked? else state.runner.BetweenRoutes?
      ensures Reaches(old(state), state)
      ensures result == NotInOrbit <==> Offer(routes, job).None?
      ensures result == Error ==> Faulty(w)
      ensures published == old(published) + added && OfferedJobs(added, [job], routes)
      ensures result != Error ==> |added| == if result == QueuedJob then 1 else 0
      ensures result != Error && result != NotInOrbit ==> Blocked(rows, job)
      ensures forall other :: Blocked(old(rows), other) ==> Blocked(rows, other)
    {
      added := [];
      ReachesItself(state);
      var offer := Offer(routes, job);
      if offer.None? {
        return NotInOrbit, added;
      }
      result := PublishRoute(job, offer.value, w);
      added := published[|old(published)|..];
    }

    /** The next candidate of the route loop, counted. */
    method PublishNext(jobs: seq<Job>, i: nat, routes: map<string, OrbitRoutes>, w: PublishFaults, tally: Tally)
      returns (ok: bool, next: Tally, ghost added: seq<(Job, int)>)
      requires i < |jobs| && Tallies(tally, jobs, i, routes)
      requires Valid() && state.runner.BetweenRoutes?
      modifies this
      ensures Valid() && Reaches(old(state), state)
      ensures if ok then state.runner.BetweenRoutes? else state.runner.Unlocked?
      ensures published == old(published) + added && OfferedJobs(added, [jobs[i]], routes)
      ensures ok ==> Tallies(next, jobs, i + 1, routes) && next.queued == tally.queued + |added|
      ensures ok && Offer(routes, jobs[i]).Some? ==> Blocked(rows, jobs[i])
      ensures !ok ==> Faulty(w)
      ensures forall other :: Blocked(old(rows), other) ==> Blocked(rows, other)
    {
      var result;
      result, added := PublishIfOffered(jobs[i], routes, w);
      if result == Error {
        return false, tally, added;
      }
      OneMoreCounted(tally, jobs, i, routes, result);
      return true, Counting(tally, Offer(routes, jobs[i]), result), added;
    }

    /**
     * The route loop of one operator: without an error every candidate is counted once, every offered
     * one is QUEUED or COMPLETED afterwards, and exactly those counted as queued were published.
     */
    method PublishOffered(jobs: seq<Job>, routes: map<string, OrbitRoutes>, faults: nat -> PublishFaults)
      returns (tally: Tally, ok: bool, ghost added: seq<(Job, int)>)
      requires Valid() && state.runner.BetweenRoutes?
      modifies this
      ensures Valid()
      ensures if ok then state.runner.BetweenRoutes? else state.runner.Unlocked?
      ensures Reaches(old(state), state)
      ensures published == old(published) + added && OfferedJobs(added, jobs, routes)
      ensures ok ==> Tallies(tally, jobs, |jobs|, routes) && |added| == tally.queued
      ensures ok ==> forall job :: job in jobs && Offer(routes, job).Some? ==> Blocked(rows, job)
      ensures !ok ==> exists i :: 0 <= i < |jobs| && Faulty(faults(i))
      ensures forall other :: Blocked(old(rows), other) ==> Blocked(rows, other)
    {
      tally, added := Tally(0, 0, 0, 0, 0), [];
      ReachesItself(state);
      for i := 0 to |jobs|
        invariant Reaches(old(state), state)
        invariant Valid() && state.runner.BetweenRoutes?
        invariant Tallies(tally, jobs, i, routes) && |added| == tally.queued
        invariant published == old(published) + added && OfferedJobs(added, jobs, routes)
        invariant forall k :: 0 <= k < i && Offer(routes, jobs[k]).Some? ==> Blocked(rows, jobs[k])
        invariant forall other :: Blocked(old(rows), other) ==> Blocked(rows, other)
      {
        ghost var more;
        ghost var before := state;
        ok, tally, more := PublishNext(jobs, i, routes, faults(i), tally);
        ReachesOn(old(state), before, state);
        AppendIsAssociative(old(published), added, more);
        added := added + more;
        if !ok {
          return;
        }
      }
      ok := true;
    }

    /** The loop over the operators: the lock stays taken unless a publish failed. */
    method PublishGroups(groups: map<string, seq<Job>>, order: seq<string>,
                         orbit: map<string, map<string, OrbitRoutes>>, faults: string -> nat -> PublishFaults,
                         ghost pairs: map<string, Job>)
      returns (ok: bool, tally: Tally, ghost added: seq<(Job, int)>)
      requires Grouped(groups, pairs, pairs.Keys)
      requires Valid() && state.runner.BetweenRoutes?
      modifies this
      ensures Valid() && Reaches(old(state), state)
      ensures state.runner.BetweenRoutes? || (!ok && state.runner.Unlocked?)
      ensures published == old(published) + added && FromCandidates(added, pairs, orbit)
      ensures ok ==> Adds(tally, Candidates(groups, order)) && |added| == tally.queued
      ensures ok ==> OperatorsSettled(rows, groups, order, orbit)
      ensures !ok ==> SomeMayFail(groups, order, orbit, faults)
    {
      tally, added := Tally(0, 0, 0, 0, 0), [];
      ReachesItself(state);
      for g := 0 to |order|
        invariant Valid() && state.runner.BetweenRoutes? && Reaches(old(state), state)
        invariant Adds(tally, Candidates(groups, order[..g])) && |added| == tally.queued
        invariant published == old(published) + added && FromCandidates(added, pairs, orbit)
        invariant OperatorsSettled(rows, groups, order[..g], orbit)
      {
        ghost var before, earlier := state, rows;
        var own;
        ghost var more;
        ok, own, more := PublishGroup(order[g], GroupOf(groups, order[g]), orbit, faults(order[g]));
        ReachesOn(old(state), before, state);
        AppendIsAssociative(old(published), added, more);
        if order[g] in orbit {
          GroupIsOfCandidates(more, pairs, groups, order[g], orbit);
        }
        added := added + more;
        if !ok {
          assert order[g] in order;
          return false, tally, added;
        }
        TakeOneMore(order, g);
        SettledGrows(earlier, rows, groups, order[..g], order[g], orbit);
        tally := Sum(tally, own);
      }
      assert order[..|order|] == order;
      ok := true;
    }

    /** One operator: its Orbit routes, then its candidates. */
    method PublishGroup(o: string, jobs: seq<Job>, orbit: map<string, map<string, OrbitRoutes>>,
                        faults: nat -> PublishFaults)
      returns (ok: bool, tally: Tally, ghost added: seq<(Job, int)>)
      requires Valid() && state.runner.BetweenRoutes?
      modifies this
      ensures Valid() && Reaches(old(state), state)
      ensures state.runner.BetweenRoutes? || (!ok && state.runner.Unlocked?)
      ensures published == old(published) + added
      ensures if o in orbit then OfferedJobs(added, jobs, orbit[o]) else added == []
      ensures ok ==> o in orbit && Adds(tally, |jobs|) && |added| == tally.queued
      ensures ok ==> GroupSettled(rows, jobs, orbit[o])
      ensures !ok ==> MayFail(o, jobs, orbit, faults)
      ensures forall job :: Blocked(old(rows), job) ==> Blocked(rows, job)
    {
      if o !in orbit {
        ReachesItself(state);
        return false, Tally(0, 0, 0, 0, 0), [];
      }
      tally, ok, added := PublishOffered(jobs, orbit[o], faults);
      if ok {
        TalliesAdd(tally, jobs, orbit[o]);
      }
    }

    /** TryLock, when it succeeds. */
    method TakeLock()
      requires Valid() && !locked
      modifies this`locked, this`state
      ensures Valid() && state.runner.BetweenRoutes? && Reaches(old(state), state)
    {
      ReachesByOne(state, BeginRun);
      ReachesOn(INITIAL, state, Step(state, BeginRun));
      locked, state := true, Step(state, BeginRun);
    }

    /** The deferred Unlock. */
    method ReleaseLock(ghost start: State)
      requires Valid() && state.runner.BetweenRoutes? && Reaches(start, state)
      modifies this`locked, this`state
      ensures Valid() && !locked && Reaches(start, state)
    {
      ReachesByOne(state, EndRun);
      ReachesOn(INITIAL, state, Step(state, EndRun));
      ReachesOn(start, state, Step(state, EndRun));
      locked, state := false, Step(state, EndRun);
    }

    /** The candidates of a run, grouped by operator and published: the part of Run that the lock protects. */
    method Refresh(rows: seq<StaleRow>, active: set<string>, today: int,
                   orbit: map<string, map<string, OrbitRoutes>>, faults: string -> nat -> PublishFaults)
      returns (ok: bool, tally: Tally, ghost added: seq<(Job, int)>, ghost pairs: map<string, Job>)
      requires Valid() && state.runner.BetweenRoutes?
      modifies this
      ensures Valid() && Reaches(old(state), state)
      ensures state.runner.BetweenRoutes? || (!ok && state.runner.Unlocked?)
      ensures published == old(published) + added && WellPublished(added, rows, active, today, orbit)
      ensures NewestPerKey(pairs, rows, active, today)
      ensures if ok then CarriedOut(this.rows, pairs, orbit, tally, |added|) else RunHindered(pairs, orbit, faults)
    {
      var candidates := FutureRoutePairs(rows, active, today);
      var groups := GroupByOperator(candidates);
      var order := SomeOrder(groups.Keys);
      pairs := candidates;
      ok, tally, added := PublishGroups(groups, order, orbit, faults, pairs);
      CandidatesAreWellPublished(added, pairs, rows, active, today, orbit);
      if ok {
        AllCandidates(pairs, groups, order);
        AllSettled(this.rows, pairs, groups, order, orbit);
      } else {
        HinderedGroup(pairs, groups, order, orbit, faults);
      }
    }

    /**
     * Run: a second run is turned away by the lock; otherwise the lock is given back on every way out, and
     * after a run without errors every candidate was counted once, and the newest eligible row of every key
     * that Orbit still offers is QUEUED or COMPLETED.
     */
    method Run(stale: Option<seq<StaleRow>>, active: set<string>, today: int,
               orbit: map<string, map<string, OrbitRoutes>>, faults: string -> nat -> PublishFaults)
      returns (result: RunResult, tally: Tally, ghost added: seq<(Job, int)>, ghost pairs: map<string, Job>)
      requires Valid()
      modifies this
      ensures Valid()
      ensures result == AlreadyRunning <==> old(locked)
      ensures result == AlreadyRunning ==> state == old(state) && added == []
      ensures Reaches(old(state), state)
      ensures result != AlreadyRunning ==> !locked
      ensures published == old(published) + added
      ensures if stale.Some? then WellPublished(added, stale.value, active, today, orbit) else added == []
      ensures result != AlreadyRunning && stale.Some? ==> NewestPerKey(pairs, stale.value, active, today)
      ensures result == RunFailed ==> stale.None? || RunHindered(pairs, orbit, faults)
      ensures result == RunDone ==> stale.Some? && CarriedOut(rows, pairs, orbit, tally, |added|)
    {
      assert published + [] == published;
      tally, added, pairs := Tally(0, 0, 0, 0, 0), [], map[];
      ReachesItself(state);
      if locked {
        return AlreadyRunning, tally, added, pairs;
      }
      TakeLock();
      if stale.None? {
        ReleaseLock(old(state));
        return RunFailed, tally, added, pairs;
      }
      ghost var before := state;
      var ok;
      ok, tally, added, pairs := Refresh(stale.value, active, today, orbit, faults);
      ReachesOn(old(state), before, state);
      if locked {
        ReleaseLock(old(state));
      }
      result := if ok then RunDone else RunFailed;
    }
  }
}
