/** Periodic route jobs: one runner publishing, Worker callbacks, and row writes that may fail. */
module PublishProtocol {
  import opened Wrappers
  import opened Storage

  /**
   * A periodic job. Its reference ID is a hash of exactly these fields, taken to be injective; the
   * timestamp is that of the route's metadata, so refreshed metadata makes a new job.
   */
  datatype Job = Job(operator: string, date: string, from: string, to: string, updatedAt: int)

  datatype Status = Received | Queued | Completed | Dead

  /** publishRoute skips a job whose row is QUEUED or COMPLETED. */
  predicate Blocked(rows: map<Job, Status>, job: Job) {
    job in rows && (rows[job] == Queued || rows[job] == Completed)
  }

  /** Where the runner stands. Only one holds the lock; the last four are inside publishRoute. */
  datatype Runner =
    | Unlocked
    | BetweenRoutes
    | Found(job: Job)
    | Saved(job: Job)
    | Unconfirmed(job: Job)
    | Confirmed(job: Job)

  /** What the bound counts: confirmed publishes, applied DEAD marks, and QUEUED marks lost after a publish. */
  datatype Deed = Published(job: Job) | MarkedDead(job: Job) | QueuedMarkLost(job: Job)

  datatype State = State(runner: Runner, rows: map<Job, Status>, deeds: seq<Deed>)

  const INITIAL := State(Unlocked, map[], [])

  datatype Event =
    | BeginRun
    | Find(job: Job, fails: bool)
    | SaveReceived(outcome: Outcome)
    | Publish(confirmed: bool)
    | Mark(outcome: Outcome)
    | EndRun
    | Crash
    | Callback(job: Job, dead: bool, outcome: Outcome)

  function Written(rows: map<Job, Status>, job: Job, status: Status, outcome: Outcome): map<Job, Status> {
    if outcome == Lost then rows else rows[job := status]
  }

  function Counted(deeds: seq<Deed>, happened: bool, deed: Deed): seq<Deed> {
    if happened then deeds + [deed] else deeds
  }

  /** One event; an event that cannot happen now changes nothing. A second BeginRun fails to get the lock. */
  function Step(s: State, e: Event): State {
    match e
    case BeginRun => if s.runner.Unlocked? then s.(runner := BetweenRoutes) else s
    case Find(job, fails) =>
      if !s.runner.BetweenRoutes? then s
      else if fails then s.(runner := Unlocked)
      else if Blocked(s.rows, job) then s
      else s.(runner := Found(job))
    case SaveReceived(outcome) =>
      if !s.runner.Found? then s
      else s.(runner := if outcome == Stored then Saved(s.runner.job) else Unlocked,
              rows := Written(s.rows, s.runner.job, Received, outcome))
    case Publish(confirmed) =>
      if !s.runner.Saved? then s
      else s.(runner := if confirmed then Confirmed(s.runner.job) else Unconfirmed(s.runner.job),
              deeds := Counted(s.deeds, confirmed, Published(s.runner.job)))
    case Mark(outcome) =>
      (match s.runner
      case Unconfirmed(job) =>
        State(Unlocked, Written(s.rows, job, Dead, outcome), Counted(s.deeds, outcome != Lost, MarkedDead(job)))
      case Confirmed(job) =>
        State(if outcome == Stored then BetweenRoutes else Unlocked, Written(s.rows, job, Queued, outcome),
              Counted(s.deeds, outcome == Lost, QueuedMarkLost(job)))
      case _ => s)
    case EndRun => if s.runner.BetweenRoutes? then s.(runner := Unlocked) else s
    case Crash =>
      if s.runner.Confirmed? then s.(runner := Unlocked, deeds := s.deeds + [QueuedMarkLost(s.runner.job)])
      else s.(runner := Unlocked)
    case Callback(job, dead, outcome) =>
      s.(rows := Written(s.rows, job, if dead then Dead else Completed, outcome),
         deeds := Counted(s.deeds, dead && outcome != Lost, MarkedDead(job)))
  }

  function RunFrom(s: State, events: seq<Event>): State {
    if events == [] then s else Step(RunFrom(s, events[..|events| - 1]), events[|events| - 1])
  }

  function Run(events: seq<Event>): State {
    RunFrom(INITIAL, events)
  }

  function Count(deeds: seq<Deed>, deed: Deed): nat {
    if deeds == [] then 0
    else Count(deeds[..|deeds| - 1], deed) + (if deeds[|deeds| - 1] == deed then 1 else 0)
  }

  lemma OneMoreDeed(deeds: seq<Deed>, last: Deed)
    ensures forall deed :: Count(deeds + [last], deed) == Count(deeds, deed) + (if last == deed then 1 else 0)
  {
    assert (deeds + [last])[..|deeds|] == deeds;
  }

  /** Whether one publish more than the excused ones may have happened so far. */
  predicate OneOpen(s: State, job: Job) {
    if s.runner.Found? || s.runner.Saved? || s.runner.Unconfirmed? then s.runner.job != job && Blocked(s.rows, job)
    else s.runner == Confirmed(job) || Blocked(s.rows, job)
  }

  /** Publishes are excused by DEAD marks and lost QUEUED marks, except for at most one still open. */
  predicate Excused(s: State, job: Job) {
    Count(s.deeds, Published(job))
    <= Count(s.deeds, MarkedDead(job)) + Count(s.deeds, QueuedMarkLost(job)) + (if OneOpen(s, job) then 1 else 0)
  }

  lemma PublishKeepsExcused(s: State, confirmed: bool, job: Job)
    requires Excused(s, job)
    ensures Excused(Step(s, Publish(confirmed)), job)
  {
    if s.runner.Saved? && confirmed {
      OneMoreDeed(s.deeds, Published(s.runner.job));
    }
  }

  lemma DeadMarkKeepsExcused(s: State, outcome: Outcome, job: Job)
    requires Excused(s, job) && s.runner.Unconfirmed?
    ensures Excused(Step(s, Mark(outcome)), job)
  {
    OneMoreDeed(s.deeds, MarkedDead(s.runner.job));
  }

  lemma QueuedMarkKeepsExcused(s: State, outcome: Outcome, job: Job)
    requires Excused(s, job) && s.runner.Confirmed?
    ensures Excused(Step(s, Mark(outcome)), job)
  {
    OneMoreDeed(s.deeds, QueuedMarkLost(s.runner.job));
  }

  lemma CrashKeepsExcused(s: State, job: Job)
    requires Excused(s, job)
    ensures Excused(Step(s, Crash), job)
  {
    if s.runner.Confirmed? {
      OneMoreDeed(s.deeds, QueuedMarkLost(s.runner.job));
    }
  }

  lemma CallbackKeepsExcused(s: State, own: Job, dead: bool, outcome: Outcome, job: Job)
    requires Excused(s, job)
    ensures Excused(Step(s, Callback(own, dead, outcome)), job)
  {
    OneMoreDeed(s.deeds, MarkedDead(own));
  }

  lemma StepKeepsExcused(s: State, e: Event, job: Job)
    requires Excused(s, job)
    ensures Excused(Step(s, e), job)
  {
    match e
    case Publish(confirmed) => PublishKeepsExcused(s, confirmed, job);
    case Mark(outcome) =>
      if s.runner.Unconfirmed? {
        DeadMarkKeepsExcused(s, outcome, job);
      } else if s.runner.Confirmed? {
        QueuedMarkKeepsExcused(s, outcome, job);
      }
    case Crash => CrashKeepsExcused(s, job);
    case Callback(own, dead, outcome) => CallbackKeepsExcused(s, own, dead, outcome, job);
    case BeginRun =>
    case Find(_, _) =>
    case SaveReceived(_) =>
    case EndRun =>
  }

  lemma {:induction false} EveryRunIsExcused(events: seq<Event>, job: Job)
    ensures Excused(Run(events), job)
  {
    if events != [] {
      EveryRunIsExcused(events[..|events| - 1], job);
      StepKeepsExcused(Run(events[..|events| - 1]), events[|events| - 1], job);
    }
  }

  /**
   * Over any interleaving of runs, crashes, callbacks and failing writes, a job is published at most
   * once, plus once for every time it was marked DEAD or its QUEUED mark was lost.
   */
  lemma PublishesAreBounded(events: seq<Event>, job: Job)
    ensures var deeds := Run(events).deeds;
            Count(deeds, Published(job)) <= 1 + Count(deeds, MarkedDead(job)) + Count(deeds, QueuedMarkLost(job))
  {
    EveryRunIsExcused(events, job);
  }

  // ---------- the bound is exact ----------

  /** One undisturbed publication of a job, from the middle of a run. */
  function Cycle(job: Job): seq<Event> {
    [Find(job, false), SaveReceived(Stored), Publish(true), Mark(Stored)]
  }

  lemma {:induction false} RunGoesOn(s: State, events: seq<Event>, more: seq<Event>)
    ensures RunFrom(s, events + more) == RunFrom(RunFrom(s, events), more)
  {
    if more == [] {
      assert events + more == events;
    } else {
      var front, last := more[..|more| - 1], more[|more| - 1];
      SplitLast(more);
      AppendIsAssociative(events, front, [last]);
      assert (events + more)[..|events + more| - 1] == events + front;
      RunGoesOn(s, events, front);
    }
  }

  /** Some run of the protocol leads from one state to the other. */
  ghost predicate Reaches(s: State, t: State) {
    exists events :: t == RunFrom(s, events)
  }

  lemma ReachesItself(s: State)
    ensures Reaches(s, s)
  {
    assert s == RunFrom(s, []);
  }

  lemma ReachesOn(s: State, t: State, u: State)
    requires Reaches(s, t) && Reaches(t, u)
    ensures Reaches(s, u)
  {
    var events :| t == RunFrom(s, events);
    var more :| u == RunFrom(t, more);
    RunGoesOn(s, events, more);
  }

  lemma ReachesByOne(s: State, e: Event)
    ensures Reaches(s, Step(s, e))
  {
    RunOfOne(s, e);
  }

  lemma RunOfFour(s: State, a: Event, b: Event, c: Event, d: Event)
    ensures RunFrom(s, [a, b, c, d]) == Step(Step(Step(Step(s, a), b), c), d)
  {
    var events := [a, b, c, d];
    assert events[..1][..0] == [] && events[..2][..1] == events[..1] && events[..3][..2] == events[..2];
    assert RunFrom(s, events[..1]) == Step(s, a);
    assert RunFrom(s, events[..2]) == Step(RunFrom(s, events[..1]), b);
    assert RunFrom(s, events[..3]) == Step(RunFrom(s, events[..2]), c);
    assert events[..3] == events[..|events| - 1];
  }

  lemma RunOfOne(s: State, e: Event)
    ensures RunFrom(s, [e]) == Step(s, e)
  {
    assert [e][..0] == [];
  }

  /** A cycle publishes a job that is not blocked, once, and leaves its row QUEUED. */
  lemma CyclePublishes(s: State, job: Job)
    requires s.runner.BetweenRoutes? && !Blocked(s.rows, job)
    ensures RunFrom(s, Cycle(job))
            == State(BetweenRoutes, s.rows[job := Received][job := Queued], s.deeds + [Published(job)])
  {
    var found := State(Found(job), s.rows, s.deeds);
    var saved := State(Saved(job), s.rows[job := Received], s.deeds);
    var confirmed := State(Confirmed(job), saved.rows, s.deeds + [Published(job)]);
    assert Step(s, Find(job, false)) == found && Step(found, SaveReceived(Stored)) == saved;
    assert Step(saved, Publish(true)) == confirmed;
    RunOfFour(s, Find(job, false), SaveReceived(Stored), Publish(true), Mark(Stored));
  }

  /** A job that keeps dying: published, marked DEAD, published again. */
  function Relapses(job: Job, n: nat): seq<Event> {
    if n == 0 then [BeginRun] + Cycle(job)
    else Relapses(job, n - 1) + ([Callback(job, true, Stored)] + Cycle(job))
  }

  /** For every number of deaths the bound is met with equality. */
  lemma {:induction false} BoundIsReached(job: Job, n: nat)
    ensures var s := Run(Relapses(job, n));
            && Count(s.deeds, MarkedDead(job)) == n && Count(s.deeds, QueuedMarkLost(job)) == 0
            && Count(s.deeds, Published(job)) == n + 1
            && s.runner.BetweenRoutes?
  {
    if n == 0 {
      RunOfOne(INITIAL, BeginRun);
      RunGoesOn(INITIAL, [BeginRun], Cycle(job));
      CyclePublishes(Run([BeginRun]), job);
      OneMoreDeed([], Published(job));
    } else {
      BoundIsReached(job, n - 1);
      var before := Run(Relapses(job, n - 1));
      var death := [Callback(job, true, Stored)];
      var died := Step(before, death[0]);
      RunGoesOn(INITIAL, Relapses(job, n - 1), death + Cycle(job));
      RunGoesOn(before, death, Cycle(job));
      RunOfOne(before, death[0]);
      CyclePublishes(died, job);
      OneMoreDeed(before.deeds, MarkedDead(job));
      OneMoreDeed(died.deeds, Published(job));
    }
  }
}
