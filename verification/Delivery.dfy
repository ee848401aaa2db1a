/** One Worker delivery: bounded attempts, waits, the dead-letter report and the acknowledgement. */
module Delivery {
  import opened Wrappers
  import opened RateLimit

  datatype WorkerConfig = WorkerConfig(concurrency: int, maxAttempts: int, retryDelays: seq<int>)

  /** WorkerConfig.Validate, which every constructed Worker has passed. */
  predicate ValidConfig(c: WorkerConfig) {
    c.concurrency > 0 && c.maxAttempts > 0 && |c.retryDelays| == c.maxAttempts - 1
    && forall delay :: delay in c.retryDelays ==> delay > 0
  }

  datatype OrbitPlusStatus = NoStatus | Accepted | Retryable | Duplicate | Stale

  datatype ExecutionStatus =
    | InvalidEnvelope | CredentialError | OrbitPlusUnhealthy | SourceError | OrbitPlusError | OrbitPlusOutcome
    | DlqReported | DlqError | Acknowledged | AckError | Cancelled

  datatype ExecutionResult = ExecutionResult(status: ExecutionStatus, reply: OrbitPlusStatus, acknowledged: bool)

  // ---------- the environment ----------

  datatype StepResult = Done | Failed(retryable: bool)

  datatype PushResult = Replied(status: OrbitPlusStatus) | PushFailed(retryable: bool)

  /** What the dependencies answer in one attempt, and whether the context is cancelled around it. */
  datatype Attempt = Attempt(credential: StepResult, health: StepResult, fetch: StepResult, push: PushResult,
                             cancelledAfter: bool, cancelledWaiting: bool)

  datatype CallResult = CallDone | CallFailed | CallCancelled

  datatype World = World(cancelledAtStart: bool, validEnvelope: bool, attempts: nat -> Attempt,
                         ack: CallResult, deadLetter: CallResult)

  /** What a delivery does, in order. */
  datatype Event =
    | ResolveCredential
    | CheckHealth
    | FetchBits
    | Push(reply: Option<OrbitPlusStatus>)
    | Wait(delay: int)
    | ReportDeadLetter(result: CallResult)
    | Ack(result: CallResult)

  // ---------- one attempt ----------

  datatype Processed =
    | Succeeded(reply: OrbitPlusStatus)
    | Unsuccessful(status: ExecutionStatus, reply: OrbitPlusStatus, retryable: bool)

  function ProcessResult(a: Attempt): Processed {
    if a.credential.Failed? then Unsuccessful(CredentialError, NoStatus, a.credential.retryable)
    else if a.health.Failed? then Unsuccessful(OrbitPlusUnhealthy, NoStatus, a.health.retryable)
    else if a.fetch.Failed? then Unsuccessful(SourceError, NoStatus, a.fetch.retryable)
    else match a.push
      case PushFailed(retryable) => Unsuccessful(OrbitPlusError, NoStatus, retryable)
      case Replied(Accepted) => Succeeded(Accepted)
      case Replied(status) => Unsuccessful(OrbitPlusOutcome, status, status == Retryable)
  }

  function ProcessEvents(a: Attempt): seq<Event> {
    if a.credential.Failed? then [ResolveCredential]
    else if a.health.Failed? then [ResolveCredential, CheckHealth]
    else if a.fetch.Failed? then [ResolveCredential, CheckHealth, FetchBits]
    else [ResolveCredential, CheckHealth, FetchBits, Push(if a.push.Replied? then Some(a.push.status) else None)]
  }

  /** The steps before the push all succeed. */
  predicate ReachesPush(a: Attempt) {
    a.credential == Done && a.health == Done && a.fetch == Done
  }

  /** How many of the four calls an attempt makes: each only after the one before succeeded. */
  function CallsMade(a: Attempt): nat {
    if a.credential.Failed? then 1 else if a.health.Failed? then 2 else if a.fetch.Failed? then 3 else 4
  }

  /** Whether the last call made leaves the attempt worth repeating. */
  predicate LastCallRetryable(a: Attempt) {
    || (CallsMade(a) == 1 && a.credential.retryable)
    || (CallsMade(a) == 2 && a.health.retryable)
    || (CallsMade(a) == 3 && a.fetch.retryable)
    || (CallsMade(a) == 4 && (if a.push.Replied? then a.push.status == Retryable else a.push.retryable))
  }

  /**
   * processOnce: it makes a prefix of the four calls, up to the first that fails; it succeeds exactly when
   * all steps are done and the push is ACCEPTED; otherwise the last call made decides about a retry.
   */
  method ProcessOnce(a: Attempt) returns (p: Processed, events: seq<Event>)
    ensures events <= [ResolveCredential, CheckHealth, FetchBits,
                       Push(if a.push.Replied? then Some(a.push.status) else None)]
    ensures |events| == CallsMade(a)
    ensures p.Succeeded? <==> ReachesPush(a) && a.push == Replied(Accepted)
    ensures p.Succeeded? ==> p.reply == Accepted
    ensures p.Unsuccessful? ==> (p.retryable <==> LastCallRetryable(a))
    ensures p == ProcessResult(a) && events == ProcessEvents(a)
  {
    events := [ResolveCredential];
    if a.credential.Failed? {
      return Unsuccessful(CredentialError, NoStatus, a.credential.retryable), events;
    }
    events := events + [CheckHealth];
    if a.health.Failed? {
      return Unsuccessful(OrbitPlusUnhealthy, NoStatus, a.health.retryable), events;
    }
    events := events + [FetchBits];
    if a.fetch.Failed? {
      return Unsuccessful(SourceError, NoStatus, a.fetch.retryable), events;
    }
    if a.push.PushFailed? {
      return Unsuccessful(OrbitPlusError, NoStatus, a.push.retryable), events + [Push(None)];
    }
    var status := a.push.status;
    events := events + [Push(Some(status))];
    if status != Accepted {
      return Unsuccessful(OrbitPlusOutcome, status, status == Retryable), events;
    }
    p := Succeeded(status);
  }

  // ---------- settling ----------

  function OperationError(status: ExecutionStatus, result: CallResult, reply: OrbitPlusStatus): ExecutionResult {
    if result == CallCancelled then ExecutionResult(Cancelled, NoStatus, false)
    else ExecutionResult(status, reply, false)
  }

  function AckResult(w: World, success: ExecutionStatus, reply: OrbitPlusStatus): ExecutionResult {
    if w.ack == CallDone then ExecutionResult(success, reply, true) else OperationError(AckError, w.ack, reply)
  }

  /** reportFailure. */
  function ReportFailure(w: World, reply: OrbitPlusStatus): (ExecutionResult, seq<Event>) {
    if w.deadLetter != CallDone then (OperationError(DlqError, w.deadLetter, reply), [ReportDeadLetter(w.deadLetter)])
    else (AckResult(w, DlqReported, reply), [ReportDeadLetter(CallDone), Ack(w.ack)])
  }

  // ---------- all attempts ----------

  /** The delivery from the given attempt on: its result and its events. */
  ghost function From(c: WorkerConfig, w: World, attempt: nat): (ExecutionResult, seq<Event>)
    requires ValidConfig(c) && 1 <= attempt <= c.maxAttempts
    decreases c.maxAttempts - attempt
  {
    var a := w.attempts(attempt);
    var events := ProcessEvents(a);
    match ProcessResult(a)
    case Succeeded(reply) => (AckResult(w, Acknowledged, reply), events + [Ack(w.ack)])
    case Unsuccessful(_, reply, retryable) =>
      if a.cancelledAfter then (ExecutionResult(Cancelled, reply, false), events)
      else if !retryable || attempt == c.maxAttempts then
        (ReportFailure(w, reply).0, events + ReportFailure(w, reply).1)
      else
        var waited := events + [Wait(c.retryDelays[attempt - 1])];
        if a.cancelledWaiting then (ExecutionResult(Cancelled, reply, false), waited)
        else (From(c, w, attempt + 1).0, waited + From(c, w, attempt + 1).1)
  }

  ghost function Delivered(c: WorkerConfig, w: World): (ExecutionResult, seq<Event>)
    requires ValidConfig(c)
  {
    if w.cancelledAtStart then (ExecutionResult(Cancelled, NoStatus, false), [])
    else if !w.validEnvelope then
      (AckResult(w, InvalidEnvelope, NoStatus), [Ack(w.ack)])
    else From(c, w, 1)
  }

  /** Handle. */
  method Handle(c: WorkerConfig, w: World) returns (result: ExecutionResult, trace: seq<Event>)
    requires ValidConfig(c)
    ensures (result, trace) == Delivered(c, w)
  {
    trace := [];
    if w.cancelledAtStart {
      return ExecutionResult(Cancelled, NoStatus, false), trace;
    }
    if !w.validEnvelope {
      trace := [Ack(w.ack)];
      if w.ack != CallDone {
        return OperationError(AckError, w.ack, NoStatus), trace;
      }
      return ExecutionResult(InvalidEnvelope, NoStatus, true), trace;
    }
    assert [] + From(c, w, 1).1 == From(c, w, 1).1;
    for attempt := 1 to c.maxAttempts + 1
      invariant attempt <= c.maxAttempts ==> From(c, w, 1) == (From(c, w, attempt).0, trace + From(c, w, attempt).1)
      invariant attempt <= c.maxAttempts
    {
      var a := w.attempts(attempt);
      var before := trace;
      var p, events := ProcessOnce(a);
      trace := trace + events;
      match p {
        case Succeeded(reply) =>
          AppendIsAssociative(before, events, [Ack(w.ack)]);
          trace := trace + [Ack(w.ack)];
          if w.ack != CallDone {
            return OperationError(AckError, w.ack, reply), trace;
          }
          return ExecutionResult(Acknowledged, reply, true), trace;
        case Unsuccessful(status, reply, retryable) =>
          if a.cancelledAfter {
            return ExecutionResult(Cancelled, reply, false), trace;
          }
          if !retryable || attempt == c.maxAttempts {
            var (reported, settled) := ReportFailure(w, reply);
            AppendIsAssociative(before, events, settled);
            return reported, trace + settled;
          }
          var wait := [Wait(c.retryDelays[attempt - 1])];
          AppendIsAssociative(before, events, wait);
          trace := trace + wait;
          if a.cancelledWaiting {
            return ExecutionResult(Cancelled, reply, false), trace;
          }
          AppendIsAssociative(before, events + wait, From(c, w, attempt + 1).1);
      }
    }
    // Every attempt up to the last one returns, so the loop never runs out.
    assert false;
  }

  // ---------- what every delivery keeps ----------

  /** The effects that are counted. */
  datatype Kind = AttemptMade | BitsFetched | DeadLettered | AckSent

  predicate Is(e: Event, kind: Kind) {
    match kind
    case AttemptMade => e.ResolveCredential?
    case BitsFetched => e.FetchBits?
    case DeadLettered => e.ReportDeadLetter?
    case AckSent => e.Ack?
  }

  function Count(t: seq<Event>, kind: Kind): nat {
    if t == [] then 0 else Count(t[..|t| - 1], kind) + (if Is(t[|t| - 1], kind) then 1 else 0)
  }

  /** The delays waited, in order. */
  function Delays(t: seq<Event>): seq<int> {
    if t == [] then []
    else if t[|t| - 1].Wait? then Delays(t[..|t| - 1]) + [t[|t| - 1].delay]
    else Delays(t[..|t| - 1])
  }

  lemma TraceGrows(t: seq<Event>, e: Event)
    ensures forall kind :: Count(t + [e], kind) == Count(t, kind) + (if Is(e, kind) then 1 else 0)
    ensures Delays(t + [e]) == if e.Wait? then Delays(t) + [e.delay] else Delays(t)
  {
    assert (t + [e])[..|t|] == t;
  }

  lemma TraceOfOne(e: Event)
    ensures forall kind :: Count([e], kind) == if Is(e, kind) then 1 else 0
    ensures Delays([e]) == if e.Wait? then [e.delay] else []
  {
    TraceGrows([], e);
    assert [] + [e] == [e];
    if e.Wait? {
      assert [] + [e.delay] == [e.delay];
    }
  }

  lemma {:induction false} TracesJoin(a: seq<Event>, b: seq<Event>)
    ensures forall kind :: Count(a + b, kind) == Count(a, kind) + Count(b, kind)
    ensures Delays(a + b) == Delays(a) + Delays(b)
  {
    if b == [] {
      assert a + b == a;
      assert Delays(a) + [] == Delays(a);
    } else {
      var front, last := b[..|b| - 1], b[|b| - 1];
      SplitLast(b);
      AppendIsAssociative(a, front, [last]);
      TracesJoin(a, front);
      TraceGrows(a + front, last);
      TraceGrows(front, last);
      if last.Wait? {
        AppendIsAssociative(Delays(a), Delays(front), [last.delay]);
      }
    }
  }

  /** An attempt resolves the credential once, fetches at most once, and neither waits, reports nor acknowledges. */
  ghost predicate OneAttempt(t: seq<Event>) {
    && Count(t, AttemptMade) == 1 && Count(t, BitsFetched) <= 1
    && Count(t, DeadLettered) == Count(t, AckSent) == 0 && Delays(t) == []
    && forall i :: 0 <= i < |t| ==> !t[i].Ack?
  }

  lemma OneAttemptGoesOn(t: seq<Event>, e: Event)
    requires OneAttempt(t) && (e.CheckHealth? || e.Push? || (e.FetchBits? && Count(t, BitsFetched) == 0))
    ensures OneAttempt(t + [e])
    ensures Count(t + [e], BitsFetched) == Count(t, BitsFetched) + (if e.FetchBits? then 1 else 0)
  {
    TraceGrows(t, e);
  }

  lemma AttemptTally(a: Attempt)
    ensures OneAttempt(ProcessEvents(a))
    ensures ProcessEvents(a) != []
    ensures ProcessResult(a).Succeeded? ==> ProcessEvents(a)[|ProcessEvents(a)| - 1] == Push(Some(Accepted))
  {
    var push := Push(if a.push.Replied? then Some(a.push.status) else None);
    TraceOfOne(ResolveCredential);
    OneAttemptGoesOn([ResolveCredential], CheckHealth);
    assert [ResolveCredential] + [CheckHealth] == [ResolveCredential, CheckHealth];
    OneAttemptGoesOn([ResolveCredential, CheckHealth], FetchBits);
    assert [ResolveCredential, CheckHealth] + [FetchBits] == [ResolveCredential, CheckHealth, FetchBits];
    OneAttemptGoesOn([ResolveCredential, CheckHealth, FetchBits], push);
    assert [ResolveCredential, CheckHealth, FetchBits] + [push] == [ResolveCredential, CheckHealth, FetchBits, push];
  }

  /** Any Ack is the last event, and the event before it is an ACCEPTED push or a delivered report. */
  ghost predicate AckIsEarned(t: seq<Event>) {
    && (forall i :: 0 <= i < |t| - 1 ==> !t[i].Ack?)
    && (t != [] && t[|t| - 1].Ack? ==>
          |t| >= 2 && (t[|t| - 2] == Push(Some(Accepted)) || t[|t| - 2] == ReportDeadLetter(CallDone)))
  }

  ghost predicate AckDone(t: seq<Event>) {
    t != [] && t[|t| - 1] == Ack(CallDone)
  }

  lemma EarnedAfter(front: seq<Event>, t: seq<Event>)
    requires AckIsEarned(t) && forall i :: 0 <= i < |front| ==> !front[i].Ack?
    ensures AckIsEarned(front + t)
  {
  }

  ghost predicate OneReport(t: seq<Event>) {
    && t != [] && (t[|t| - 1].Ack? || t[|t| - 1].ReportDeadLetter?) && AckIsEarned(t)
    && Count(t, AttemptMade) == Count(t, BitsFetched) == 0 && Delays(t) == []
    && Count(t, DeadLettered) == 1 && Count(t, AckSent) <= 1
  }

  lemma ReportTally(w: World, reply: OrbitPlusStatus)
    ensures OneReport(ReportFailure(w, reply).1)
    ensures ReportFailure(w, reply).0.acknowledged <==> AckDone(ReportFailure(w, reply).1)
  {
    TraceOfOne(ReportDeadLetter(w.deadLetter));
    TraceGrows([ReportDeadLetter(CallDone)], Ack(w.ack));
    assert [ReportDeadLetter(CallDone)] + [Ack(w.ack)] == [ReportDeadLetter(CallDone), Ack(w.ack)];
  }

  /** What holds of a delivery from one attempt on. */
  ghost predicate Bounded(c: WorkerConfig, attempt: nat, r: ExecutionResult, t: seq<Event>)
    requires ValidConfig(c) && 1 <= attempt <= c.maxAttempts
  {
    && 1 <= Count(t, AttemptMade) <= c.maxAttempts - attempt + 1
    && Count(t, BitsFetched) <= Count(t, AttemptMade)
    && Count(t, AttemptMade) - 1 <= |Delays(t)| <= Count(t, AttemptMade)
    && Delays(t) <= c.retryDelays[attempt - 1..]
    && Count(t, DeadLettered) <= 1 && Count(t, AckSent) <= 1
    && AckIsEarned(t) && (r.acknowledged <==> AckDone(t))
  }

  lemma BoundedAfterWait(c: WorkerConfig, attempt: nat, events: seq<Event>, r: ExecutionResult, t: seq<Event>)
    requires ValidConfig(c) && 1 <= attempt < c.maxAttempts
    requires OneAttempt(events) && Bounded(c, attempt + 1, r, t) && t != []
    ensures Bounded(c, attempt, r, events + [Wait(c.retryDelays[attempt - 1])] + t)
  {
    var delay := c.retryDelays[attempt - 1];
    var waited := events + [Wait(delay)];
    assert c.retryDelays[attempt - 1..] == [delay] + c.retryDelays[attempt..];
    TraceGrows(events, Wait(delay));
    TracesJoin(waited, t);
    EarnedAfter(waited, t);
    assert Delays(waited) == [delay];
  }

  lemma BoundedReport(c: WorkerConfig, attempt: nat, events: seq<Event>, r: ExecutionResult, t: seq<Event>)
    requires ValidConfig(c) && 1 <= attempt <= c.maxAttempts
    requires OneAttempt(events) && OneReport(t) && (r.acknowledged <==> AckDone(t))
    ensures Bounded(c, attempt, r, events + t)
  {
    TracesJoin(events, t);
    EarnedAfter(events, t);
    assert Delays(events + t) == [];
  }

  lemma BoundedSuccess(c: WorkerConfig, w: World, attempt: nat, events: seq<Event>, reply: OrbitPlusStatus)
    requires ValidConfig(c) && 1 <= attempt <= c.maxAttempts
    requires OneAttempt(events) && events != [] && events[|events| - 1] == Push(Some(Accepted))
    ensures Bounded(c, attempt, AckResult(w, Acknowledged, reply), events + [Ack(w.ack)])
  {
    TraceGrows(events, Ack(w.ack));
  }

  lemma {:induction false} AttemptsAreBounded(c: WorkerConfig, w: World, attempt: nat)
    requires ValidConfig(c) && 1 <= attempt <= c.maxAttempts
    ensures Bounded(c, attempt, From(c, w, attempt).0, From(c, w, attempt).1)
    ensures From(c, w, attempt).1 != []
    decreases c.maxAttempts - attempt
  {
    var a := w.attempts(attempt);
    var events := ProcessEvents(a);
    AttemptTally(a);
    match ProcessResult(a)
    case Succeeded(reply) => BoundedSuccess(c, w, attempt, events, reply);
    case Unsuccessful(_, reply, retryable) =>
      if a.cancelledAfter {
      } else if !retryable || attempt == c.maxAttempts {
        ReportTally(w, reply);
        BoundedReport(c, attempt, events, ReportFailure(w, reply).0, ReportFailure(w, reply).1);
      } else if a.cancelledWaiting {
        TraceGrows(events, Wait(c.retryDelays[attempt - 1]));
      } else {
        AttemptsAreBounded(c, w, attempt + 1);
        BoundedAfterWait(c, attempt, events, From(c, w, attempt + 1).0, From(c, w, attempt + 1).1);
      }
  }

  /**
   * Every delivery: at most MaxAttempts attempts, waits that are a prefix of the retry delays, at
   * most one dead-letter report and one Ack; an Ack only for an invalid envelope, an ACCEPTED push
   * or a delivered report, always last; acknowledged exactly when it succeeded.
   */
  lemma DeliveryIsBounded(c: WorkerConfig, w: World)
    requires ValidConfig(c)
    ensures var (r, t) := Delivered(c, w);
            && Count(t, AttemptMade) <= c.maxAttempts && Count(t, BitsFetched) <= Count(t, AttemptMade)
            && Delays(t) <= c.retryDelays
            && Count(t, DeadLettered) <= 1 && Count(t, AckSent) <= 1
            && (AckIsEarned(t) || (!w.validEnvelope && t == [Ack(w.ack)]))
            && (r.acknowledged <==> AckDone(t))
  {
    if !w.cancelledAtStart {
      if w.validEnvelope {
        AttemptsAreBounded(c, w, 1);
        assert c.retryDelays[0..] == c.retryDelays;
      } else {
        TraceOfOne(Ack(w.ack));
      }
    }
  }

  /**
   * Only ACCEPTED is acknowledged as it is: a DUPLICATE or STALE reply is first reported to the dead-letter
   * endpoint, and acknowledged once that report is delivered.
   */
  lemma DuplicateAndStaleAreReported(c: WorkerConfig, w: World, attempt: nat)
    requires ValidConfig(c) && 1 <= attempt <= c.maxAttempts
    requires var a := w.attempts(attempt);
             ReachesPush(a) && !a.cancelledAfter && (a.push == Replied(Duplicate) || a.push == Replied(Stale))
    ensures var (r, t) := From(c, w, attempt);
            var calls := [ResolveCredential, CheckHealth, FetchBits, Push(Some(w.attempts(attempt).push.status))];
            && t == calls + [ReportDeadLetter(w.deadLetter)] + (if w.deadLetter == CallDone then [Ack(w.ack)] else [])
            && (r.acknowledged <==> w.deadLetter == CallDone && w.ack == CallDone)
            && (r.acknowledged ==> r.status == DlqReported && r.reply == w.attempts(attempt).push.status)
  {
    var calls := [ResolveCredential, CheckHealth, FetchBits, Push(Some(w.attempts(attempt).push.status))];
    assert ProcessEvents(w.attempts(attempt)) == calls;
    AppendIsAssociative(calls, [ReportDeadLetter(w.deadLetter)], [Ack(w.ack)]);
    assert [ReportDeadLetter(w.deadLetter)] + [Ack(w.ack)] == [ReportDeadLetter(w.deadLetter), Ack(w.ack)];
    assert calls + [ReportDeadLetter(w.deadLetter)] + [] == calls + [ReportDeadLetter(w.deadLetter)];
  }

  // ---------- no delivery is dropped silently ----------

  /** No cancellation anywhere. */
  ghost predicate Undisturbed(w: World) {
    && !w.cancelledAtStart && w.ack != CallCancelled && w.deadLetter != CallCancelled
    && forall k: nat :: !w.attempts(k).cancelledAfter && !w.attempts(k).cancelledWaiting
  }

  predicate SettlesAt(c: WorkerConfig, w: World, attempt: nat) {
    match ProcessResult(w.attempts(attempt))
    case Succeeded(_) => true
    case Unsuccessful(_, _, retryable) => !retryable || attempt >= c.maxAttempts
  }

  /** The first attempt that succeeds, fails for good, or is the last allowed. */
  function SettlingAttempt(c: WorkerConfig, w: World, attempt: nat): (k: nat)
    requires ValidConfig(c) && 1 <= attempt <= c.maxAttempts
    ensures attempt <= k <= c.maxAttempts && SettlesAt(c, w, k)
    ensures forall j :: attempt <= j < k ==> !SettlesAt(c, w, j)
    decreases c.maxAttempts - attempt
  {
    if SettlesAt(c, w, attempt) then attempt else SettlingAttempt(c, w, attempt + 1)
  }

  /** Exactly the attempts up to the settling one and the delays between them, then an Ack or a report. */
  ghost predicate Settled(c: WorkerConfig, w: World, attempt: nat, r: ExecutionResult, t: seq<Event>)
    requires ValidConfig(c) && 1 <= attempt <= c.maxAttempts
  {
    var k := SettlingAttempt(c, w, attempt);
    var settled := ProcessResult(w.attempts(k));
    && Count(t, AttemptMade) == k - attempt + 1 && Delays(t) == c.retryDelays[attempt - 1..k - 1]
    && (settled.Succeeded? ==> r == AckResult(w, Acknowledged, settled.reply) && Count(t, DeadLettered) == 0)
    && (settled.Unsuccessful? ==> r == ReportFailure(w, settled.reply).0 && Count(t, DeadLettered) == 1)
    && t != [] && (t[|t| - 1].Ack? || t[|t| - 1].ReportDeadLetter?)
  }

  /** What an attempt and its wait add in front of a trace. */
  lemma AttemptInFront(events: seq<Event>, delay: int, t: seq<Event>)
    requires OneAttempt(events)
    ensures var all := events + [Wait(delay)] + t;
            && Count(all, AttemptMade) == Count(t, AttemptMade) + 1
            && Count(all, DeadLettered) == Count(t, DeadLettered)
            && Delays(all) == [delay] + Delays(t)
  {
    TraceGrows(events, Wait(delay));
    TracesJoin(events + [Wait(delay)], t);
    assert Delays(events + [Wait(delay)]) == [delay];
  }

  lemma SettledAfterWait(c: WorkerConfig, w: World, attempt: nat, events: seq<Event>, r: ExecutionResult, t: seq<Event>)
    requires ValidConfig(c) && 1 <= attempt < c.maxAttempts && !SettlesAt(c, w, attempt)
    requires OneAttempt(events) && Settled(c, w, attempt + 1, r, t)
    ensures Settled(c, w, attempt, r, events + [Wait(c.retryDelays[attempt - 1])] + t)
  {
    var delay, k := c.retryDelays[attempt - 1], SettlingAttempt(c, w, attempt + 1);
    AttemptInFront(events, delay, t);
    assert c.retryDelays[attempt - 1..k - 1] == [delay] + c.retryDelays[attempt..k - 1];
  }

  /** Undisturbed, a valid delivery is never dropped: success acknowledges, any other end is reported first. */
  lemma {:induction false} UndisturbedDeliverySettles(c: WorkerConfig, w: World, attempt: nat)
    requires ValidConfig(c) && 1 <= attempt <= c.maxAttempts && Undisturbed(w)
    ensures Settled(c, w, attempt, From(c, w, attempt).0, From(c, w, attempt).1)
    decreases c.maxAttempts - attempt
  {
    var a := w.attempts(attempt);
    var events := ProcessEvents(a);
    assert !a.cancelledAfter && !a.cancelledWaiting;
    AttemptTally(a);
    match ProcessResult(a)
    case Succeeded(reply) =>
      TraceGrows(events, Ack(w.ack));
    case Unsuccessful(_, reply, retryable) =>
      if !retryable || attempt == c.maxAttempts {
        ReportTally(w, reply);
        TracesJoin(events, ReportFailure(w, reply).1);
      } else {
        UndisturbedDeliverySettles(c, w, attempt + 1);
        SettledAfterWait(c, w, attempt, events, From(c, w, attempt + 1).0, From(c, w, attempt + 1).1);
      }
  }

  // ---------- what the reported status means ----------

  /** The result a delivery's last one or two events stand for; without one of these ends it was cancelled. */
  ghost function StatusOf(t: seq<Event>): ExecutionStatus {
    if t == [] then Cancelled
    else match t[|t| - 1]
      case Ack(CallDone) =>
        if |t| == 1 then InvalidEnvelope else if t[|t| - 2] == Push(Some(Accepted)) then Acknowledged else DlqReported
      case Ack(CallFailed) => AckError
      case ReportDeadLetter(CallFailed) => DlqError
      case _ => Cancelled
  }

  /** The reply of a delivery's last push, if it got one. */
  ghost function LastReply(t: seq<Event>): OrbitPlusStatus {
    if t == [] then NoStatus
    else
      var last := t[|t| - 1];
      if last.Push? then if last.reply.Some? then last.reply.value else NoStatus
      else if last.ResolveCredential? then NoStatus
      else LastReply(t[..|t| - 1])
  }

  ghost predicate Tells(r: ExecutionResult, t: seq<Event>) {
    && r.status == StatusOf(t) && (r.acknowledged <==> AckDone(t))
    && (r.status != Cancelled ==> r.reply == LastReply(t))
  }

  lemma RepliesOnward(t: seq<Event>, e: Event)
    ensures LastReply(t + [e]) == if e.Push? then if e.reply.Some? then e.reply.value else NoStatus
                                  else if e.ResolveCredential? then NoStatus else LastReply(t)
  {
    assert (t + [e])[..|t|] == t;
  }

  lemma AttemptReply(a: Attempt)
    ensures LastReply(ProcessEvents(a)) == ProcessResult(a).reply
    ensures !ProcessEvents(a)[|ProcessEvents(a)| - 1].Ack?
    ensures !ProcessEvents(a)[|ProcessEvents(a)| - 1].ReportDeadLetter?
  {
    var push := Push(if a.push.Replied? then Some(a.push.status) else None);
    RepliesOnward([], ResolveCredential);
    RepliesOnward([ResolveCredential], CheckHealth);
    RepliesOnward([ResolveCredential, CheckHealth], FetchBits);
    RepliesOnward([ResolveCredential, CheckHealth, FetchBits], push);
    assert [] + [ResolveCredential] == [ResolveCredential];
    assert [ResolveCredential] + [CheckHealth] == [ResolveCredential, CheckHealth];
    assert [ResolveCredential, CheckHealth] + [FetchBits] == [ResolveCredential, CheckHealth, FetchBits];
    assert [ResolveCredential, CheckHealth, FetchBits] + [push] == [ResolveCredential, CheckHealth, FetchBits, push];
  }

  lemma ReportTells(w: World, reply: OrbitPlusStatus, events: seq<Event>)
    requires LastReply(events) == reply && events != []
    ensures Tells(ReportFailure(w, reply).0, events + ReportFailure(w, reply).1)
  {
    var report := ReportDeadLetter(w.deadLetter);
    RepliesOnward(events, report);
    if w.deadLetter == CallDone {
      RepliesOnward(events + [report], Ack(w.ack));
      assert events + [report] + [Ack(w.ack)] == events + [report, Ack(w.ack)];
    }
  }

  /** What came before an attempt does not change what the delivery's end tells. */
  lemma {:induction false} EarlierEventsTellNothing(before: seq<Event>, t: seq<Event>)
    requires exists i :: 0 <= i < |t| && t[i].ResolveCredential?
    ensures LastReply(before + t) == LastReply(t)
  {
    var front, last := t[..|t| - 1], t[|t| - 1];
    assert (before + t)[..|before + t| - 1] == before + front;
    if !last.Push? && !last.ResolveCredential? {
      var i :| 0 <= i < |t| && t[i].ResolveCredential?;
      assert front[i].ResolveCredential?;
      EarlierEventsTellNothing(before, front);
    }
  }

  lemma TellsAfterWait(before: seq<Event>, r: ExecutionResult, t: seq<Event>)
    requires Tells(r, t) && |t| >= 1 && t[0].ResolveCredential?
    ensures Tells(r, before + t)
  {
    EarlierEventsTellNothing(before, t);
  }

  lemma {:induction false} AttemptsTell(c: WorkerConfig, w: World, attempt: nat)
    requires ValidConfig(c) && 1 <= attempt <= c.maxAttempts
    ensures Tells(From(c, w, attempt).0, From(c, w, attempt).1)
    ensures From(c, w, attempt).1 != [] && From(c, w, attempt).1[0].ResolveCredential?
    decreases c.maxAttempts - attempt
  {
    var a := w.attempts(attempt);
    var events := ProcessEvents(a);
    AttemptTally(a);
    AttemptReply(a);
    match ProcessResult(a)
    case Succeeded(reply) =>
      RepliesOnward(events, Ack(w.ack));
    case Unsuccessful(_, reply, retryable) =>
      if a.cancelledAfter {
      } else if !retryable || attempt == c.maxAttempts {
        ReportTells(w, reply, events);
      } else if a.cancelledWaiting {
      } else {
        AttemptsTell(c, w, attempt + 1);
        TellsAfterWait(events + [Wait(c.retryDelays[attempt - 1])], From(c, w, attempt + 1).0,
                       From(c, w, attempt + 1).1);
      }
  }

  /**
   * The reported status is what the delivery did last: acknowledged after an ACCEPTED push, after a delivered
   * report or as an invalid envelope, stopped by a failed report or acknowledgement, or else cancelled; with
   * it goes the reply of the last push.
   */
  lemma StatusTellsTheEnd(c: WorkerConfig, w: World)
    requires ValidConfig(c)
    ensures Tells(Delivered(c, w).0, Delivered(c, w).1)
  {
    if !w.cancelledAtStart {
      if w.validEnvelope {
        AttemptsTell(c, w, 1);
      } else {
        RepliesOnward([], Ack(w.ack));
        assert [] + [Ack(w.ack)] == [Ack(w.ack)];
      }
    }
  }

  // ---------- cancelled deliveries ----------

  /** The attempt is followed by another. */
  predicate GoesOn(c: WorkerConfig, w: World, attempt: nat) {
    var a := w.attempts(attempt);
    && !(ReachesPush(a) && a.push == Replied(Accepted))
    && LastCallRetryable(a) && attempt < c.maxAttempts && !a.cancelledAfter && !a.cancelledWaiting
  }

  /** The attempt fails, and the delivery is cancelled right after it, or else while it waits for the next. */
  predicate CancelledAt(c: WorkerConfig, w: World, attempt: nat) {
    var a := w.attempts(attempt);
    && !(ReachesPush(a) && a.push == Replied(Accepted))
    && (a.cancelledAfter || (LastCallRetryable(a) && attempt < c.maxAttempts && a.cancelledWaiting))
  }

  /** The calls of the attempts before the k-th, each followed by its wait. */
  ghost function Trail(c: WorkerConfig, w: World, attempt: nat, k: nat): seq<Event>
    requires ValidConfig(c) && 1 <= attempt <= k <= c.maxAttempts
    decreases k - attempt
  {
    if attempt == k then []
    else ProcessEvents(w.attempts(attempt)) + [Wait(c.retryDelays[attempt - 1])] + Trail(c, w, attempt + 1, k)
  }

  lemma {:induction false} AttemptsGoOn(c: WorkerConfig, w: World, attempt: nat, k: nat)
    requires ValidConfig(c) && 1 <= attempt <= k <= c.maxAttempts
    requires forall j :: attempt <= j < k ==> GoesOn(c, w, j)
    ensures From(c, w, attempt) == (From(c, w, k).0, Trail(c, w, attempt, k) + From(c, w, k).1)
    decreases k - attempt
  {
    if attempt == k {
      assert [] + From(c, w, k).1 == From(c, w, k).1;
    } else {
      AttemptsGoOn(c, w, attempt + 1, k);
      NextAttempt(c, w, attempt);
      AppendIsAssociative(ProcessEvents(w.attempts(attempt)) + [Wait(c.retryDelays[attempt - 1])],
                          Trail(c, w, attempt + 1, k), From(c, w, k).1);
    }
  }

  lemma NextAttempt(c: WorkerConfig, w: World, attempt: nat)
    requires ValidConfig(c) && 1 <= attempt < c.maxAttempts && GoesOn(c, w, attempt)
    ensures From(c, w, attempt)
            == (From(c, w, attempt + 1).0,
                ProcessEvents(w.attempts(attempt)) + [Wait(c.retryDelays[attempt - 1])] + From(c, w, attempt + 1).1)
  {
  }

  /** An attempt is made once per place in the trail, which reports and acknowledges nothing. */
  ghost predicate OnlyAttempts(t: seq<Event>, made: nat) {
    Count(t, AttemptMade) == made && Count(t, DeadLettered) == Count(t, AckSent) == 0
  }

  lemma OneMoreAttempt(events: seq<Event>, delay: int, t: seq<Event>, made: nat)
    requires OneAttempt(events) && OnlyAttempts(t, made)
    ensures OnlyAttempts(events + [Wait(delay)] + t, made + 1)
  {
    TraceGrows(events, Wait(delay));
    TracesJoin(events + [Wait(delay)], t);
  }

  lemma {:induction false} TrailIsOfAttempts(c: WorkerConfig, w: World, attempt: nat, k: nat)
    requires ValidConfig(c) && 1 <= attempt <= k <= c.maxAttempts
    ensures OnlyAttempts(Trail(c, w, attempt, k), k - attempt)
    decreases k - attempt
  {
    if attempt < k {
      TrailIsOfAttempts(c, w, attempt + 1, k);
      AttemptTally(w.attempts(attempt));
      OneMoreAttempt(ProcessEvents(w.attempts(attempt)), c.retryDelays[attempt - 1], Trail(c, w, attempt + 1, k),
                     k - attempt - 1);
    }
  }

  lemma StoppedTrail(trail: seq<Event>, events: seq<Event>, wait: seq<Event>, made: nat)
    requires OnlyAttempts(trail, made) && OneAttempt(events) && (wait == [] || (|wait| == 1 && wait[0].Wait?))
    ensures trail + (events + wait) == trail + events + wait && OnlyAttempts(trail + events + wait, made + 1)
  {
    AppendIsAssociative(trail, events, wait);
    TracesJoin(trail, events);
    if wait == [] {
      assert trail + events + wait == trail + events;
    } else {
      TraceGrows(trail + events, wait[0]);
    }
  }

  /** How a cancelled attempt ends the delivery. */
  lemma CancelledHere(c: WorkerConfig, w: World, k: nat)
    requires ValidConfig(c) && 1 <= k <= c.maxAttempts && CancelledAt(c, w, k)
    ensures var a := w.attempts(k);
            && From(c, w, k).0.status == Cancelled && !From(c, w, k).0.acknowledged
            && From(c, w, k).1 == ProcessEvents(a) + (if a.cancelledAfter then [] else [Wait(c.retryDelays[k - 1])])
  {
    assert ProcessEvents(w.attempts(k)) + [] == ProcessEvents(w.attempts(k));
  }

  /**
   * A delivery cancelled after its k-th attempt, or while it waits for the next, ends there: it has made the
   * calls of its k attempts and no other, reports nothing and acknowledges nothing.
   */
  lemma CancelledDeliveryStops(c: WorkerConfig, w: World, k: nat)
    requires ValidConfig(c) && !w.cancelledAtStart && w.validEnvelope && 1 <= k <= c.maxAttempts
    requires (forall j :: 1 <= j < k ==> GoesOn(c, w, j)) && CancelledAt(c, w, k)
    ensures var (r, t) := Delivered(c, w);
            var a := w.attempts(k);
            && t == Trail(c, w, 1, k) + ProcessEvents(a)
                    + (if a.cancelledAfter then [] else [Wait(c.retryDelays[k - 1])])
            && OnlyAttempts(t, k)
            && r.status == Cancelled && !r.acknowledged
  {
    var a := w.attempts(k);
    AttemptsGoOn(c, w, 1, k);
    CancelledHere(c, w, k);
    TrailIsOfAttempts(c, w, 1, k);
    AttemptTally(a);
    StoppedTrail(Trail(c, w, 1, k), ProcessEvents(a), if a.cancelledAfter then [] else [Wait(c.retryDelays[k - 1])],
                 k - 1);
  }

  // ---------- waiting for the zone's quota ----------

  /** One answer of the limiter, none when its call fails, and whether the context is cancelled during the wait. */
  datatype QuotaCall = QuotaCall(answer: Option<Reply>, cancelled: bool)

  datatype QuotaOutcome = Proceed | QuotaCancelled | StillBlocked

  const POLL_FALLBACK := 1_000_000_000

  /** The limiter's own delay, a second where it gives none. */
  ghost predicate IsWaitFor(wait: int, retryAfter: int) {
    wait == if retryAfter > 0 then retryAfter else 1_000_000_000
  }

  /** awaitZoneRateLimit, run against a finite script of limiter answers. */
  method AwaitZoneRateLimit(answers: seq<QuotaCall>) returns (outcome: QuotaOutcome, used: nat, waits: seq<int>)
    ensures used <= |answers|
    ensures forall i :: 0 <= i < used - 1 ==> Blocks(answers[i].answer) && !answers[i].cancelled
    ensures outcome == Proceed <==> used > 0 && !Blocks(answers[used - 1].answer)
    ensures outcome == QuotaCancelled <==> used > 0 && Blocks(answers[used - 1].answer) && answers[used - 1].cancelled
    ensures outcome == StillBlocked ==> used == |answers|
    ensures |waits| == (if outcome == Proceed then used - 1 else used)
    ensures forall i :: 0 <= i < |waits| ==>
              Blocks(answers[i].answer) && IsWaitFor(waits[i], answers[i].answer.value.retryAfter)
  {
    waits := [];
    for i := 0 to |answers|
      invariant |waits| == i
      invariant forall j :: 0 <= j < i ==> Blocks(answers[j].answer) && !answers[j].cancelled
      invariant forall j :: 0 <= j < i ==> IsWaitFor(waits[j], answers[j].answer.value.retryAfter)
    {
      var call := answers[i];
      if !Blocks(call.answer) {
        return Proceed, i + 1, waits;
      }
      var wait := call.answer.value.retryAfter;
      if wait <= 0 {
        wait := POLL_FALLBACK;
      }
      waits := waits + [wait];
      if call.cancelled {
        return QuotaCancelled, i + 1, waits;
      }
    }
    return StillBlocked, |answers|, waits;
  }
}
