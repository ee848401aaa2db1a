/**
 * The counter Master and Worker share: INCR with an expiry set by the first hit of a window.
 * The counter's clock runs in milliseconds; a key is gone once its deadline is reached.
 */
module SharedCounter {
  import opened Wrappers
  import opened RateLimit

  const NANOS_PER_MILLI := 1_000_000

  datatype Counter = Counter(count: int, deadline: int)

  const KEY_PREFIX := "bits:ratelimit:zone:"

  function Live(c: Option<Counter>, now: int): Option<Counter> {
    if c.Some? && now < c.value.deadline then c else None
  }

  /** The script's effect on one key. A non-positive expiry deletes the key at once. */
  function AfterScript(c: Option<Counter>, window: int, now: int): Option<Counter> {
    match Live(c, now)
    case Some(live) => Some(Counter(live.count + 1, live.deadline))
    case None => if window > 0 then Some(Counter(1, now + window)) else None
  }

  /** The script's reply: the hit's number in its window, and the milliseconds the window has left. */
  function ScriptReply(c: Option<Counter>, window: int, now: int): (int, int) {
    match Live(c, now)
    case Some(live) => (live.count + 1, live.deadline - now)
    case None => (1, window)
  }

  function Millis(limit: Quota): int {
    if limit.window < 0 then -(-limit.window / NANOS_PER_MILLI) else limit.window / NANOS_PER_MILLI
  }

  function NextCounter(limit: Quota, c: Option<Counter>, now: int): Option<Counter> {
    if !limit.Enabled() then c else AfterScript(c, Millis(limit), now)
  }

  function CounterReply(limit: Quota, c: Option<Counter>, now: int): Reply {
    if !limit.Enabled() then ALLOWED
    else
      var (count, remaining) := ScriptReply(c, Millis(limit), now);
      if count <= limit.hits then ALLOWED
      else Reply(false, if remaining < 0 then 0 else remaining * NANOS_PER_MILLI)
  }

  class Dragonfly {
    var counters: map<string, Counter>

    constructor ()
      ensures counters == map[]
    {
      counters := map[];
    }

    function CounterOf(key: string): Option<Counter>
      reads this
    {
      if key in counters then Some(counters[key]) else None
    }

    /** The atomic script: increment, and on the first hit of a window set the expiry. */
    method RunScript(key: string, window: int, now: int) returns (count: int, remaining: int)
      modifies this
      ensures (count, remaining) == ScriptReply(old(CounterOf(key)), window, now)
      ensures CounterOf(key) == AfterScript(old(CounterOf(key)), window, now)
      ensures forall other :: other != key ==> CounterOf(other) == old(CounterOf(other))
    {
      if key in counters && now < counters[key].deadline {
        count := counters[key].count + 1;
      } else {
        count := 1;
      }
      if count == 1 && !(key in counters && now < counters[key].deadline) {
        counters := if window > 0 then counters[key := Counter(1, now + window)] else counters - {key};
        return count, window;
      }
      remaining := counters[key].deadline - now;
      counters := counters[key := Counter(count, counters[key].deadline)];
    }
  }

  /** The script call goes through, or fails before or after it took effect. */
  datatype ScriptCall = Answered | FailedUnapplied | FailedApplied

  class ZoneRateLimiter {
    const policy: Policy
    const store: Dragonfly

    constructor (policy: Policy, store: Dragonfly)
      ensures this.policy == policy && this.store == store
    {
      this.policy := policy;
      this.store := store;
    }

    /** One call of either service; no reply when the script call fails. Only the called zone's key changes. */
    method Acquire(zone: string, now: int, call: ScriptCall) returns (reply: Option<Reply>)
      modifies store
      ensures var limit, key := policy.Limit(zone), KEY_PREFIX + zone;
              && (reply.None? <==> limit.Enabled() && call != Answered)
              && (reply.Some? ==> reply.value == CounterReply(limit, old(store.CounterOf(key)), now))
              && store.CounterOf(key)
                 == if call == FailedUnapplied then old(store.CounterOf(key))
                    else NextCounter(limit, old(store.CounterOf(key)), now)
      ensures forall other :: other != KEY_PREFIX + zone ==> store.CounterOf(other) == old(store.CounterOf(other))
    {
      var limit := policy.Limit(zone);
      if !limit.Enabled() {
        return Some(ALLOWED);
      }
      if call == FailedUnapplied {
        return None;
      }
      var count, remaining := store.RunScript(KEY_PREFIX + zone, Millis(limit), now);
      if call == FailedApplied {
        return None;
      }
      if count <= limit.hits {
        return Some(ALLOWED);
      }
      var retryAfter := remaining * NANOS_PER_MILLI;
      if retryAfter < 0 {
        retryAfter := 0;
      }
      reply := Some(Reply(false, retryAfter));
    }
  }

  // ---------- the distributed form against the in-memory form ----------

  /** The counter after calls at the given milliseconds. */
  function CounterAfter(limit: Quota, times: seq<int>): Option<Counter> {
    if times == [] then None
    else NextCounter(limit, CounterAfter(limit, times[..|times| - 1]), times[|times| - 1])
  }

  function InNanos(times: seq<int>): seq<int> {
    seq(|times|, i requires 0 <= i < |times| => times[i] * NANOS_PER_MILLI)
  }

  lemma NanosOfFront(times: seq<int>)
    requires times != []
    ensures InNanos(times)[..|times| - 1] == InNanos(times[..|times| - 1])
    ensures InNanos(times)[|times| - 1] == times[|times| - 1] * NANOS_PER_MILLI
  {
  }

  predicate WholeMilliseconds(limit: Quota) {
    limit.window % NANOS_PER_MILLI == 0
  }

  /** Same window end, and the memory count is the counter capped at the quota. */
  ghost predicate Simulates(limit: Quota, w: Option<Window>, c: Option<Counter>) {
    match (w, c)
    case (None, None) => true
    case (Some(m), Some(d)) =>
      && m.start + limit.window == d.deadline * NANOS_PER_MILLI
      && m.count == (if d.count < limit.hits then d.count else limit.hits)
    case _ => false
  }

  lemma SimulationStep(limit: Quota, w: Option<Window>, c: Option<Counter>, now: int)
    requires limit.Enabled() && WholeMilliseconds(limit) && Simulates(limit, w, c)
    ensures ReplyTo(limit, w, now * NANOS_PER_MILLI) == CounterReply(limit, c, now)
    ensures Simulates(limit, NextWindow(limit, w, now * NANOS_PER_MILLI), NextCounter(limit, c, now))
  {
    assert limit.window == Millis(limit) * NANOS_PER_MILLI;
  }

  lemma {:induction false} SimulationHolds(limit: Quota, times: seq<int>)
    requires limit.Enabled() && WholeMilliseconds(limit)
    ensures Simulates(limit, WindowAfter(limit, InNanos(times)), CounterAfter(limit, times))
  {
    if times != [] {
      NanosOfFront(times);
      SimulationHolds(limit, times[..|times| - 1]);
      SimulationStep(limit, WindowAfter(limit, InNanos(times[..|times| - 1])),
                     CounterAfter(limit, times[..|times| - 1]), times[|times| - 1]);
    }
  }

  /** Both limiters give the next call the same answer. */
  predicate Agree(limit: Quota, times: seq<int>, now: int) {
    ReplyTo(limit, WindowAfter(limit, InNanos(times)), now * NANOS_PER_MILLI)
    == CounterReply(limit, CounterAfter(limit, times), now)
  }

  /** The quota used up at instant 0. */
  function Burst(n: nat): seq<int> {
    if n == 0 then [] else Burst(n - 1) + [0]
  }

  lemma {:induction false} BurstFillsTheWindow(limit: Quota, n: nat)
    requires limit.Enabled() && 0 < n <= limit.hits
    ensures WindowAfter(limit, InNanos(Burst(n))) == Some(Window(0, n))
    ensures CounterAfter(limit, Burst(n)) == if Millis(limit) > 0 then Some(Counter(n, Millis(limit))) else None
  {
    var times := Burst(n);
    assert times[..|times| - 1] == Burst(n - 1);
    NanosOfFront(times);
    if n > 1 {
      BurstFillsTheWindow(limit, n - 1);
    }
  }

  lemma {:induction false} BurstIsAtZero(n: nat)
    ensures |Burst(n)| == n && forall i :: 0 <= i < n ==> Burst(n)[i] == 0
  {
    if n > 0 {
      BurstIsAtZero(n - 1);
    }
  }

  /**
   * On every history with a non-decreasing clock both limiters answer alike, exactly when the
   * quota's window is a whole number of milliseconds.
   */
  lemma LimitersAgreeExactlyOnWholeMilliseconds(limit: Quota)
    requires limit.Enabled()
    ensures (forall times, now :: NonDecreasing(times + [now]) ==> Agree(limit, times, now))
        <==> WholeMilliseconds(limit)
  {
    if WholeMilliseconds(limit) {
      forall times, now ensures Agree(limit, times, now) {
        SimulationHolds(limit, times);
        SimulationStep(limit, WindowAfter(limit, InNanos(times)), CounterAfter(limit, times), now);
      }
    } else {
      var times, now := Burst(limit.hits), Millis(limit);
      BurstFillsTheWindow(limit, limit.hits);
      BurstIsAtZero(limit.hits);
      assert now * NANOS_PER_MILLI < limit.window;
      assert !ReplyTo(limit, WindowAfter(limit, InNanos(times)), now * NANOS_PER_MILLI).allowed;
      assert CounterReply(limit, CounterAfter(limit, times), now).allowed;
      assert NonDecreasing(times + [now]) && !Agree(limit, times, now);
    }
  }

  // ---------- which quota a zone gets ----------

  function ZoneCounter(counters: map<string, Counter>, zone: string): Option<Counter> {
    if KEY_PREFIX + zone in counters then Some(counters[KEY_PREFIX + zone]) else None
  }

  /** All counters after one more call of some zone. */
  function AfterCall(policy: Policy, counters: map<string, Counter>, call: Call): map<string, Counter> {
    match NextCounter(policy.Limit(call.zone), ZoneCounter(counters, call.zone), call.time)
    case None => counters - {KEY_PREFIX + call.zone}
    case Some(c) => counters[KEY_PREFIX + call.zone := c]
  }

  /** All counters after a history of calls to any zones, at milliseconds. */
  function CountersAfter(policy: Policy, calls: seq<Call>): map<string, Counter> {
    if calls == [] then map[] else AfterCall(policy, CountersAfter(policy, calls[..|calls| - 1]), calls[|calls| - 1])
  }

  /** The milliseconds at which calls of a zone were admitted. */
  function CounterAdmittedIn(policy: Policy, calls: seq<Call>, zone: string): seq<int> {
    if calls == [] then []
    else
      var front, call := calls[..|calls| - 1], calls[|calls| - 1];
      var current := ZoneCounter(CountersAfter(policy, front), zone);
      if call.zone == zone && CounterReply(policy.Limit(zone), current, call.time).allowed
      then CounterAdmittedIn(policy, front, zone) + [call.time]
      else CounterAdmittedIn(policy, front, zone)
  }

  /** The same under one quota. */
  function CounterAdmitted(limit: Quota, times: seq<int>): seq<int> {
    if times == [] then []
    else
      var front, now := times[..|times| - 1], times[|times| - 1];
      if CounterReply(limit, CounterAfter(limit, front), now).allowed then CounterAdmitted(limit, front) + [now]
      else CounterAdmitted(limit, front)
  }

  lemma ZoneKeysDiffer(zone: string, other: string)
    requires KEY_PREFIX + zone == KEY_PREFIX + other
    ensures zone == other
  {
    assert (KEY_PREFIX + zone)[|KEY_PREFIX|..] == zone && (KEY_PREFIX + other)[|KEY_PREFIX|..] == other;
  }

  /** A call changes the counter of its own zone and no other. */
  lemma OneCall(policy: Policy, counters: map<string, Counter>, call: Call, zone: string)
    ensures ZoneCounter(AfterCall(policy, counters, call), zone)
            == if call.zone == zone then NextCounter(policy.Limit(zone), ZoneCounter(counters, zone), call.time)
               else ZoneCounter(counters, zone)
  {
    if call.zone != zone && KEY_PREFIX + call.zone == KEY_PREFIX + zone {
      ZoneKeysDiffer(call.zone, zone);
    }
  }

  /** A zone's counter depends on its own calls and its own quota only. */
  lemma {:induction false} CountersAreIndependent(policy: Policy, calls: seq<Call>, zone: string)
    ensures ZoneCounter(CountersAfter(policy, calls), zone)
            == CounterAfter(policy.Limit(zone), TimesOf(calls, zone))
  {
    if calls != [] {
      var front, call := calls[..|calls| - 1], calls[|calls| - 1];
      CountersAreIndependent(policy, front, zone);
      OneCall(policy, CountersAfter(policy, front), call, zone);
      if call.zone == zone {
        var times := TimesOf(front, zone);
        assert (times + [call.time])[..|times|] == times;
      }
    }
  }

  lemma {:induction false} CounterAdmittedByItsLimit(policy: Policy, calls: seq<Call>, zone: string)
    ensures CounterAdmittedIn(policy, calls, zone) == CounterAdmitted(policy.Limit(zone), TimesOf(calls, zone))
  {
    if calls != [] {
      var front, call := calls[..|calls| - 1], calls[|calls| - 1];
      CounterAdmittedByItsLimit(policy, front, zone);
      CountersAreIndependent(policy, front, zone);
      if call.zone == zone {
        var times := TimesOf(front, zone);
        assert (times + [call.time])[..|times|] == times;
      }
    }
  }

  /** In milliseconds the counter behaves as a window of the truncated length. */
  function InMillis(limit: Quota): Quota {
    Quota(limit.hits, Millis(limit))
  }

  lemma {:induction false} CountsAsAWindow(limit: Quota, times: seq<int>)
    requires limit.Enabled() && Millis(limit) > 0
    ensures var w, c := WindowAfter(InMillis(limit), times), CounterAfter(limit, times);
            && (w.Some? <==> c.Some?)
            && (w.Some? ==>
                  && w.value.start + Millis(limit) == c.value.deadline
                  && w.value.count == (if c.value.count < limit.hits then c.value.count else limit.hits))
    ensures CounterAdmitted(limit, times) == Admitted(InMillis(limit), times)
  {
    if times != [] {
      CountsAsAWindow(limit, times[..|times| - 1]);
    }
  }

  lemma {:induction false} DisabledCountsNothing(limit: Quota, times: seq<int>)
    requires !limit.Enabled()
    ensures CounterAdmitted(limit, times) == times
  {
    if times != [] {
      SplitLast(times);
      DisabledCountsNothing(limit, times[..|times| - 1]);
    }
  }

  lemma CounterKeepsItsQuota(quota: Quota, times: seq<int>, lo: int, k: nat)
    requires quota.hits > 0 && Millis(quota) > 0 && NonDecreasing(times)
    ensures CountIn(CounterAdmitted(quota, times), lo, lo + k * Millis(quota)) <= (k + 1) * quota.hits
  {
    assert quota.window > 0;
    CountsAsAWindow(quota, times);
    IntervalBound(InMillis(quota), times, lo, k);
  }

  /** Over any history of all zones, the shared limiter holds a zone to its own quota. */
  lemma SharedLimiterKeepsZoneQuota(policy: Policy, calls: seq<Call>, zone: string, quota: Quota, lo: int, k: nat)
    requires QuotaOfZone(policy, zone, quota)
    ensures CounterAdmittedIn(policy, calls, zone) == CounterAdmitted(quota, TimesOf(calls, zone))
    ensures quota.hits > 0 && Millis(quota) > 0 && NonDecreasing(TimesOf(calls, zone)) ==>
              CountIn(CounterAdmittedIn(policy, calls, zone), lo, lo + k * Millis(quota)) <= (k + 1) * quota.hits
    ensures quota.hits <= 0 || quota.window <= 0 ==>
              CounterAdmittedIn(policy, calls, zone) == TimesOf(calls, zone)
  {
    CounterAdmittedByItsLimit(policy, calls, zone);
    if !quota.Enabled() {
      DisabledCountsNothing(quota, TimesOf(calls, zone));
    }
    if quota.hits > 0 && Millis(quota) > 0 && NonDecreasing(TimesOf(calls, zone)) {
      CounterKeepsItsQuota(quota, TimesOf(calls, zone), lo, k);
    }
  }

  // ---------- two services with different quotas on one key ----------

  /** A call to the shared key by a service with its own quota. */
  datatype SharedCall = SharedCall(limit: Quota, now: int)

  function SharedAfter(calls: seq<SharedCall>): Option<Counter> {
    if calls == [] then None
    else NextCounter(calls[|calls| - 1].limit, SharedAfter(calls[..|calls| - 1]), calls[|calls| - 1].now)
  }

  /** Admissions since the key was last created. */
  function AdmittedThisLifetime(calls: seq<SharedCall>): nat {
    if calls == [] then 0
    else
      var front, call := calls[..|calls| - 1], calls[|calls| - 1];
      var c := SharedAfter(front);
      var own := if CounterReply(call.limit, c, call.now).allowed then 1 else 0;
      if Live(c, call.now).Some? then AdmittedThisLifetime(front) + own else own
  }

  function LargestQuota(calls: seq<SharedCall>): int {
    if calls == [] then 0
    else
      var rest, hits := LargestQuota(calls[..|calls| - 1]), calls[|calls| - 1].limit.hits;
      if hits > rest then hits else rest
  }

  /** Within one lifetime of the key no more calls are admitted than the largest quota allows. */
  lemma {:induction false} SharedKeyKeepsTheLargerQuota(calls: seq<SharedCall>)
    requires forall call :: call in calls ==> call.limit.Enabled()
    ensures AdmittedThisLifetime(calls) <= LargestQuota(calls)
    ensures SharedAfter(calls).Some? ==> AdmittedThisLifetime(calls) <= SharedAfter(calls).value.count
  {
    if calls != [] {
      var front, call := calls[..|calls| - 1], calls[|calls| - 1];
      assert call in calls;
      forall c | c in front ensures c in calls {
      }
      SharedKeyKeepsTheLargerQuota(front);
    }
  }
}
