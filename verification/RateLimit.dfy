/**
 * Per-zone fixed-window quotas: the process-local limiter of the Worker, its bounds over whole
 * call histories, and how fast it lets blocked callers through. Durations are nanoseconds.
 */
module RateLimit {
  import opened Wrappers
  import opened Arithmetic

  datatype Quota = Quota(hits: int, window: int) {
    predicate Enabled() {
      hits > 0 && window > 0
    }
  }

  datatype Policy = Policy(fallback: Quota, overrides: map<string, Quota>) {
    function Limit(zone: string): Quota {
      if zone in overrides then overrides[zone] else fallback
    }
  }

  /** One zone's current window. */
  datatype Window = Window(start: int, count: int)

  datatype Reply = Reply(allowed: bool, retryAfter: int)

  /** The limiter turns its caller away; a failed call, which has no reply, lets it through. */
  predicate Blocks(answer: Option<Reply>) {
    answer.Some? && !answer.value.allowed
  }

  const ALLOWED := Reply(true, 0)

  // ---------- one call ----------

  predicate Expired(limit: Quota, w: Option<Window>, now: int) {
    w.None? || now - w.value.start >= limit.window
  }

  function NextWindow(limit: Quota, w: Option<Window>, now: int): Option<Window> {
    if !limit.Enabled() then w
    else if Expired(limit, w, now) then Some(Window(now, 1))
    else if w.value.count >= limit.hits then w
    else Some(Window(w.value.start, w.value.count + 1))
  }

  function ReplyTo(limit: Quota, w: Option<Window>, now: int): Reply {
    if !limit.Enabled() || Expired(limit, w, now) || w.value.count < limit.hits then ALLOWED
    else Reply(false, w.value.start + limit.window - now)
  }

  class InMemoryZoneRateLimiter {
    const policy: Policy
    var windows: map<string, Window>

    constructor (policy: Policy)
      ensures this.policy == policy && windows == map[]
    {
      this.policy := policy;
      windows := map[];
    }

    function WindowOf(zone: string): Option<Window>
      reads this
    {
      if zone in windows then Some(windows[zone]) else None
    }

    /** One call under the mutex: only the called zone's window changes. */
    method Acquire(zone: string, now: int) returns (reply: Reply)
      modifies this
      ensures reply == ReplyTo(policy.Limit(zone), old(WindowOf(zone)), now)
      ensures WindowOf(zone) == NextWindow(policy.Limit(zone), old(WindowOf(zone)), now)
      ensures forall other :: other != zone ==> WindowOf(other) == old(WindowOf(other))
    {
      var limit := policy.Limit(zone);
      if !limit.Enabled() {
        return ALLOWED;
      }
      if zone !in windows || now - windows[zone].start >= limit.window {
        windows := windows[zone := Window(now, 1)];
        return ALLOWED;
      }
      var window := windows[zone];
      if window.count >= limit.hits {
        return Reply(false, window.start + limit.window - now);
      }
      windows := windows[zone := Window(window.start, window.count + 1)];
      reply := ALLOWED;
    }
  }

  // ---------- histories of one zone ----------

  /** The zone's window after calls at the given times. */
  function WindowAfter(limit: Quota, times: seq<int>): Option<Window> {
    if times == [] then None
    else NextWindow(limit, WindowAfter(limit, times[..|times| - 1]), times[|times| - 1])
  }

  /** The times at which a call was admitted. */
  function Admitted(limit: Quota, times: seq<int>): seq<int> {
    if times == [] then []
    else
      var front, now := times[..|times| - 1], times[|times| - 1];
      if ReplyTo(limit, WindowAfter(limit, front), now).allowed then Admitted(limit, front) + [now]
      else Admitted(limit, front)
  }

  ghost predicate NonDecreasing(times: seq<int>) {
    forall i, j :: 0 <= i <= j < |times| ==> times[i] <= times[j]
  }

  /** How many of the times lie in [lo, hi). */
  function CountIn(times: seq<int>, lo: int, hi: int): nat {
    if times == [] then 0
    else CountIn(times[..|times| - 1], lo, hi) + (if lo <= times[|times| - 1] < hi then 1 else 0)
  }

  lemma CountOneMore(times: seq<int>, now: int, lo: int, hi: int)
    ensures CountIn(times + [now], lo, hi) == CountIn(times, lo, hi) + (if lo <= now < hi then 1 else 0)
  {
    assert (times + [now])[..|times|] == times;
  }

  lemma FrontIsNonDecreasing(times: seq<int>)
    requires times != [] && NonDecreasing(times)
    ensures NonDecreasing(times[..|times| - 1])
    ensures forall i :: 0 <= i < |times| ==> times[i] <= times[|times| - 1]
  {
  }

  /** Admitted calls are no later than the last call, and none lies before a bound all calls exceed. */
  lemma {:induction false} NothingAfterTheLastCall(limit: Quota, times: seq<int>, lo: int, hi: int)
    requires forall i :: 0 <= i < |times| ==> times[i] < lo
    ensures CountIn(Admitted(limit, times), lo, hi) == 0
  {
    if times != [] {
      var front, now := times[..|times| - 1], times[|times| - 1];
      NothingAfterTheLastCall(limit, front, lo, hi);
      CountOneMore(Admitted(limit, front), now, lo, hi);
    }
  }

  /** The current window holds between one call and the quota, and started no later than the last call. */
  lemma {:induction false} WindowShape(limit: Quota, times: seq<int>)
    requires limit.Enabled() && times != [] && NonDecreasing(times)
    ensures var w := WindowAfter(limit, times);
            w.Some? && 1 <= w.value.count <= limit.hits
                && w.value.start <= times[|times| - 1] < w.value.start + limit.window
  {
    var front := times[..|times| - 1];
    if front != [] {
      FrontIsNonDecreasing(times);
      WindowShape(limit, front);
    }
  }

  /** A blocked call is told to come back within one window, never at once. */
  lemma RetryIsPositive(limit: Quota, times: seq<int>, now: int)
    requires limit.Enabled() && NonDecreasing(times + [now])
    ensures var reply := ReplyTo(limit, WindowAfter(limit, times), now);
            reply.allowed || 0 < reply.retryAfter <= limit.window
  {
    if times != [] {
      var all := times + [now];
      assert all[..|times|] == times;
      assert NonDecreasing(times) by {
        forall i, j | 0 <= i <= j < |times| ensures times[i] <= times[j] {
          assert all[i] <= all[j];
        }
      }
      assert all[|times| - 1] <= all[|times|];
      WindowShape(limit, times);
    }
  }

  /** The count of the current window is the number of calls admitted since it started. */
  lemma {:induction false} WindowCountsItsAdmissions(limit: Quota, times: seq<int>, hi: int)
    requires limit.Enabled() && times != [] && NonDecreasing(times) && times[|times| - 1] < hi
    ensures var w := WindowAfter(limit, times);
            w.Some? && CountIn(Admitted(limit, times), w.value.start, hi) == w.value.count <= limit.hits
  {
    var front, now := times[..|times| - 1], times[|times| - 1];
    FrontIsNonDecreasing(times);
    WindowShape(limit, times);
    var w := WindowAfter(limit, front);
    if front != [] {
      WindowCountsItsAdmissions(limit, front, hi);
      WindowShape(limit, front);
    }
    CountOneMore(Admitted(limit, front), now, now, hi);
    if w.Some? {
      CountOneMore(Admitted(limit, front), now, w.value.start, hi);
    }
    if Expired(limit, w, now) {
      if front != [] {
        NothingAfterTheLastCall(limit, front, now, hi);
      } else {
        assert CountIn(Admitted(limit, front), now, hi) == 0;
      }
    }
  }

  // ---------- the bound over any interval ----------

  /**
   * Admissions from lo on come from n windows; all but the current one may be full, and n windows
   * that reach beyond lo push the start of the current one past lo + (n - 2) * window.
   */
  ghost predicate Spread(limit: Quota, n: nat, admitted: nat, w: Option<Window>, lo: int) {
    if n == 0 then admitted == 0
    else
      && w.Some?
      && admitted <= (n - 1) * limit.hits + w.value.count
      && w.value.start > lo + (n - 2) * limit.window
  }

  lemma SpreadToNewWindow(limit: Quota, n: nat, admitted: nat, w: Option<Window>, lo: int, now: int)
    requires limit.Enabled() && Spread(limit, n, admitted, w, lo) && Expired(limit, w, now) && now >= lo
    requires w.Some? ==> w.value.count <= limit.hits
    ensures Spread(limit, n + 1, admitted + 1, Some(Window(now, 1)), lo)
  {
    if n > 0 {
      assert n * limit.hits == (n - 1) * limit.hits + limit.hits;
      assert (n - 1) * limit.window == (n - 2) * limit.window + limit.window;
    }
  }

  lemma SpreadInWindow(limit: Quota, n: nat, admitted: nat, w: Window, lo: int, now: int)
    requires limit.Enabled() && Spread(limit, n, admitted, Some(w), lo) && !Expired(limit, Some(w), now) && now >= lo
    requires w.count >= 0
    ensures Spread(limit, if n == 0 then 1 else n, admitted + 1, Some(Window(w.start, w.count + 1)), lo)
  {
  }

  /** One more call keeps the admissions spread out. */
  lemma SpreadAfterCall(limit: Quota, n: nat, admitted: nat, w: Option<Window>, lo: int, now: int) returns (after: nat)
    requires limit.Enabled() && Spread(limit, n, admitted, w, lo) && now >= lo
    requires w.Some? ==> 1 <= w.value.count <= limit.hits
    ensures Spread(limit, after, admitted + (if ReplyTo(limit, w, now).allowed then 1 else 0),
                   NextWindow(limit, w, now), lo)
  {
    if Expired(limit, w, now) {
      SpreadToNewWindow(limit, n, admitted, w, lo, now);
      after := n + 1;
    } else if w.value.count < limit.hits {
      SpreadInWindow(limit, n, admitted, w.value, lo, now);
      after := if n == 0 then 1 else n;
    } else {
      after := n;
    }
  }

  /** The same for the times admitted before it. */
  lemma SpreadAfterTimes(limit: Quota, n: nat, admitted: seq<int>, w: Option<Window>, lo: int, hi: int, now: int)
    returns (after: nat)
    requires limit.Enabled() && Spread(limit, n, CountIn(admitted, lo, hi), w, lo) && lo <= now < hi
    requires w.Some? ==> 1 <= w.value.count <= limit.hits
    ensures Spread(limit, after,
                   CountIn(if ReplyTo(limit, w, now).allowed then admitted + [now] else admitted, lo, hi),
                   NextWindow(limit, w, now), lo)
  {
    CountOneMore(admitted, now, lo, hi);
    after := SpreadAfterCall(limit, n, CountIn(admitted, lo, hi), w, lo, now);
  }

  lemma {:induction false} WindowsSpreadOut(limit: Quota, times: seq<int>, lo: int, hi: int) returns (n: nat)
    requires limit.Enabled() && NonDecreasing(times)
    requires forall i :: 0 <= i < |times| ==> times[i] < hi
    ensures Spread(limit, n, CountIn(Admitted(limit, times), lo, hi), WindowAfter(limit, times), lo)
  {
    if times == [] {
      return 0;
    }
    var front, now := times[..|times| - 1], times[|times| - 1];
    FrontIsNonDecreasing(times);
    if now < lo {
      NothingAfterTheLastCall(limit, times, lo, hi);
      return 0;
    }
    var before := WindowsSpreadOut(limit, front, lo, hi);
    if front != [] {
      WindowShape(limit, front);
    }
    n := SpreadAfterTimes(limit, before, Admitted(limit, front), WindowAfter(limit, front), lo, hi, now);
  }

  /** At most (k + 1) * hits calls of a zone are admitted in any half-open interval of k windows. */
  lemma {:induction false} IntervalBound(limit: Quota, times: seq<int>, lo: int, k: nat)
    requires limit.Enabled() && NonDecreasing(times)
    ensures CountIn(Admitted(limit, times), lo, lo + k * limit.window) <= (k + 1) * limit.hits
  {
    var hi := lo + k * limit.window;
    if times != [] && times[|times| - 1] >= hi {
      var front, now := times[..|times| - 1], times[|times| - 1];
      FrontIsNonDecreasing(times);
      IntervalBound(limit, front, lo, k);
      CountOneMore(Admitted(limit, front), now, lo, hi);
    } else {
      var n := WindowsSpreadOut(limit, times, lo, hi);
      if n > 0 {
        WindowShape(limit, times);
        assert lo + (n - 2) * limit.window < hi;
        FewWindowsFit(n - 2, k, limit.window);
        MonotoneProduct(n, k + 1, limit.hits);
        assert n * limit.hits == (n - 1) * limit.hits + limit.hits;
      } else {
        MonotoneProduct(0, k + 1, limit.hits);
      }
    }
  }

  lemma FewWindowsFit(m: int, k: int, window: int)
    requires window > 0 && m * window < k * window
    ensures m < k
  {
    if m >= k {
      MonotoneProduct(k, m, window);
    }
  }

  // ---------- zones are independent ----------

  datatype Call = Call(zone: string, time: int)

  /** All windows after a history of calls to any zones. */
  function WindowsAfter(policy: Policy, calls: seq<Call>): map<string, Window> {
    if calls == [] then map[]
    else
      var before, call := WindowsAfter(policy, calls[..|calls| - 1]), calls[|calls| - 1];
      var current := if call.zone in before then Some(before[call.zone]) else None;
      match NextWindow(policy.Limit(call.zone), current, call.time)
      case None => before
      case Some(w) => before[call.zone := w]
  }

  function TimesOf(calls: seq<Call>, zone: string): seq<int> {
    if calls == [] then []
    else
      var front, call := TimesOf(calls[..|calls| - 1], zone), calls[|calls| - 1];
      if call.zone == zone then front + [call.time] else front
  }

  /** A zone's window depends on its own calls only, so its replies do too. */
  lemma {:induction false} ZonesAreIndependent(policy: Policy, calls: seq<Call>, zone: string)
    ensures var windows := WindowsAfter(policy, calls);
            (if zone in windows then Some(windows[zone]) else None)
                == WindowAfter(policy.Limit(zone), TimesOf(calls, zone))
  {
    if calls != [] {
      var front, call := calls[..|calls| - 1], calls[|calls| - 1];
      ZonesAreIndependent(policy, front, zone);
      if call.zone == zone {
        var times := TimesOf(front, zone);
        assert (times + [call.time])[..|times|] == times;
      }
    }
  }

  // ---------- which quota a zone gets ----------

  /** The times at which calls of a zone were admitted, in a history of calls to any zones. */
  function AdmittedIn(policy: Policy, calls: seq<Call>, zone: string): seq<int> {
    if calls == [] then []
    else
      var front, call := calls[..|calls| - 1], calls[|calls| - 1];
      var windows := WindowsAfter(policy, front);
      var current := if call.zone in windows then Some(windows[call.zone]) else None;
      if call.zone == zone && ReplyTo(policy.Limit(zone), current, call.time).allowed
      then AdmittedIn(policy, front, zone) + [call.time]
      else AdmittedIn(policy, front, zone)
  }

  lemma {:induction false} AdmittedByItsLimit(policy: Policy, calls: seq<Call>, zone: string)
    ensures AdmittedIn(policy, calls, zone) == Admitted(policy.Limit(zone), TimesOf(calls, zone))
  {
    if calls != [] {
      var front, call := calls[..|calls| - 1], calls[|calls| - 1];
      AdmittedByItsLimit(policy, front, zone);
      ZonesAreIndependent(policy, front, zone);
      if call.zone == zone {
        var times := TimesOf(front, zone);
        assert (times + [call.time])[..|times|] == times;
      }
    }
  }

  lemma {:induction false} DisabledAdmitsAll(limit: Quota, times: seq<int>)
    requires !limit.Enabled()
    ensures Admitted(limit, times) == times
  {
    if times != [] {
      SplitLast(times);
      DisabledAdmitsAll(limit, times[..|times| - 1]);
    }
  }

  /** The quota that decides about a zone: its override, else the default. */
  ghost predicate QuotaOfZone(policy: Policy, zone: string, quota: Quota) {
    if zone in policy.overrides then quota == policy.overrides[zone] else quota == policy.fallback
  }

  /**
   * Over any history of all zones a zone's calls are admitted as its own quota alone decides: at most
   * (k + 1) * hits in k windows, and all of them when it is disabled.
   */
  lemma ZoneKeepsItsQuota(policy: Policy, calls: seq<Call>, zone: string, quota: Quota, lo: int, k: nat)
    requires QuotaOfZone(policy, zone, quota)
    ensures AdmittedIn(policy, calls, zone) == Admitted(quota, TimesOf(calls, zone))
    ensures quota.hits > 0 && quota.window > 0 && NonDecreasing(TimesOf(calls, zone)) ==>
              CountIn(AdmittedIn(policy, calls, zone), lo, lo + k * quota.window) <= (k + 1) * quota.hits
    ensures quota.hits <= 0 || quota.window <= 0 ==> AdmittedIn(policy, calls, zone) == TimesOf(calls, zone)
  {
    AdmittedByItsLimit(policy, calls, zone);
    if !quota.Enabled() {
      DisabledAdmitsAll(quota, TimesOf(calls, zone));
    } else if NonDecreasing(TimesOf(calls, zone)) {
      IntervalBound(quota, TimesOf(calls, zone), lo, k);
    }
  }

  /** Policies that differ only in the overrides of other zones admit the same calls of this one. */
  lemma OtherOverridesDoNotMatter(p: Policy, q: Policy, calls: seq<Call>, zone: string)
    requires p.fallback == q.fallback && (zone in p.overrides <==> zone in q.overrides)
    requires zone in p.overrides ==> p.overrides[zone] == q.overrides[zone]
    ensures AdmittedIn(p, calls, zone) == AdmittedIn(q, calls, zone)
  {
    AdmittedByItsLimit(p, calls, zone);
    AdmittedByItsLimit(q, calls, zone);
  }

  // ---------- blocked callers ----------

  /** Every caller blocked in one full window wakes at the same instant, its end. */
  lemma BlockedCallersWakeTogether(limit: Quota, w: Window, now: int)
    requires limit.Enabled() && !ReplyTo(limit, Some(w), now).allowed
    ensures now + ReplyTo(limit, Some(w), now).retryAfter == w.start + limit.window
  {
  }

  /** Callers one after another: the window they leave, and the instants the blocked ones are told to come back at. */
  function Wave(limit: Quota, w: Option<Window>, arrivals: seq<int>): (Option<Window>, seq<int>) {
    if arrivals == [] then (w, [])
    else
      var now := arrivals[|arrivals| - 1];
      var (before, wakes) := Wave(limit, w, arrivals[..|arrivals| - 1]);
      var reply := ReplyTo(limit, before, now);
      (NextWindow(limit, before, now), if reply.allowed then wakes else wakes + [now + reply.retryAfter])
  }

  /** Wave after wave without newcomers: each wave arrives at the instants the one before was told. */
  function AfterWaves(limit: Quota, w: Option<Window>, arrivals: seq<int>, k: nat): (Option<Window>, seq<int>) {
    if k == 0 then (w, arrivals)
    else
      var (before, waiting) := AfterWaves(limit, w, arrivals, k - 1);
      Wave(limit, before, waiting)
  }

  ghost predicate AllAt(times: seq<int>, t: int) {
    forall i :: 0 <= i < |times| ==> times[i] == t
  }

  /** In a full window every caller is blocked, and told to come back at its end. */
  lemma {:induction false} FullWindowBlocksAll(limit: Quota, w: Window, arrivals: seq<int>)
    requires limit.Enabled() && w.count >= limit.hits
    requires forall i :: 0 <= i < |arrivals| ==> w.start <= arrivals[i] < w.start + limit.window
    ensures Wave(limit, Some(w), arrivals).0 == Some(w) && |Wave(limit, Some(w), arrivals).1| == |arrivals|
    ensures AllAt(Wave(limit, Some(w), arrivals).1, w.start + limit.window)
  {
    if arrivals != [] {
      FullWindowBlocksAll(limit, w, arrivals[..|arrivals| - 1]);
      BlockedCallersWakeTogether(limit, w, arrivals[|arrivals| - 1]);
    }
  }

  /** Once the window is over, exactly hits callers get through and the rest are told to come back a window later. */
  lemma {:induction false} WaveAdmitsTheQuota(limit: Quota, w: Option<Window>, arrivals: seq<int>, now: int)
    requires limit.Enabled() && Expired(limit, w, now) && arrivals != [] && AllAt(arrivals, now)
    ensures var (after, wakes) := Wave(limit, w, arrivals);
            && after == Some(Window(now, if |arrivals| <= limit.hits then |arrivals| else limit.hits))
            && |wakes| == (if |arrivals| <= limit.hits then 0 else |arrivals| - limit.hits)
            && AllAt(wakes, now + limit.window)
  {
    var front := arrivals[..|arrivals| - 1];
    if front != [] {
      WaveAdmitsTheQuota(limit, w, front, now);
      var before := Wave(limit, w, front).0;
      if !ReplyTo(limit, before, now).allowed {
        BlockedCallersWakeTogether(limit, before.value, now);
      }
    }
  }

  /** After k waves from the end of a window on, k quotas of the callers are through. */
  ghost predicate Drained(limit: Quota, n: nat, end: int, k: nat, w: Option<Window>, waiting: seq<int>) {
    && |waiting| == (if n <= k * limit.hits then 0 else n - k * limit.hits)
    && AllAt(waiting, end + k * limit.window)
    && (waiting != [] ==> Expired(limit, w, end + k * limit.window))
  }

  lemma OneMoreWave(limit: Quota, n: nat, end: int, k: nat, w: Option<Window>, waiting: seq<int>)
    requires limit.Enabled() && Drained(limit, n, end, k, w, waiting)
    ensures Drained(limit, n, end, k + 1, Wave(limit, w, waiting).0, Wave(limit, w, waiting).1)
  {
    assert (k + 1) * limit.hits == k * limit.hits + limit.hits;
    assert (k + 1) * limit.window == k * limit.window + limit.window;
    if waiting != [] {
      WaveAdmitsTheQuota(limit, w, waiting, end + k * limit.window);
    }
  }

  lemma {:induction false} WavesDrain(limit: Quota, w: Window, arrivals: seq<int>, k: nat)
    requires limit.Enabled() && w.count >= limit.hits
    requires forall i :: 0 <= i < |arrivals| ==> w.start <= arrivals[i] < w.start + limit.window
    ensures var (after, waiting) := AfterWaves(limit, Some(w), arrivals, k + 1);
            Drained(limit, |arrivals|, w.start + limit.window, k, after, waiting)
  {
    if k == 0 {
      FullWindowBlocksAll(limit, w, arrivals);
      assert AfterWaves(limit, Some(w), arrivals, 0) == (Some(w), arrivals);
    } else {
      WavesDrain(limit, w, arrivals, k - 1);
      var (before, waiting) := AfterWaves(limit, Some(w), arrivals, k);
      OneMoreWave(limit, |arrivals|, w.start + limit.window, k - 1, before, waiting);
    }
  }

  function CeilDiv(n: nat, d: nat): nat
    requires d > 0
  {
    (n + d - 1) / d
  }

  /** The rounded-up quotient is the least number of quotas that covers n. */
  lemma CeilDivIsLeast(n: nat, d: nat, k: nat)
    requires d > 0
    ensures n <= k * d <==> k >= CeilDiv(n, d)
  {
    var q, r := (n + d - 1) / d, (n + d - 1) % d;
    assert n + d - 1 == d * q + r;
    if k >= q {
      MonotoneProduct(q, k, d);
    } else {
      MonotoneProduct(k + 1, q, d);
      assert (k + 1) * d == k * d + d;
    }
  }

  /**
   * Callers blocked at any instants of a full window, with no newcomers and each coming back when told:
   * those left after k waves from its end come back k windows after it, and nobody is left exactly when
   * k is at least ceil(n / hits).
   */
  lemma BlockedCallersDrain(limit: Quota, w: Window, arrivals: seq<int>, k: nat)
    requires limit.Enabled() && w.count >= limit.hits
    requires forall i :: 0 <= i < |arrivals| ==> w.start <= arrivals[i] < w.start + limit.window
    ensures AllAt(AfterWaves(limit, Some(w), arrivals, k + 1).1, w.start + limit.window + k * limit.window)
    ensures AfterWaves(limit, Some(w), arrivals, k + 1).1 == [] <==> k >= CeilDiv(|arrivals|, limit.hits)
  {
    WavesDrain(limit, w, arrivals, k);
    CeilDivIsLeast(|arrivals|, limit.hits, k);
  }
}
