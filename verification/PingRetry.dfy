/** Retry scheduling of the ping monitor (internal/ctrl/ping_monitor.go): fixed two-second retries,
    then arithmetic back-off, then hand-over to the refresh cycle. Times are nanoseconds. */
module PingRetry {
  import opened NetAddr

  const SECOND := 1_000_000_000
  const FIXED_INTERVAL := 2 * SECOND
  const STEP := 5 * SECOND

  /** The validated configuration: refresh_interval is at least one second. */
  datatype Config = Config(fixedRetries: nat, refresh: nat)

  predicate ValidConfig(c: Config) {
    c.refresh >= SECOND
  }

  /** The per-peer fields that retries use; a zero time is None. */
  datatype Peer = Peer(
    isHealthy: bool, failureCount: nat, retryCount: nat, nextRetry: Option<int>, handedOver: bool, lastSent: Option<int>)

  const HEALTHY := Peer(true, 0, 0, None, false, None)

  predicate ShouldRetry(p: Peer, now: int) {
    if p.retryCount == 0 then true
    else if p.handedOver then false
    else p.nextRetry.None? || now > p.nextRetry.value
  }

  function Schedule(p: Peer, c: Config, now: int): Peer {
    var n := p.retryCount + 1;
    if n <= c.fixedRetries then
      p.(retryCount := n, nextRetry := Some(now + FIXED_INTERVAL))
    else
      var interval := STEP + (n - c.fixedRetries - 1) * STEP;
      if interval >= c.refresh then p.(retryCount := n, handedOver := true, nextRetry := None)
      else p.(retryCount := n, nextRetry := Some(now + interval))
  }

  /** A failed ping's effect; the second component says whether publish and establish were triggered. */
  function AfterFailure(p: Peer, c: Config, now: int): (Peer, bool) {
    var failed := p.(isHealthy := false, failureCount := p.failureCount + 1);
    if ShouldRetry(p, now) then (Schedule(failed, c, now), true) else (failed, false)
  }

  /** The monitor's state of one peer; methods run under its mutex. */
  class PeerPingState {
    var isHealthy: bool
    var failureCount: nat
    var retryCount: nat
    var nextRetryTime: Option<int>
    var handedOverToRefresh: bool
    var lastSentTime: Option<int>

    ghost function View(): Peer
      reads this
    {
      Peer(isHealthy, failureCount, retryCount, nextRetryTime, handedOverToRefresh, lastSentTime)
    }

    constructor ()
      ensures View() == HEALTHY
    {
      isHealthy, failureCount, retryCount := true, 0, 0;
      nextRetryTime, handedOverToRefresh, lastSentTime := None, false, None;
    }

    method ScheduleNextRetry(c: Config, now: int)
      modifies this
      ensures View() == Schedule(old(View()), c, now)
    {
      retryCount := retryCount + 1;
      if retryCount <= c.fixedRetries {
        nextRetryTime := Some(now + FIXED_INTERVAL);
      } else {
        var afterFixed := retryCount - c.fixedRetries;
        var interval := STEP + (afterFixed - 1) * STEP;
        if interval >= c.refresh {
          handedOverToRefresh := true;
          nextRetryTime := None;
        } else {
          nextRetryTime := Some(now + interval);
        }
      }
    }

    /** A success forgets the outage; a failure may trigger. */
    method HandlePingResult(c: Config, success: bool, now: int) returns (triggered: bool)
      modifies this
      ensures success ==> !triggered && View() == HEALTHY
      ensures isHealthy == success && failureCount == if success then 0 else old(failureCount) + 1
      ensures success ==> retryCount == 0 && nextRetryTime == None && !handedOverToRefresh && lastSentTime == None
      ensures !success ==> (View(), triggered) == AfterFailure(old(View()), c, now)
    {
      triggered := false;
      if success {
        isHealthy, failureCount, retryCount := true, 0, 0;
        handedOverToRefresh, nextRetryTime, lastSentTime := false, None, None;
      } else {
        triggered := retryCount == 0
          || (!handedOverToRefresh && (nextRetryTime.None? || now > nextRetryTime.value));
        isHealthy := false;
        failureCount := failureCount + 1;
        if triggered {
          ScheduleNextRetry(c, now);
        }
      }
    }
  }

  // ---------------------------------------------------------------- an outage

  /** The trigger times of an unbroken run of failed pings. */
  function Triggers(p: Peer, c: Config, times: seq<int>): seq<int>
    decreases |times|
  {
    if times == [] then []
    else
      var (next, triggered) := AfterFailure(p, c, times[0]);
      (if triggered then [times[0]] else []) + Triggers(next, c, times[1..])
  }

  /** Retries before hand-over: all fixed ones, then one per started five seconds of the refresh
      interval. */
  function Budget(c: Config): nat {
    c.fixedRetries + (c.refresh + STEP - 1) / STEP
  }

  /** The wait after the n-th trigger. */
  function Gap(c: Config, n: nat): nat {
    if n <= c.fixedRetries then FIXED_INTERVAL else STEP * (n - c.fixedRetries)
  }

  /** The waits after the first n triggers, added up. */
  function GapSum(c: Config, n: nat): nat {
    if n == 0 then 0 else GapSum(c, n - 1) + Gap(c, n)
  }

  /** The n-th trigger happened at `last`, and the state says when the next one is due. */
  ghost predicate Scheduled(p: Peer, c: Config, n: nat, last: int) {
    && 1 <= n <= Budget(c)
    && p.retryCount == n
    && (p.handedOver <==> n == Budget(c))
    && (!p.handedOver ==> p.nextRetry == Some(last + Gap(c, n)))
  }

  /** The hand-over test fires exactly at the budget. */
  lemma HandOverPoint(c: Config, n: nat)
    requires ValidConfig(c) && n > c.fixedRetries
    ensures 5_000_000_000 * (n - c.fixedRetries) >= c.refresh <==> n >= Budget(c)
  {
    var m, q := n - c.fixedRetries, (c.refresh + STEP - 1) / STEP;
    assert STEP * q <= c.refresh + STEP - 1 < STEP * (q + 1);
    if m >= q {
      assert STEP * m >= STEP * q;
    } else {
      assert STEP * m <= STEP * (q - 1);
    }
  }

  lemma ScheduleAdvances(p: Peer, c: Config, now: int)
    requires ValidConfig(c) && p.retryCount < Budget(c) && !p.handedOver
    ensures Scheduled(Schedule(p, c, now), c, p.retryCount + 1, now)
  {
    var n := p.retryCount + 1;
    if n > c.fixedRetries {
      HandOverPoint(c, n);
    } else {
      assert (c.refresh + STEP - 1) / STEP >= 1;
    }
  }

  // ---------------------------------------------------------------- what every outage obeys

  ghost predicate Dense(prev: int, times: seq<int>, d: nat) {
    && (times != [] ==> times[0] <= prev + d)
    && forall i :: 0 <= i < |times| - 1 ==> times[i + 1] <= times[i] + d
  }

  /** The time of the last trigger, `last` when there was none. */
  function LastOf(out: seq<int>, last: int): int {
    if out == [] then last else out[|out| - 1]
  }

  /** Each trigger comes after the previous one's due time ... */
  ghost predicate Spaced(c: Config, n: nat, last: int, out: seq<int>)
    decreases |out|
  {
    out == [] || (out[0] > last + Gap(c, n) && Spaced(c, n + 1, out[0], out[1..]))
  }

  /** ... and at most `d` after it. */
  ghost predicate Prompt(c: Config, n: nat, last: int, out: seq<int>, d: nat)
    decreases |out|
  {
    out == [] || (out[0] <= last + Gap(c, n) + d && Prompt(c, n + 1, out[0], out[1..], d))
  }

  /** Short of the budget, no failure came after the due time of the last trigger. */
  ghost predicate Complete(c: Config, n: nat, last: int, out: seq<int>, times: seq<int>) {
    n + |out| < Budget(c) ==>
      forall i :: 0 <= i < |times| ==> times[i] <= LastOf(out, last) + Gap(c, n + |out|)
  }

  lemma {:induction false} SpacedGrows(c: Config, n: nat, last: int, out: seq<int>)
    requires Spaced(c, n, last, out)
    ensures LastOf(out, last) >= last
    decreases |out|
  {
    if out != [] {
      SpacedGrows(c, n + 1, out[0], out[1..]);
      assert LastOf(out, last) == LastOf(out[1..], out[0]);
    }
  }

  lemma {:induction false} SpacedSum(c: Config, n: nat, last: int, out: seq<int>, i: nat)
    requires n >= 1 && Spaced(c, n, last, out) && i < |out|
    ensures out[i] >= last + GapSum(c, n + i) - GapSum(c, n - 1)
    decreases i
  {
    assert GapSum(c, n) == GapSum(c, n - 1) + Gap(c, n);
    if i > 0 {
      SpacedSum(c, n + 1, out[0], out[1..], i - 1);
    }
  }

  /** n delays of d, added up. */
  function Delays(n: nat, d: nat): nat {
    if n == 0 then 0 else Delays(n - 1, d) + d
  }

  lemma {:induction false} DelaysAreProduct(n: nat, d: nat)
    ensures Delays(n, d) == n * d
  {
    if n > 0 {
      DelaysAreProduct(n - 1, d);
      assert n * d == (n - 1) * d + d;
    }
  }

  lemma {:induction false} DelaysGrow(m: nat, n: nat, d: nat)
    requires m <= n
    ensures Delays(m, d) <= Delays(n, d)
    decreases n - m
  {
    if m < n {
      DelaysGrow(m, n - 1, d);
    }
  }

  lemma {:induction false} PromptSum(c: Config, n: nat, last: int, out: seq<int>, d: nat)
    requires n >= 1 && Prompt(c, n, last, out, d)
    ensures LastOf(out, last) <= last + GapSum(c, n + |out| - 1) - GapSum(c, n - 1) + Delays(|out|, d)
    decreases |out|
  {
    if out != [] {
      assert GapSum(c, n) == GapSum(c, n - 1) + Gap(c, n);
      PromptSum(c, n + 1, out[0], out[1..], d);
      assert LastOf(out, last) == LastOf(out[1..], out[0]);
    }
  }

  lemma {:induction false} GapSumGrows(c: Config, m: nat, n: nat)
    requires m <= n
    ensures GapSum(c, m) <= GapSum(c, n)
    decreases n - m
  {
    if m < n {
      GapSumGrows(c, m, n - 1);
    }
  }

  lemma CompleteTriggered(c: Config, n: nat, last: int, later: seq<int>, times: seq<int>)
    requires times != [] && Complete(c, n + 1, times[0], later, times[1..])
    requires Spaced(c, n + 1, times[0], later)
    ensures Complete(c, n, last, [times[0]] + later, times)
  {
    var out := [times[0]] + later;
    SpacedGrows(c, n + 1, times[0], later);
    assert LastOf(out, last) == LastOf(later, times[0]);
    assert forall i :: 1 <= i < |times| ==> times[i] == times[1..][i - 1];
  }

  lemma CompleteUntriggered(c: Config, n: nat, last: int, out: seq<int>, times: seq<int>)
    requires times != [] && Complete(c, n, last, out, times[1..]) && Spaced(c, n, last, out)
    requires n < Budget(c) ==> times[0] <= last + Gap(c, n)
    ensures Complete(c, n, last, out, times)
  {
    if out != [] {
      SpacedGrows(c, n + 1, out[0], out[1..]);
      assert LastOf(out, last) == LastOf(out[1..], out[0]);
    }
    assert forall i :: 1 <= i < |times| ==> times[i] == times[1..][i - 1];
  }

  /** From the n-th trigger on: the budget, the spacing and completeness, for any failure times. */
  lemma {:induction false} OutageFrom(p: Peer, c: Config, n: nat, last: int, times: seq<int>)
    requires ValidConfig(c) && Scheduled(p, c, n, last)
    ensures n + |Triggers(p, c, times)| <= Budget(c)
    ensures Spaced(c, n, last, Triggers(p, c, times))
    ensures Complete(c, n, last, Triggers(p, c, times), times)
    decreases |times|
  {
    if times != [] {
      var (next, triggered) := AfterFailure(p, c, times[0]);
      var rest := times[1..];
      var later := Triggers(next, c, rest);
      if triggered {
        ScheduleAdvances(p.(isHealthy := false, failureCount := p.failureCount + 1), c, times[0]);
        OutageFrom(next, c, n + 1, times[0], rest);
        SpacedCons(c, n, last, times[0], later);
        CompleteTriggered(c, n, last, later, times);
      } else {
        OutageFrom(next, c, n, last, rest);
        assert Triggers(p, c, times) == later;
        CompleteUntriggered(c, n, last, later, times);
      }
    }
  }

  lemma SpacedCons(c: Config, n: nat, last: int, first: int, later: seq<int>)
    requires first > last + Gap(c, n) && Spaced(c, n + 1, first, later)
    ensures Spaced(c, n, last, [first] + later)
  {
    assert ([first] + later)[1..] == later;
  }

  /** When failures come at most `d` apart, every trigger is prompt; `prev` is the last failure seen. */
  lemma {:induction false} OutagePrompt(p: Peer, c: Config, n: nat, last: int, prev: int, times: seq<int>, d: nat)
    requires ValidConfig(c) && Scheduled(p, c, n, last) && Dense(prev, times, d)
    requires n < Budget(c) ==> prev <= last + Gap(c, n)
    ensures Prompt(c, n, last, Triggers(p, c, times), d)
    decreases |times|
  {
    if times != [] {
      var (next, triggered) := AfterFailure(p, c, times[0]);
      var rest := times[1..];
      var later := Triggers(next, c, rest);
      if triggered {
        ScheduleAdvances(p.(isHealthy := false, failureCount := p.failureCount + 1), c, times[0]);
        OutagePrompt(next, c, n + 1, times[0], times[0], rest, d);
        assert ([times[0]] + later)[1..] == later;
      } else {
        OutagePrompt(next, c, n, last, times[0], rest, d);
        assert Triggers(p, c, times) == later;
      }
    }
  }

  // ---------------------------------------------------------------- main results

  lemma FirstFailureTriggers(c: Config, times: seq<int>)
    requires ValidConfig(c) && times != []
    ensures Triggers(HEALTHY, c, times) == [times[0]] + Triggers(AfterFailure(HEALTHY, c, times[0]).0, c, times[1..])
    ensures Scheduled(AfterFailure(HEALTHY, c, times[0]).0, c, 1, times[0])
  {
    assert (c.refresh + STEP - 1) / STEP >= 1;
    ScheduleAdvances(HEALTHY.(isHealthy := false, failureCount := 1), c, times[0]);
  }

  /** In any unbroken run of failed pings: never more triggers than the budget, and the n-th trigger
      comes no earlier than the summed gaps after the first. */
  lemma RetryBudget(c: Config, times: seq<int>)
    requires ValidConfig(c)
    ensures
      var out := Triggers(HEALTHY, c, times);
      && |out| <= Budget(c)
      && (forall i :: 0 <= i < |out| ==> out[i] >= out[0] + GapSum(c, i))
  {
    if times != [] {
      FirstFailureTriggers(c, times);
      var p, out := AfterFailure(HEALTHY, c, times[0]).0, Triggers(HEALTHY, c, times);
      OutageFrom(p, c, 1, times[0], times[1..]);
      assert out[1..] == Triggers(p, c, times[1..]);
      forall i | 0 <= i < |out| ensures out[i] >= out[0] + GapSum(c, i) {
        if i > 0 {
          SpacedSum(c, 1, times[0], out[1..], i - 1);
        }
      }
    }
  }

  /** A long enough outage uses the budget up: when failures come at most `d` apart and go on longer
      than all gaps plus one `d` per retry, exactly the budget is triggered. */
  lemma LongOutageReachesBudget(c: Config, times: seq<int>, d: nat)
    requires ValidConfig(c) && times != [] && Dense(times[0], times, d)
    requires times[|times| - 1] > times[0] + GapSum(c, Budget(c) - 1) + (Budget(c) - 1) * d
    ensures |Triggers(HEALTHY, c, times)| == Budget(c)
  {
    DelaysAreProduct(Budget(c) - 1, d);
    ShortOutage(c, times, d);
  }

  /** An outage that triggers less than the budget is over soon. */
  lemma ShortOutage(c: Config, times: seq<int>, d: nat)
    requires ValidConfig(c) && times != [] && Dense(times[0], times, d)
    ensures |Triggers(HEALTHY, c, times)| == Budget(c)
      || times[|times| - 1] <= times[0] + GapSum(c, Budget(c) - 1) + Delays(Budget(c) - 1, d)
  {
    FirstFailureTriggers(c, times);
    var p, rest := AfterFailure(HEALTHY, c, times[0]).0, times[1..];
    var later := Triggers(p, c, rest);
    OutageFrom(p, c, 1, times[0], rest);
    OutagePrompt(p, c, 1, times[0], times[0], rest, d);
    PromptSum(c, 1, times[0], later, d);
    if 1 + |later| < Budget(c) {
      DelaysGrow(|later|, Budget(c) - 1, d);
      TooShort(c, times, later, Delays(|later|, d), Delays(Budget(c) - 1, d));
    }
  }

  /** The arithmetic of ShortOutage: fewer triggers would end the outage earlier. */
  lemma TooShort(c: Config, times: seq<int>, later: seq<int>, spent: nat, allowed: nat)
    requires times != [] && 1 + |later| < Budget(c) && spent <= allowed
    requires Complete(c, 1, times[0], later, times[1..])
    requires LastOf(later, times[0]) <= times[0] + GapSum(c, |later|) + spent
    ensures times[|times| - 1] <= times[0] + GapSum(c, Budget(c) - 1) + allowed
  {
    var m, b := 1 + |later|, Budget(c);
    assert GapSum(c, m) == GapSum(c, m - 1) + Gap(c, m);
    GapSumGrows(c, m, b - 1);
    assert |times| > 1 ==> times[1..][|times| - 2] == times[|times| - 1];
  }

  /** The summed gaps in closed form: 2s per fixed retry, then the triangular numbers times 5s. */
  lemma {:induction false} GapSumClosedForm(c: Config, n: nat)
    ensures n <= c.fixedRetries ==> GapSum(c, n) == 2_000_000_000 * n
    ensures n > c.fixedRetries ==>
      var k := n - c.fixedRetries;
      2 * GapSum(c, n) == 4_000_000_000 * c.fixedRetries + 5_000_000_000 * (k * (k + 1))
  {
    if n > 0 {
      GapSumClosedForm(c, n - 1);
      if n > c.fixedRetries {
        var k := n - c.fixedRetries;
        TriangleStep(k);
      }
    }
  }

  lemma TriangleStep(k: nat)
    requires k > 0
    ensures STEP * (k * (k + 1)) == STEP * ((k - 1) * k) + 2 * (STEP * k)
  {
    assert k * (k + 1) == (k - 1) * k + 2 * k;
  }

  datatype Ping = Success | Failure(now: int)

  function AfterPings(p: Peer, c: Config, pings: seq<Ping>): Peer {
    if pings == [] then p
    else
      var before := AfterPings(p, c, pings[..|pings| - 1]);
      match pings[|pings| - 1]
      case Success => HEALTHY
      case Failure(now) => AfterFailure(before, c, now).0
  }

  /** After any mix of results: once a retry is scheduled and not handed over, the "zero next retry
      time" case of the due test cannot occur, and nothing is handed over without a retry. */
  lemma {:induction false} DueTimeIsSet(c: Config, pings: seq<Ping>)
    ensures
      var p := AfterPings(HEALTHY, c, pings);
      (p.retryCount > 0 && !p.handedOver ==> p.nextRetry.Some?) && (p.handedOver ==> p.retryCount > 0)
    decreases |pings|
  {
    if pings != [] {
      DueTimeIsSet(c, pings[..|pings| - 1]);
    }
  }
}
