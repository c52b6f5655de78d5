/** Time-out accounting of one monitored peer (internal/ctrl/ping_monitor.go): the sender, the reply
    reader and the checker are goroutines, and the checker reads the send time, clears it and reports
    the failure in three separate critical sections. */
module PingTimeout {
  import opened NetAddr

  datatype SenderPc = SenderIdle | SentUnrecorded

  datatype CheckerPc =
    | CheckIdle
    | CheckStarted(now: int)                          // `now` sampled before the peers are visited
    | CheckRead(now: int, sent: Option<int>)          // copied lastSentTime
    | CheckDue                                        // decided on a time-out
    | CheckCleared                                    // zeroed lastSentTime, failure not yet reported

  /** `latest` is the time of the last recorded send; `sends` counts successful sends. */
  datatype State = State(
    clock: int, lastSent: Option<int>, sender: SenderPc, checker: CheckerPc,
    latest: Option<int>, sends: nat, recorded: nat, reports: nat)

  ghost predicate Init(s: State) {
    && s.lastSent == None && s.sender == SenderIdle && s.checker == CheckIdle && s.latest == None
    && s.sends == s.recorded == s.reports == 0
  }

  ghost predicate SenderNext(s: State, s': State) {
    match s.sender
    case SenderIdle => s' == s.(sends := s.sends + 1, sender := SentUnrecorded)
    case SentUnrecorded =>
      s' == s.(lastSent := Some(s.clock), latest := Some(s.clock), recorded := s.recorded + 1, sender := SenderIdle)
  }

  /** A valid reply clears the send time. */
  ghost predicate ReplyNext(s: State, s': State) {
    s' == s.(lastSent := None)
  }

  ghost predicate CheckerNext(s: State, s': State, timeout: nat) {
    match s.checker
    case CheckIdle => s' == s.(checker := CheckStarted(s.clock))
    case CheckStarted(now) => s' == s.(checker := CheckRead(now, s.lastSent))
    case CheckRead(now, sent) =>
      s' == s.(checker := if sent.Some? && now - sent.value > timeout then CheckDue else CheckIdle)
    case CheckDue => s' == s.(lastSent := None, checker := CheckCleared)
    case CheckCleared => s' == s.(reports := s.reports + 1, checker := CheckIdle)
  }

  ghost predicate ClockNext(s: State, s': State) {
    s'.clock >= s.clock && s' == s.(clock := s'.clock)
  }

  ghost predicate Next(s: State, s': State, timeout: nat) {
    SenderNext(s, s') || ReplyNext(s, s') || CheckerNext(s, s', timeout) || ClockNext(s, s')
  }

  ghost predicate IsRun(run: seq<State>, timeout: nat) {
    && |run| > 0
    && Init(run[0])
    && forall i :: 0 <= i < |run| - 1 ==> Next(run[i], run[i + 1], timeout)
  }

  // ---------------------------------------------------------------- one report per send

  /** Reports made or committed to, plus a recorded send still to be judged, are backed by sends. */
  ghost predicate CreditInv(s: State) {
    && s.recorded + (if s.sender == SentUnrecorded then 1 else 0) <= s.sends
    && match s.checker
       case CheckIdle | CheckStarted(_) => s.reports + (if s.lastSent.Some? then 1 else 0) <= s.recorded
       case CheckRead(_, sent) =>
         s.reports + (if s.lastSent.Some? || sent.Some? then 1 else 0) <= s.recorded
       case CheckDue => s.reports + 1 <= s.recorded
       case CheckCleared => s.reports + 1 + (if s.lastSent.Some? then 1 else 0) <= s.recorded
  }

  lemma {:induction false} RunCredit(run: seq<State>, timeout: nat)
    requires IsRun(run, timeout)
    ensures CreditInv(run[|run| - 1])
    decreases |run|
  {
    if |run| > 1 {
      RunCredit(run[..|run| - 1], timeout);
      assert Next(run[|run| - 2], run[|run| - 1], timeout);
    }
  }

  /** In every interleaving, failure reports never outnumber successful sends. */
  lemma ReportsNeverOutnumberSends(run: seq<State>, timeout: nat)
    requires IsRun(run, timeout)
    ensures run[|run| - 1].reports <= run[|run| - 1].sends
  {
    RunCredit(run, timeout);
  }

  // ---------------------------------------------------------------- overwritten send times

  /** No moment of the run lies more than `timeout` after the last recorded send: sends succeed at
      most `timeout` apart. */
  ghost predicate Steady(run: seq<State>, timeout: nat) {
    forall i :: 0 <= i < |run| && run[i].latest.Some? ==> run[i].clock - run[i].latest.value <= timeout
  }

  ghost predicate FreshInv(s: State, timeout: nat) {
    && (s.lastSent.Some? ==> s.lastSent == s.latest)
    && match s.checker
       case CheckIdle => s.reports == 0
       case CheckStarted(now) => s.reports == 0 && now <= s.clock
       case CheckRead(now, sent) => s.reports == 0 && (sent.Some? ==> now - sent.value <= timeout)
       case CheckDue => false
       case CheckCleared => false
  }

  lemma {:induction false} RunFresh(run: seq<State>, timeout: nat)
    requires IsRun(run, timeout) && Steady(run, timeout)
    ensures FreshInv(run[|run| - 1], timeout)
    decreases |run|
  {
    if |run| > 1 {
      var s, s' := run[|run| - 2], run[|run| - 1];
      RunFresh(run[..|run| - 1], timeout);
      assert Next(s, s', timeout);
      assert s.latest.Some? ==> s.clock - s.latest.value <= timeout;
    }
  }

  /** Because each send overwrites the previous send time, a run whose sends succeed at most
      `timeout` apart reports no failure at all, whether or not any reply ever arrives. */
  lemma SteadySendsHideEveryFailure(run: seq<State>, timeout: nat)
    requires IsRun(run, timeout) && Steady(run, timeout)
    ensures run[|run| - 1].reports == 0
  {
    RunFresh(run, timeout);
  }

  /** The condition is tight: one gap a nanosecond longer, and there is a run that reports. */
  lemma LongerGapCanReport(timeout: nat) returns (run: seq<State>)
    ensures IsRun(run, timeout) && run[|run| - 1].reports == 1
    ensures forall i :: 0 <= i < |run| && run[i].latest.Some? ==> run[i].clock - run[i].latest.value <= timeout + 1
  {
    var s0 := State(0, None, SenderIdle, CheckIdle, None, 0, 0, 0);
    var s1 := s0.(sends := 1, sender := SentUnrecorded);
    var s2 := s1.(lastSent := Some(0), latest := Some(0), recorded := 1, sender := SenderIdle);
    var s3 := s2.(clock := timeout + 1);
    var s4 := s3.(checker := CheckStarted(timeout + 1));
    var s5 := s4.(checker := CheckRead(timeout + 1, Some(0)));
    var s6 := s5.(checker := CheckDue);
    var s7 := s6.(lastSent := None, checker := CheckCleared);
    var s8 := s7.(reports := 1, checker := CheckIdle);
    run := [s0, s1, s2, s3, s4, s5, s6, s7, s8];
    assert SenderNext(s0, s1) && SenderNext(s1, s2) && ClockNext(s2, s3);
    assert CheckerNext(s3, s4, timeout) && CheckerNext(s4, s5, timeout) && CheckerNext(s5, s6, timeout);
    assert CheckerNext(s6, s7, timeout) && CheckerNext(s7, s8, timeout);
  }

  /** Exactly the gaps beyond the time-out can show: some run whose moments lie at most `gap` after the
      last recorded send reports a failure if and only if `gap` exceeds the time-out. */
  lemma ReportableExactly(timeout: nat, gap: nat)
    ensures (exists run: seq<State> :: IsRun(run, timeout) && Steady(run, gap) && run[|run| - 1].reports > 0) <==> gap > timeout
  {
    if gap > timeout {
      var run := LongerGapCanReport(timeout);
      assert IsRun(run, timeout) && Steady(run, gap) && run[|run| - 1].reports > 0;
    } else {
      forall run: seq<State> | IsRun(run, timeout) && Steady(run, gap) ensures run[|run| - 1].reports == 0 {
        assert Steady(run, timeout);
        SteadySendsHideEveryFailure(run, timeout);
      }
    }
  }

  // ---------------------------------------------------------------- what is reported

  /** In this step a check judges a send time that it read, and finds it too old. */
  predicate JudgesStale(s: State, s': State, timeout: nat) {
    && s.checker.CheckRead? && s'.checker != s.checker
    && s.checker.sent.Some? && s.checker.now - s.checker.sent.value > timeout
  }

  function StaleJudgements(run: seq<State>, timeout: nat): nat {
    if |run| < 2 then 0
    else
      StaleJudgements(run[..|run| - 1], timeout)
      + if JudgesStale(run[|run| - 2], run[|run| - 1], timeout) then 1 else 0
  }

  /** In every run the reports are exactly the checks that judged a send time older than the time-out,
      but for the one that is about to be reported. */
  lemma {:induction false} ReportsAreStaleJudgements(run: seq<State>, timeout: nat)
    requires IsRun(run, timeout)
    ensures
      var s := run[|run| - 1];
      s.reports + (if s.checker.CheckDue? || s.checker.CheckCleared? then 1 else 0) == StaleJudgements(run, timeout)
    decreases |run|
  {
    if |run| > 1 {
      ReportsAreStaleJudgements(run[..|run| - 1], timeout);
      assert Next(run[|run| - 2], run[|run| - 1], timeout);
    }
  }

  // ---------------------------------------------------------------- what is not reported

  lemma AnsweredStays(s: State, s': State, timeout: nat)
    requires Next(s, s', timeout)
    ensures s.recorded <= s'.recorded
    ensures s.lastSent == None && s'.recorded == s.recorded ==> s'.lastSent == None
  {}

  /** A reply settles the ping before it: until another send is recorded, a check finds no send time. */
  lemma {:induction false} AnsweredIsNotRead(run: seq<State>, i: nat, j: nat, timeout: nat)
    requires IsRun(run, timeout) && i <= j < |run| && run[i].lastSent == None && run[j].recorded == run[i].recorded
    ensures run[j].lastSent == None
    decreases j - i
  {
    if i < j {
      assert Next(run[i], run[i + 1], timeout);
      AnsweredStays(run[i], run[i + 1], timeout);
      RecordedGrows(run, i + 1, j, timeout);
      AnsweredIsNotRead(run, i + 1, j, timeout);
    }
  }

  lemma {:induction false} RecordedGrows(run: seq<State>, i: nat, j: nat, timeout: nat)
    requires IsRun(run, timeout) && i <= j < |run|
    ensures run[i].recorded <= run[j].recorded
    decreases j - i
  {
    if i < j {
      assert Next(run[i], run[i + 1], timeout);
      AnsweredStays(run[i], run[i + 1], timeout);
      RecordedGrows(run, i + 1, j, timeout);
    }
  }

  /** So a check that starts its look at the peer after a reply, with no send recorded in between, does
      not judge the peer. */
  lemma ReplyPreventsReport(run: seq<State>, i: nat, j: nat, timeout: nat, s': State, s'': State)
    requires IsRun(run, timeout) && i < j < |run| && ReplyNext(run[i], run[i + 1]) && run[j].recorded == run[i].recorded
    requires run[j].checker.CheckStarted? && CheckerNext(run[j], s', timeout) && CheckerNext(s', s'', timeout)
    ensures !JudgesStale(s', s'', timeout) && s''.checker == CheckIdle && s''.reports == run[j].reports
  {
    AnsweredIsNotRead(run, i + 1, j, timeout);
  }
}
