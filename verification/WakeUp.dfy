/** The mobile discovery loop (mobile/controller.go, run) against any number of concurrent
    networkChanged calls (mobile/network.go), as atomic steps over program counters, the network
    mutex, the one-slot change channel and the timer. Plugins are configured. */
module WakeUp {
  import opened NetAddr

  datatype Underlay = Underlay(online: bool, ipv4: bool, ipv6: bool)

  /** The channel of a timer holds a value only while it is Fired; Reset discards a stale value. */
  datatype Timer = Idle | Armed | Fired

  datatype LoopPc =
    | Select         // blocked in select
    | Resetting      // took a change token, timer not yet reset
    | Ticked         // took the timer value
    | TickLocked     // holds networkMu
    | TickRead       // copied the network state
    | TickStored     // stored cycleCancel, still holds networkMu
    | Started        // released networkMu
    | Cycling        // inside cycle()
    | CycleReturned  // cycle() returned, its context not yet cancelled
    | Finished       // context cancelled
    | FinishLocked   // holds networkMu again
    | FinishCleared  // cleared cycleCancel, still holds networkMu
    | Rearming       // released networkMu, timer not yet reset
    | Exited

  datatype CallerPc =
    | Arrived(state: Underlay)  // wants networkMu
    | Locked(state: Underlay)   // holds networkMu
    | Updated                   // network written, still holds networkMu
    | Cancelled                 // called cycleCancel, still holds networkMu
    | Sending                   // released networkMu, token not yet offered

  datatype Owner = Nobody | Loop | Caller(id: nat)

  /** `generation` counts network updates and `cycle` numbers the cycle contexts. */
  datatype State = State(
    stopped: bool,
    network: Underlay,
    generation: nat,
    mutex: Owner,
    token: bool,
    timer: Timer,
    pc: LoopPc,
    seen: Underlay,
    seenGeneration: nat,
    cycle: nat,
    cycleCancel: Option<nat>,
    cancelled: set<nat>,
    callers: map<nat, CallerPc>)

  ghost predicate Init(s: State) {
    && !s.stopped && s.mutex == Nobody && !s.token && s.timer == Armed && s.pc == Select
    && s.cycle == 0 && s.cycleCancel == None && s.cancelled == {} && s.callers == map[]
  }

  /** The context of the current cycle is done. */
  predicate CycleDone(s: State) {
    s.stopped || s.cycle in s.cancelled
  }

  // ---------------------------------------------------------------- steps of the loop

  /** What the loop can touch by itself. */
  datatype Local = Local(
    pc: LoopPc, timer: Timer, mutex: Owner, seen: Underlay, seenGeneration: nat, cycleCancel: Option<nat>, cancelled: set<nat>)

  /** The one step of every program counter other than Select. */
  function Step(l: Local, network: Underlay, generation: nat, cycle: nat): Local
    requires l.pc != Select
  {
    match l.pc
    case Resetting => l.(timer := Armed, pc := Select)
    case Ticked => l.(mutex := Loop, pc := TickLocked)
    case TickLocked => l.(seen := network, seenGeneration := generation, pc := TickRead)
    case TickRead => l.(cycleCancel := Some(cycle), pc := TickStored)
    case TickStored => l.(mutex := Nobody, pc := Started)
    case Started =>
      // offline: cancel the context and leave the timer alone
      if l.seen.online then l.(pc := Cycling) else l.(cancelled := l.cancelled + {cycle}, pc := Select)
    case Cycling => l.(pc := CycleReturned)
    case CycleReturned => l.(cancelled := l.cancelled + {cycle}, pc := Finished)
    case Finished => l.(mutex := Loop, pc := FinishLocked)
    case FinishLocked => l.(cycleCancel := None, pc := FinishCleared)
    case FinishCleared => l.(mutex := Nobody, pc := Rearming)
    case Rearming => l.(timer := Armed, pc := Select)
    case Exited => l
  }

  function Advance(s: State): State
    requires s.pc != Select
  {
    var l := Step(Local(s.pc, s.timer, s.mutex, s.seen, s.seenGeneration, s.cycleCancel, s.cancelled),
                  s.network, s.generation, s.cycle);
    s.(pc := l.pc, timer := l.timer, mutex := l.mutex, seen := l.seen, seenGeneration := l.seenGeneration,
       cycleCancel := l.cycleCancel, cancelled := l.cancelled)
  }

  ghost predicate SelectNext(s: State, s': State) {
    && s.pc == Select
    && ( || (s.token && s' == s.(token := false, pc := Resetting))
         || (s.timer == Fired && s' == s.(timer := Idle, pc := Ticked, cycle := s.cycle + 1))
         || (s.stopped && s' == s.(pc := Exited)))
  }

  ghost predicate AdvanceNext(s: State, s': State) {
    && s.pc != Select && s.pc != Exited
    && (s.pc == Ticked || s.pc == Finished ==> s.mutex == Nobody)
    && s' == Advance(s)
  }

  ghost predicate FireTimer(s: State, s': State) {
    s.timer == Armed && s' == s.(timer := Fired)
  }

  ghost predicate LoopNext(s: State, s': State) {
    SelectNext(s, s') || AdvanceNext(s, s') || FireTimer(s, s')
  }

  // ---------------------------------------------------------------- steps of networkChanged

  ghost predicate CallerNext(s: State, s': State, id: nat) {
    if id !in s.callers then
      exists u :: s' == s.(callers := s.callers[id := Arrived(u)])
    else
      match s.callers[id]
      case Arrived(u) =>
        s.mutex == Nobody && s' == s.(mutex := Caller(id), callers := s.callers[id := Locked(u)])
      case Locked(u) =>
        s' == s.(network := u, generation := s.generation + 1, callers := s.callers[id := Updated])
      case Updated =>
        s' == s.(cancelled := if s.cycleCancel.Some? then s.cancelled + {s.cycleCancel.value} else s.cancelled,
                 callers := s.callers[id := Cancelled])
      case Cancelled =>
        s' == s.(mutex := Nobody, callers := s.callers[id := Sending])
      case Sending =>
        s' == s.(token := true, callers := s.callers - {id})  // a full channel keeps its token
  }

  // ---------------------------------------------------------------- the environment

  /** stop() cancels the loop's context; a cycle context may also reach its own deadline. */
  ghost predicate EnvironmentNext(s: State, s': State) {
    || s' == s.(stopped := true)
    || (s.pc == Cycling && s' == s.(cancelled := s.cancelled + {s.cycle}))
  }

  ghost predicate Next(s: State, s': State) {
    LoopNext(s, s') || EnvironmentNext(s, s') || exists id :: CallerNext(s, s', id)
  }

  ghost predicate IsRun(run: seq<State>) {
    && |run| > 0
    && Init(run[0])
    && forall i :: 0 <= i < |run| - 1 ==> Next(run[i], run[i + 1])
  }

  // ---------------------------------------------------------------- invariants

  predicate LoopHoldsMutex(pc: LoopPc) {
    pc == TickLocked || pc == TickRead || pc == TickStored || pc == FinishLocked || pc == FinishCleared
  }

  predicate CallerHoldsMutex(pc: CallerPc) {
    pc.Locked? || pc.Updated? || pc.Cancelled?
  }

  ghost predicate MutexInv(s: State) {
    && (s.mutex == Loop <==> LoopHoldsMutex(s.pc))
    && (forall id :: id in s.callers ==> (s.mutex == Caller(id) <==> CallerHoldsMutex(s.callers[id])))
    && (s.mutex.Caller? ==> s.mutex.id in s.callers)
  }

  /** A caller has written the network state and not yet cancelled the stored cycle. */
  ghost predicate UpdateUncancelled(s: State) {
    s.mutex.Caller? && s.mutex.id in s.callers && s.callers[s.mutex.id].Updated?
  }

  /** The current cycle's snapshot is the current network state. */
  predicate SnapshotCurrent(s: State) {
    s.seenGeneration == s.generation && s.seen == s.network
  }

  predicate SnapshotTaken(pc: LoopPc) {
    pc == TickRead || pc == TickStored || pc == Started || pc == Cycling
  }

  ghost predicate CycleInv(s: State) {
    && (s.pc == TickRead || s.pc == TickStored ==> SnapshotCurrent(s))
    && (s.pc == TickStored || s.pc == Started || s.pc == Cycling ==> s.cycleCancel == Some(s.cycle))
    && (s.pc == Started || s.pc == Cycling ==>
      SnapshotCurrent(s) || s.cycle in s.cancelled || UpdateUncancelled(s))
    && (s.pc == Started && (s.cycle in s.cancelled || UpdateUncancelled(s)) ==> s.seenGeneration < s.generation)
    && (SnapshotTaken(s.pc) ==> s.seenGeneration <= s.generation)
  }

  /** A caller is between its update and its send. */
  ghost predicate SendPending(s: State) {
    exists id :: id in s.callers && (s.callers[id].Updated? || s.callers[id].Cancelled? || s.callers[id].Sending?)
  }

  /** The loop is in an iteration that re-arms the timer if the network stays online. */
  predicate WillRearm(s: State) {
    match s.pc
    case Select | Exited => false
    case TickRead | TickStored | Started => s.seen.online
    case _ => true
  }

  ghost predicate WakeInv(s: State) {
    s.network.online && s.pc != Exited ==> s.timer != Idle || s.token || WillRearm(s) || SendPending(s)
  }

  /** Cycle contexts are numbered in order and a new one starts neither cancelled nor stored. */
  ghost predicate NumberInv(s: State) {
    && (forall c :: c in s.cancelled ==> c <= s.cycle)
    && (s.cycleCancel.Some? ==> s.cycleCancel.value <= s.cycle)
    && (s.pc == Ticked || s.pc == TickLocked || s.pc == TickRead ==>
      s.cycle !in s.cancelled && s.cycleCancel != Some(s.cycle))
    && (s.pc == TickStored ==> s.cycle !in s.cancelled)
  }

  ghost predicate Inv(s: State) {
    MutexInv(s) && CycleInv(s) && WakeInv(s) && NumberInv(s) && (s.pc == Exited ==> s.stopped)
  }

  lemma InitInv(s: State)
    requires Init(s)
    ensures Inv(s)
  {}

  /** What the loop's step does to the mutex. */
  lemma AdvanceMutexEffect(s: State, s': State)
    requires AdvanceNext(s, s') && (s.mutex == Loop <==> LoopHoldsMutex(s.pc))
    ensures s'.callers == s.callers && (s'.mutex == Loop <==> LoopHoldsMutex(s'.pc))
    ensures s'.mutex == s.mutex || {s.mutex, s'.mutex} == {Nobody, Loop}
  {}

  lemma LoopKeepsMutex(s: State, s': State)
    requires MutexInv(s) && LoopNext(s, s')
    ensures MutexInv(s')
  {
    if AdvanceNext(s, s') {
      AdvanceMutexEffect(s, s');
      assert s.mutex != s'.mutex ==> s.mutex in {Nobody, Loop} && s'.mutex in {Nobody, Loop};
    }
  }

  lemma AdvanceKeepsCycle(s: State, s': State)
    requires MutexInv(s) && CycleInv(s) && NumberInv(s) && AdvanceNext(s, s')
    ensures CycleInv(s')
  {
    assert s'.callers == s.callers && s'.network == s.network && s'.generation == s.generation && s'.cycle == s.cycle;
  }

  lemma AdvanceKeepsNumbers(s: State, s': State)
    requires CycleInv(s) && NumberInv(s) && AdvanceNext(s, s')
    ensures NumberInv(s')
  {
    assert s'.cycle == s.cycle;
  }

  lemma LoopKeepsCycle(s: State, s': State)
    requires MutexInv(s) && CycleInv(s) && NumberInv(s) && LoopNext(s, s')
    ensures CycleInv(s') && NumberInv(s')
  {
    if AdvanceNext(s, s') {
      AdvanceKeepsCycle(s, s');
      AdvanceKeepsNumbers(s, s');
    }
  }

  lemma LoopKeepsWake(s: State, s': State)
    requires MutexInv(s) && CycleInv(s) && WakeInv(s) && LoopNext(s, s')
    ensures WakeInv(s')
  {
    assert s'.callers == s.callers && s'.network == s.network;
    if s.network.online && SendPending(s) {
      var id :| id in s.callers && (s.callers[id].Updated? || s.callers[id].Cancelled? || s.callers[id].Sending?);
      assert id in s'.callers;
    } else if SelectNext(s, s') {
      assert WakeInv(s');
    } else if AdvanceNext(s, s') {
      assert WakeInv(s');
    }
  }

  lemma LoopKeepsInv(s: State, s': State)
    requires Inv(s) && LoopNext(s, s')
    ensures Inv(s')
  {
    LoopKeepsMutex(s, s');
    LoopKeepsCycle(s, s');
    LoopKeepsWake(s, s');
    LoopExitsWhenStopped(s, s');
  }

  lemma LoopExitsWhenStopped(s: State, s': State)
    requires LoopNext(s, s') && (s.pc == Exited ==> s.stopped)
    ensures s'.pc == Exited ==> s'.stopped
  {}

  lemma CallerKeepsMutex(s: State, s': State, id: nat)
    requires MutexInv(s) && CallerNext(s, s', id)
    ensures MutexInv(s')
  {}

  lemma CallerKeepsNumbers(s: State, s': State, id: nat)
    requires MutexInv(s) && NumberInv(s) && CallerNext(s, s', id)
    ensures NumberInv(s')
  {
    assert s'.pc == s.pc && s'.cycle == s.cycle;
  }

  lemma CallerKeepsCycle(s: State, s': State, id: nat)
    requires MutexInv(s) && CycleInv(s) && NumberInv(s) && CallerNext(s, s', id)
    ensures CycleInv(s') && NumberInv(s')
  {
    assert s'.pc == s.pc && s'.cycle == s.cycle;
    CallerKeepsNumbers(s, s', id);
  }

  lemma CallerKeepsWake(s: State, s': State, id: nat)
    requires WakeInv(s) && CallerNext(s, s', id)
    ensures WakeInv(s')
  {
    assert s'.pc == s.pc && s'.timer == s.timer && s'.seen == s.seen;
    if SendPending(s) && !s'.token {
      var k :| k in s.callers && (s.callers[k].Updated? || s.callers[k].Cancelled? || s.callers[k].Sending?);
      assert k in s'.callers && (s'.callers[k].Updated? || s'.callers[k].Cancelled? || s'.callers[k].Sending?);
    }
    if s'.network != s.network {
      assert s'.callers[id].Updated?;
    }
  }

  lemma CallerKeepsInv(s: State, s': State, id: nat)
    requires Inv(s) && CallerNext(s, s', id)
    ensures Inv(s')
  {
    CallerKeepsMutex(s, s', id);
    CallerKeepsCycle(s, s', id);
    CallerKeepsWake(s, s', id);
  }

  lemma NextKeepsInv(s: State, s': State)
    requires Inv(s) && Next(s, s')
    ensures Inv(s')
  {
    if LoopNext(s, s') {
      LoopKeepsInv(s, s');
    } else if EnvironmentNext(s, s') {
      assert s'.callers == s.callers;
      if SendPending(s) {
        assert SendPending(s');
      }
    } else {
      var id :| CallerNext(s, s', id);
      CallerKeepsInv(s, s', id);
    }
  }

  lemma {:induction false} RunInv(run: seq<State>)
    requires IsRun(run)
    ensures Inv(run[|run| - 1])
    decreases |run|
  {
    if |run| == 1 {
      InitInv(run[0]);
    } else {
      var prefix := run[..|run| - 1];
      RunInv(prefix);
      assert Next(run[|run| - 2], run[|run| - 1]);
      NextKeepsInv(run[|run| - 2], run[|run| - 1]);
    }
  }

  // ---------------------------------------------------------------- main results

  /** In every interleaving: while the underlay is online and the loop runs, a wake-up is armed,
      queued, promised by the current iteration, or about to be sent. */
  lemma NoLostWakeUp(run: seq<State>)
    requires IsRun(run)
    ensures
      var s := run[|run| - 1];
      s.network.online && !s.stopped ==> s.timer != Idle || s.token || WillRearm(s) || SendPending(s)
  {
    RunInv(run);
  }

  /** In every interleaving: a cycle whose context is still live runs on the current network state,
      as soon as no caller is between its update and its cancel. */
  lemma LiveCycleIsCurrent(run: seq<State>)
    requires IsRun(run)
    ensures
      var s := run[|run| - 1];
      s.pc == Cycling && !CycleDone(s) && !s.mutex.Caller? ==> SnapshotCurrent(s) && s.network.online
  {
    RunInv(run);
    var s := run[|run| - 1];
    BeganOnline(run);
  }

  lemma {:induction false} BeganOnline(run: seq<State>)
    requires IsRun(run)
    ensures run[|run| - 1].pc == Cycling ==> run[|run| - 1].seen.online
    decreases |run|
  {
    if |run| > 1 {
      BeganOnline(run[..|run| - 1]);
      assert Next(run[|run| - 2], run[|run| - 1]);
    }
  }

  /** The current cycle is number c and has its snapshot, or it is over. */
  predicate CycleFrom(s: State, c: nat, seen: Underlay) {
    s.cycle > c || (s.cycle == c && s.seen == seen && s.pc != Ticked && s.pc != TickLocked)
  }

  lemma StepKeepsCycle(s: State, s': State, c: nat, seen: Underlay)
    requires Next(s, s') && CycleFrom(s, c, seen)
    ensures CycleFrom(s', c, seen) && s.cancelled <= s'.cancelled && (s.stopped ==> s'.stopped)
  {
    if SelectNext(s, s') || FireTimer(s, s') || EnvironmentNext(s, s') {
    } else if AdvanceNext(s, s') {
      AdvanceKeepsSnapshot(s, s');
    } else {
      var id :| CallerNext(s, s', id);
      CallerKeepsSnapshot(s, s', id);
    }
  }

  lemma AdvanceKeepsSnapshot(s: State, s': State)
    requires AdvanceNext(s, s')
    ensures s'.cycle == s.cycle && s'.stopped == s.stopped && s.cancelled <= s'.cancelled
    ensures s.pc != Ticked && s.pc != TickLocked ==> s'.seen == s.seen && s'.pc != Ticked && s'.pc != TickLocked
  {}

  lemma CallerKeepsSnapshot(s: State, s': State, id: nat)
    requires CallerNext(s, s', id)
    ensures s'.cycle == s.cycle && s'.stopped == s.stopped && s.cancelled <= s'.cancelled && s'.seen == s.seen && s'.pc == s.pc
  {}

  lemma {:induction false} RunKeepsCycle(run: seq<State>, i: nat, j: nat, c: nat, seen: Underlay)
    requires IsRun(run) && i <= j < |run| && CycleFrom(run[i], c, seen)
    ensures CycleFrom(run[j], c, seen) && run[i].cancelled <= run[j].cancelled && (run[i].stopped ==> run[j].stopped)
    decreases j - i
  {
    if i < j {
      assert Next(run[i], run[i + 1]);
      StepKeepsCycle(run[i], run[i + 1], c, seen);
      RunKeepsCycle(run, i + 1, j, c, seen);
    }
  }

  /** A cycle reads the network state again under the mutex, once per address family. Whatever it read
      at moment i, while it is still live at moment j that is the state it started from. */
  lemma LiveCycleActsOnItsStart(run: seq<State>, i: nat, j: nat)
    requires IsRun(run) && i <= j < |run|
    requires run[i].pc == Cycling && run[i].mutex == Nobody
    requires run[j].pc == Cycling && run[j].cycle == run[i].cycle && !CycleDone(run[j])
    ensures run[i].network == run[i].seen == run[j].seen && run[i].network.online
  {
    RunKeepsCycle(run, i, j, run[i].cycle, run[i].seen);
    LiveCycleIsCurrent(run[..i + 1]);
  }

  /** No caller is active, nobody stops the loop, and the underlay is online. */
  predicate Quiet(s: State) {
    s.callers == map[] && !s.stopped && s.network.online
  }

  /** A live cycle runs on the current network state. */
  predicate FreshCycle(s: State) {
    s.pc == Cycling && !CycleDone(s) && SnapshotCurrent(s)
  }

  /** Steps the loop may still take before a fresh cycle starts. */
  function Rank(s: State): nat {
    (if s.timer == Armed then 1 else 0) + 2 * (
      match s.pc
      case Exited => 0
      case Started =>
        if !s.seen.online then 20 else if SnapshotCurrent(s) then 1 else 31
      case TickStored => if s.seen.online then 2 else 21
      case TickRead => if s.seen.online then 3 else 22
      case TickLocked => 4
      case Ticked => 5
      case Resetting => if s.token then 13 else 9
      case Select => if s.token then 12 else 7
      case Rearming => 24
      case FinishCleared => 25
      case FinishLocked => 26
      case Finished => 27
      case CycleReturned => 28
      case Cycling => 30
    )
  }

  /** With the callers gone silent, the loop is never stuck short of a fresh cycle ... */
  lemma QuietIsNotStuck(s: State) returns (s': State)
    requires Inv(s) && Quiet(s) && !FreshCycle(s)
    ensures LoopNext(s, s')
  {
    if s.pc != Select {
      s' := Advance(s);
    } else if s.token {
      s' := s.(token := false, pc := Resetting);
    } else if s.timer == Armed {
      s' := s.(timer := Fired);
    } else {
      s' := s.(timer := Idle, pc := Ticked, cycle := s.cycle + 1);
    }
  }

  /** ... and every step it takes brings that cycle closer. */
  lemma QuietProgress(s: State, s': State)
    requires Inv(s) && Quiet(s) && !FreshCycle(s) && LoopNext(s, s')
    ensures Inv(s') && Quiet(s')
    ensures FreshCycle(s') || Rank(s') < Rank(s)
  {
    LoopKeepsInv(s, s');
    if AdvanceNext(s, s') {
      AdvanceProgress(s, s');
    }
  }

  lemma AdvanceProgress(s: State, s': State)
    requires CycleInv(s) && NumberInv(s) && WakeInv(s) && Quiet(s) && !FreshCycle(s) && AdvanceNext(s, s')
    ensures Quiet(s') && (FreshCycle(s') || Rank(s') < Rank(s))
  {}

  /** So a wake-up is not merely pending: after the last networkChanged call, every run of the loop
      long enough contains a live cycle on the final network state. */
  lemma {:induction false} EventuallyFresh(run: seq<State>)
    requires |run| > 0 && Inv(run[0]) && Quiet(run[0])
    requires forall i :: 0 <= i < |run| - 1 ==> LoopNext(run[i], run[i + 1])
    requires |run| > Rank(run[0]) + 1
    ensures exists i :: 0 <= i < |run| && FreshCycle(run[i])
    decreases Rank(run[0])
  {
    if !FreshCycle(run[0]) {
      QuietProgress(run[0], run[1]);
      if !FreshCycle(run[1]) {
        EventuallyFresh(run[1..]);
        var i :| 0 <= i < |run[1..]| && FreshCycle(run[1..][i]);
        assert FreshCycle(run[i + 1]);
      }
    }
  }
}
