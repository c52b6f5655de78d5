/** Admission and shutdown of app/app.go: any number of Run, RunOneshot and Close calls, with the
    mutex, the wait group and the once-guard as explicit state. A finished call clears `running`
    before it leaves the wait group. */
module AppLifecycle {
  datatype RunResult = Finished | AlreadyRunning | Closed

  datatype RunPc =
    | RunWants
    | RunLocked                  // holds mu
    | RunMarked                  // set running, holds mu
    | RunAdded                   // runs.Add(1) done, holds mu
    | Body                       // the daemon executes
    | BodyReturned
    | ClearLocked                // holds mu again
    | Cleared                    // running reset, holds mu
    | NotYetDone                 // released mu, runs.Done still to come
    | RunReturned(result: RunResult)

  datatype ClosePc =
    | CloseWants
    | OnceEntered                // won closeOnce
    | CloseLocked                // holds mu
    | CloseMarked                // set closed, holds mu
    | CloseUnlocked
    | CloseCancelled             // a.cancel() called, in runs.Wait
    | CleaningUp
    | CloseReturned

  datatype Owner = Nobody | Runner(id: nat) | Closer(id: nat)

  datatype Once = Unused | Busy(id: nat) | Done

  datatype State = State(
    mutex: Owner,
    running: bool,
    closed: bool,
    runs: int,
    once: Once,
    cancelled: bool,
    cleanups: nat,
    runners: map<nat, RunPc>,
    closers: map<nat, ClosePc>)

  ghost predicate Init(s: State) {
    s == State(Nobody, false, false, 0, Unused, false, 0, map[], map[])
  }

  /** What a Run call can touch: its own program counter and the admission state. */
  datatype Admission = Admission(pc: RunPc, mutex: Owner, running: bool, runs: int)

  /** The step of Run call t; the two lock acquisitions wait for the mutex. */
  function RunStep(a: Admission, t: nat, closed: bool): Admission {
    match a.pc
    case RunWants => a.(mutex := Runner(t), pc := RunLocked)
    case RunLocked =>
      if closed then a.(mutex := Nobody, pc := RunReturned(Closed))
      else if a.running then a.(mutex := Nobody, pc := RunReturned(AlreadyRunning))
      else a.(running := true, pc := RunMarked)
    case RunMarked => a.(runs := a.runs + 1, pc := RunAdded)
    case RunAdded => a.(mutex := Nobody, pc := Body)
    case Body => a.(pc := BodyReturned)
    case BodyReturned => a.(mutex := Runner(t), pc := ClearLocked)
    case ClearLocked => a.(running := false, pc := Cleared)
    case Cleared => a.(mutex := Nobody, pc := NotYetDone)
    case NotYetDone => a.(runs := a.runs - 1, pc := RunReturned(Finished))
    case RunReturned(_) => a
  }

  /** What Run call t sees of the state. */
  function SeenBy(s: State, t: nat): Admission
    requires t in s.runners
  {
    Admission(s.runners[t], s.mutex, s.running, s.runs)
  }

  function With(s: State, t: nat, a: Admission): State {
    s.(mutex := a.mutex, running := a.running, runs := a.runs, runners := s.runners[t := a.pc])
  }

  ghost predicate RunNext(s: State, s': State, t: nat) {
    if t !in s.runners then s' == s.(runners := s.runners[t := RunWants])
    else
      && !s.runners[t].RunReturned?
      && (s.runners[t].RunWants? || s.runners[t].BodyReturned? ==> s.mutex == Nobody)
      && s' == With(s, t, RunStep(SeenBy(s, t), t, s.closed))
  }

  ghost predicate CloseNext(s: State, s': State, t: nat) {
    if t !in s.closers then
      s' == s.(closers := s.closers[t := CloseWants])
    else
      match s.closers[t]
      case CloseWants =>
        || (s.once == Unused && s' == s.(once := Busy(t), closers := s.closers[t := OnceEntered]))
        || (s.once == Done && s' == s.(closers := s.closers[t := CloseReturned]))
      case OnceEntered => s.mutex == Nobody && s' == s.(mutex := Closer(t), closers := s.closers[t := CloseLocked])
      case CloseLocked => s' == s.(closed := true, closers := s.closers[t := CloseMarked])
      case CloseMarked => s' == s.(mutex := Nobody, closers := s.closers[t := CloseUnlocked])
      case CloseUnlocked => s' == s.(cancelled := true, closers := s.closers[t := CloseCancelled])
      case CloseCancelled => s.runs == 0 && s' == s.(cleanups := s.cleanups + 1, closers := s.closers[t := CleaningUp])
      case CleaningUp => s' == s.(once := Done, closers := s.closers[t := CloseReturned])
      case CloseReturned => false
  }

  ghost predicate Next(s: State, s': State) {
    (exists t :: RunNext(s, s', t)) || (exists t :: CloseNext(s, s', t))
  }

  ghost predicate IsRun(run: seq<State>) {
    && |run| > 0
    && Init(run[0])
    && forall i :: 0 <= i < |run| - 1 ==> Next(run[i], run[i + 1])
  }

  // ---------------------------------------------------------------- invariant

  predicate RunHoldsMutex(pc: RunPc) {
    pc.RunLocked? || pc.RunMarked? || pc.RunAdded? || pc.ClearLocked? || pc.Cleared?
  }

  /** Owns the `running` flag. */
  predicate Owns(pc: RunPc) {
    pc.RunMarked? || pc.RunAdded? || pc.Body? || pc.BodyReturned? || pc.ClearLocked?
  }

  /** Between runs.Add and runs.Done. */
  predicate Counts(pc: RunPc) {
    pc.RunAdded? || pc.Body? || pc.BodyReturned? || pc.ClearLocked? || pc.Cleared? || pc.NotYetDone?
  }

  function Counted(s: State): set<nat> {
    set t | t in s.runners && Counts(s.runners[t])
  }

  /** Inside the once-guarded function. */
  predicate InOnce(pc: ClosePc) {
    !pc.CloseWants? && !pc.CloseReturned?
  }

  ghost predicate MutexInv(s: State) {
    && (forall t :: t in s.runners ==> (s.mutex == Runner(t) <==> RunHoldsMutex(s.runners[t])))
    && (forall t :: t in s.closers ==> (s.mutex == Closer(t) <==> s.closers[t].CloseLocked? || s.closers[t].CloseMarked?))
    && (s.mutex.Runner? ==> s.mutex.id in s.runners)
    && (s.mutex.Closer? ==> s.mutex.id in s.closers)
  }

  ghost predicate RunningInv(s: State) {
    && (forall t :: t in s.runners && Owns(s.runners[t]) ==> s.running)
    && (forall t, t' :: t in s.runners && t' in s.runners && Owns(s.runners[t]) && Owns(s.runners[t']) ==> t == t')
    && (forall t :: t in s.runners && s.runners[t].RunMarked? ==> !s.closed)
  }

  ghost predicate CountInv(s: State) {
    s.runs == |Counted(s)|
  }

  ghost predicate OnceInv(s: State) {
    && (forall t :: t in s.closers ==> (s.once == Busy(t) <==> InOnce(s.closers[t])))
    && (s.once.Busy? ==> s.once.id in s.closers)
    && (s.cleanups > 0 <==> s.once == Done || (s.once.Busy? && s.once.id in s.closers && s.closers[s.once.id].CleaningUp?))
    && (forall t :: t in s.closers && s.closers[t].CloseReturned? ==> s.once == Done)
    && s.cleanups <= 1
    && (s.cleanups > 0 ==> s.closed && s.runs == 0)
    && (s.once.Busy? && s.once.id in s.closers ==>
      var pc := s.closers[s.once.id]; pc.OnceEntered? || pc.CloseLocked? || s.closed)
  }

  /** Some call is between setting the flag and clearing it. */
  ghost predicate HasOwner(s: State) {
    exists t :: t in s.runners && Owns(s.runners[t])
  }

  /** Past its write of `closed`. */
  predicate Marked(pc: ClosePc) {
    !pc.CloseWants? && !pc.OnceEntered? && !pc.CloseLocked?
  }

  /** Past its call of a.cancel(). */
  predicate Cancels(pc: ClosePc) {
    pc.CloseCancelled? || pc.CleaningUp? || pc.CloseReturned?
  }

  ghost predicate HasMarked(s: State) {
    exists c :: c in s.closers && Marked(s.closers[c])
  }

  /** The flags say exactly what they stand for. */
  ghost predicate FlagInv(s: State) {
    && (s.running <==> HasOwner(s))
    && (s.closed <==> HasMarked(s))
    && (forall c :: c in s.closers && Cancels(s.closers[c]) ==> s.cancelled)
    && (s.once == Done ==> s.cancelled)
  }

  ghost predicate Inv(s: State) {
    MutexInv(s) && RunningInv(s) && CountInv(s) && OnceInv(s) && FlagInv(s)
  }

  /** What one runner's step does to the mutex. */
  lemma RunMutexEffect(s: State, s': State, t: nat)
    requires RunNext(s, s', t)
    requires s.mutex == Runner(t) <==> t in s.runners && RunHoldsMutex(s.runners[t])
    ensures t in s'.runners && (s'.mutex == Runner(t) <==> RunHoldsMutex(s'.runners[t]))
    ensures s'.mutex == s.mutex || {s.mutex, s'.mutex} == {Nobody, Runner(t)}
  {}

  lemma RunKeepsMutex(s: State, s': State, t: nat)
    requires MutexInv(s) && RunNext(s, s', t)
    ensures MutexInv(s')
  {
    RunFrame(s, s', t);
    RunMutexEffect(s, s', t);
    assert s.mutex != s'.mutex ==> s.mutex in {Nobody, Runner(t)} && s'.mutex in {Nobody, Runner(t)};
  }

  /** One runner's step moves only that runner. */
  lemma RunFrame(s: State, s': State, t: nat)
    requires RunNext(s, s', t)
    ensures t in s'.runners
    ensures forall u :: u != t ==> (u in s'.runners <==> u in s.runners)
    ensures forall u :: u != t && u in s.runners ==> s'.runners[u] == s.runners[u]
    ensures s'.closed == s.closed && s'.closers == s.closers && s'.once == s.once && s'.cleanups == s.cleanups
  {
    assert s'.runners == s.runners[t := s'.runners[t]];
  }

  /** The flag is set by the runner that comes to own it, and cleared by its owner only. */
  lemma RunRunningEffect(s: State, s': State, t: nat)
    requires RunNext(s, s', t) && (t in s.runners && Owns(s.runners[t]) ==> s.running)
    ensures t in s'.runners && (Owns(s'.runners[t]) ==> s'.running) && (s'.runners[t].RunMarked? ==> !s'.closed)
    ensures Owns(s'.runners[t]) ==> (t in s.runners && Owns(s.runners[t])) || !s.running
    ensures s.running && !s'.running ==> t in s.runners && Owns(s.runners[t]) && !Owns(s'.runners[t])
    ensures t in s.runners && Owns(s.runners[t]) && !Owns(s'.runners[t]) ==> !s'.running
    ensures !s.running && s'.running ==> Owns(s'.runners[t])
  {}

  lemma RunKeepsFlags(s: State, s': State, t: nat)
    requires RunningInv(s) && FlagInv(s) && RunNext(s, s', t)
    ensures FlagInv(s')
  {
    RunFrame(s, s', t);
    RunRunningEffect(s, s', t);
    assert s'.cancelled == s.cancelled;
    if s'.running {
      if s.running {
        var u :| u in s.runners && Owns(s.runners[u]);
        assert u in s'.runners && Owns(s'.runners[u]);
      } else {
        assert Owns(s'.runners[t]);
      }
    }
    if u :| u in s'.runners && Owns(s'.runners[u]) {
      assert u != t ==> s.running;
    }
  }

  lemma RunKeepsRunning(s: State, s': State, t: nat)
    requires RunningInv(s) && RunNext(s, s', t)
    ensures RunningInv(s')
  {
    RunFrame(s, s', t);
    RunRunningEffect(s, s', t);
  }

  lemma CountedAfter(s: State, s': State, t: nat)
    requires t in s'.runners
    requires forall u :: u != t ==> (u in s'.runners <==> u in s.runners)
    requires forall u :: u != t && u in s.runners ==> s'.runners[u] == s.runners[u]
    ensures Counted(s') == if Counts(s'.runners[t]) then Counted(s) + {t} else Counted(s) - {t}
  {}

  /** The counter moves exactly when the runner enters or leaves the counted stages. */
  lemma RunCountEffect(s: State, s': State, t: nat)
    requires RunNext(s, s', t)
    ensures t in s'.runners
    ensures s'.runs - s.runs ==
      (if Counts(s'.runners[t]) then 1 else 0) - (if t in s.runners && Counts(s.runners[t]) then 1 else 0)
  {}

  lemma RunKeepsCount(s: State, s': State, t: nat)
    requires CountInv(s) && RunNext(s, s', t)
    ensures CountInv(s')
  {
    RunFrame(s, s', t);
    CountedAfter(s, s', t);
    RunCountEffect(s, s', t);
    assert t in Counted(s) <==> t in s.runners && Counts(s.runners[t]);
  }

  lemma RunKeepsOnce(s: State, s': State, t: nat)
    requires RunningInv(s) && CountInv(s) && OnceInv(s) && RunNext(s, s', t)
    ensures OnceInv(s')
  {
    assert s'.closers == s.closers && s'.once == s.once && s'.cleanups == s.cleanups && s'.closed == s.closed;
    assert t in s.runners && Counts(s.runners[t]) ==> t in Counted(s);
  }

  lemma CloseKeepsInv(s: State, s': State, t: nat)
    requires Inv(s) && CloseNext(s, s', t)
    ensures Inv(s')
  {
    CloseFrame(s, s', t);
    assert Counted(s') == Counted(s);
    CloseKeepsMutex(s, s', t);
    CloseKeepsRunning(s, s', t);
    CloseKeepsOnce(s, s', t);
    CloseKeepsFlags(s, s', t);
  }

  lemma CloseKeepsFlags(s: State, s': State, t: nat)
    requires OnceInv(s) && FlagInv(s) && CloseNext(s, s', t)
    ensures FlagInv(s')
  {
    CloseFrame(s, s', t);
    CloseFlagEffect(s, s', t);
    assert HasOwner(s') <==> HasOwner(s);
    if s'.closed {
      if s.closed {
        var c :| c in s.closers && Marked(s.closers[c]);
        assert c in s'.closers && Marked(s'.closers[c]);
      } else {
        assert Marked(s'.closers[t]);
      }
    }
    if c :| c in s'.closers && Marked(s'.closers[c]) {
      assert c != t ==> c in s.closers && Marked(s.closers[c]);
    }
  }

  lemma CloseFlagEffect(s: State, s': State, t: nat)
    requires OnceInv(s) && CloseNext(s, s', t) && (s.once == Done ==> s.cancelled)
    requires t in s.closers && Cancels(s.closers[t]) ==> s.cancelled
    ensures t in s'.closers && s'.running == s.running && (s.cancelled ==> s'.cancelled)
    ensures t in s.closers && Marked(s.closers[t]) ==> Marked(s'.closers[t])
    ensures s.closed != s'.closed ==> s'.closed && Marked(s'.closers[t])
    ensures Marked(s'.closers[t]) && !(t in s.closers && Marked(s.closers[t])) ==> s'.closed
    ensures Cancels(s'.closers[t]) || s'.once == Done ==> s'.cancelled
  {}

  /** Closing happens under the mutex, so no runner is between its test of the flag and its Add. */
  lemma CloseKeepsRunning(s: State, s': State, t: nat)
    requires MutexInv(s) && RunningInv(s) && CloseNext(s, s', t)
    ensures RunningInv(s')
  {
    CloseFrame(s, s', t);
    assert s'.running == s.running;
    if s'.closed != s.closed {
      assert s.mutex == Closer(t);
    }
  }

  lemma CloseKeepsMutex(s: State, s': State, t: nat)
    requires MutexInv(s) && CloseNext(s, s', t)
    ensures MutexInv(s')
  {
    CloseFrame(s, s', t);
    CloseMutexEffect(s, s', t);
    assert s.mutex != s'.mutex ==> s.mutex in {Nobody, Closer(t)} && s'.mutex in {Nobody, Closer(t)};
  }

  lemma CloseMutexEffect(s: State, s': State, t: nat)
    requires CloseNext(s, s', t)
    requires s.mutex == Closer(t) <==> t in s.closers && (s.closers[t].CloseLocked? || s.closers[t].CloseMarked?)
    ensures t in s'.closers && (s'.mutex == Closer(t) <==> s'.closers[t].CloseLocked? || s'.closers[t].CloseMarked?)
    ensures s'.mutex == s.mutex || {s.mutex, s'.mutex} == {Nobody, Closer(t)}
  {}

  lemma CloseKeepsOnce(s: State, s': State, t: nat)
    requires OnceInv(s) && CloseNext(s, s', t)
    ensures OnceInv(s')
  {
    CloseFrame(s, s', t);
    CloseOnceEffect(s, s', t);
  }

  /** One closer's step moves only that closer. */
  lemma CloseFrame(s: State, s': State, t: nat)
    requires CloseNext(s, s', t)
    ensures t in s'.closers && s'.closers == s.closers[t := s'.closers[t]]
    ensures s'.runners == s.runners && s'.runs == s.runs && (s.closed ==> s'.closed)
  {}

  /** What one closer's step does to the once-guard. */
  lemma CloseOnceEffect(s: State, s': State, t: nat)
    requires CloseNext(s, s', t)
    requires t in s.closers ==> (s.once == Busy(t) <==> InOnce(s.closers[t]))
    requires t !in s.closers ==> s.once != Busy(t)
    ensures t in s'.closers && (s'.once == Busy(t) <==> InOnce(s'.closers[t]))
    ensures s'.once == s.once || (s.once == Unused && s'.once == Busy(t)) || (s.once == Busy(t) && s'.once == Done)
  {}

  lemma NextKeepsInv(s: State, s': State)
    requires Inv(s) && Next(s, s')
    ensures Inv(s')
  {
    if t :| RunNext(s, s', t) {
      RunKeepsMutex(s, s', t);
      RunKeepsRunning(s, s', t);
      RunKeepsCount(s, s', t);
      RunKeepsOnce(s, s', t);
      RunKeepsFlags(s, s', t);
    } else {
      var t :| CloseNext(s, s', t);
      CloseKeepsInv(s, s', t);
    }
  }

  lemma {:induction false} RunInv(run: seq<State>)
    requires IsRun(run)
    ensures Inv(run[|run| - 1])
    decreases |run|
  {
    if |run| > 1 {
      RunInv(run[..|run| - 1]);
      assert Next(run[|run| - 2], run[|run| - 1]);
      NextKeepsInv(run[|run| - 2], run[|run| - 1]);
    } else {
      assert Counted(run[0]) == {};
    }
  }

  // ---------------------------------------------------------------- main results

  /** In every interleaving, at most one daemon body executes at a time. */
  lemma OneBodyAtATime(run: seq<State>, t: nat, t': nat)
    requires IsRun(run)
    requires t in run[|run| - 1].runners && t' in run[|run| - 1].runners
    requires run[|run| - 1].runners[t].Body? && run[|run| - 1].runners[t'].Body?
    ensures t == t'
  {
    RunInv(run);
  }

  /** In every interleaving, cleanup runs at most once; from its start on no body executes and no
      call holds a place in the wait group, so none ever will. */
  lemma CleanupRunsAlone(run: seq<State>)
    requires IsRun(run)
    ensures
      var s := run[|run| - 1];
      && s.cleanups <= 1
      && (s.cleanups == 1 ==> s.closed && s.cancelled)
      && (s.cleanups == 1 ==> forall t :: t in s.runners ==> !Counts(s.runners[t]) && !s.runners[t].RunMarked?)
  {
    RunInv(run);
    var s := run[|run| - 1];
    assert forall t :: t in s.runners && Counts(s.runners[t]) ==> t in Counted(s);
  }

  /** Once Close has returned to any caller, cleanup is over and every later Run is refused. */
  lemma ReturnedCloseIsFinal(run: seq<State>, c: nat, t: nat, s': State)
    requires IsRun(run) && c in run[|run| - 1].closers && run[|run| - 1].closers[c].CloseReturned?
    requires t in run[|run| - 1].runners && run[|run| - 1].runners[t].RunLocked? && RunNext(run[|run| - 1], s', t)
    ensures run[|run| - 1].cleanups == 1 && s'.runners[t] == RunReturned(Closed)
  {
    RunInv(run);
  }

  /** What a call that holds the lock is told, in every run: Closed exactly when some Close has marked
      the app, AlreadyRunning exactly when another call is between setting and clearing the flag, and
      otherwise it is admitted. */
  lemma AdmissionExactly(run: seq<State>, t: nat, s': State)
    requires IsRun(run) && t in run[|run| - 1].runners && run[|run| - 1].runners[t].RunLocked?
    requires RunNext(run[|run| - 1], s', t)
    ensures
      var s := run[|run| - 1];
      && t in s'.runners
      && (s'.runners[t] == RunReturned(Closed) <==> exists c :: c in s.closers && Marked(s.closers[c]))
      && (s'.runners[t] == RunReturned(AlreadyRunning) <==>
        !HasMarked(s) && exists u :: u != t && u in s.runners && Owns(s.runners[u]))
      && (s'.runners[t] == RunMarked <==> !HasMarked(s) && !HasOwner(s))
  {
    RunInv(run);
    var s := run[|run| - 1];
    assert !Owns(s.runners[t]);
  }

  /** An admitted call holds the lock until it is counted, so nothing keeps it from its body. */
  lemma AdmittedReachesBody(s: State, t: nat) returns (counted: State, body: State)
    requires t in s.runners && s.runners[t].RunMarked?
    ensures RunNext(s, counted, t) && t in counted.runners && counted.runners[t] == RunAdded
    ensures RunNext(counted, body, t) && t in body.runners && body.runners[t] == Body
  {
    counted := With(s, t, RunStep(SeenBy(s, t), t, s.closed));
    body := With(counted, t, RunStep(SeenBy(counted, t), t, counted.closed));
  }

  // ---------------------------------------------------------------- every call comes to an end

  /** Steps a call has left. */
  function RunRank(pc: RunPc): nat {
    match pc
    case RunWants => 9
    case RunLocked => 8
    case RunMarked => 7
    case RunAdded => 6
    case Body => 5
    case BodyReturned => 4
    case ClearLocked => 3
    case Cleared => 2
    case NotYetDone => 1
    case RunReturned(_) => 0
  }

  function CloseRank(pc: ClosePc): nat {
    match pc
    case CloseWants => 7
    case OnceEntered => 6
    case CloseLocked => 5
    case CloseMarked => 4
    case CloseUnlocked => 3
    case CloseCancelled => 2
    case CleaningUp => 1
    case CloseReturned => 0
  }

  /** Each step of a call lowers its own rank and leaves every other call where it is. */
  lemma RunStepsRunOut(s: State, s': State, t: nat)
    requires RunNext(s, s', t) && t in s.runners
    ensures s'.closers == s.closers && t in s'.runners && s'.runners == s.runners[t := s'.runners[t]]
    ensures RunRank(s'.runners[t]) < RunRank(s.runners[t])
  {}

  lemma CloseStepsRunOut(s: State, s': State, t: nat)
    requires CloseNext(s, s', t) && t in s.closers
    ensures s'.runners == s.runners && t in s'.closers && s'.closers == s.closers[t := s'.closers[t]]
    ensures CloseRank(s'.closers[t]) < CloseRank(s.closers[t])
  {}

  ghost predicate Unfinished(s: State) {
    || (exists t :: t in s.runners && RunRank(s.runners[t]) > 0)
    || (exists t :: t in s.closers && CloseRank(s.closers[t]) > 0)
  }

  /** And no run is stuck: while a call has not returned, some call that has begun has a step. Together:
      without new calls, every run ends with every call returned. */
  lemma NeverStuck(run: seq<State>) returns (s': State)
    requires IsRun(run) && Unfinished(run[|run| - 1])
    ensures
      var s := run[|run| - 1];
      (exists t :: t in s.runners && RunNext(s, s', t)) || (exists t :: t in s.closers && CloseNext(s, s', t))
  {
    RunInv(run);
    var s := run[|run| - 1];
    if t :| t in s.runners && RunRank(s.runners[t]) > 0 && (s.mutex == Nobody || s.mutex == Runner(t)) {
      s' := With(s, t, RunStep(SeenBy(s, t), t, s.closed));
      assert RunNext(s, s', t);
    } else if s.mutex.Closer? {
      s' := CloserStep(s, s.mutex.id);
    } else {
      var t := StuckCloser(s);
      s' := CloserStep(s, t);
    }
  }

  /** With the mutex free and every Run call returned, the Close call to look at. */
  lemma StuckCloser(s: State) returns (t: nat)
    requires Inv(s) && Unfinished(s) && s.mutex == Nobody
    requires forall u :: u in s.runners ==> RunRank(s.runners[u]) == 0
    ensures t in s.closers && CanStep(s, t)
  {
    assert Counted(s) == {};
    t :| t in s.closers && CloseRank(s.closers[t]) > 0;
    if s.once.Busy? {
      t := s.once.id;
    }
  }

  predicate CanStep(s: State, t: nat)
    requires t in s.closers
  {
    match s.closers[t]
    case CloseWants => !s.once.Busy?
    case OnceEntered => s.mutex == Nobody
    case CloseCancelled => s.runs == 0
    case CloseReturned => false
    case _ => true
  }

  lemma CloserStep(s: State, t: nat) returns (s': State)
    requires t in s.closers && CanStep(s, t)
    ensures CloseNext(s, s', t)
  {
    match s.closers[t]
    case CloseWants =>
      s' := if s.once == Unused then s.(once := Busy(t), closers := s.closers[t := OnceEntered])
            else s.(closers := s.closers[t := CloseReturned]);
    case OnceEntered => s' := s.(mutex := Closer(t), closers := s.closers[t := CloseLocked]);
    case CloseLocked => s' := s.(closed := true, closers := s.closers[t := CloseMarked]);
    case CloseMarked => s' := s.(mutex := Nobody, closers := s.closers[t := CloseUnlocked]);
    case CloseUnlocked => s' := s.(cancelled := true, closers := s.closers[t := CloseCancelled]);
    case CloseCancelled => s' := s.(cleanups := s.cleanups + 1, closers := s.closers[t := CleaningUp]);
    case CleaningUp => s' := s.(once := Done, closers := s.closers[t := CloseReturned]);
  }
}
