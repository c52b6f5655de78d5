/** The establish queue (internal/ctrl/establish.go on internal/queue/queue.go): any number of
    triggering goroutines, one worker and any number of waiters. TryEnqueue and the pending mark are
    separate steps, so the worker may take a peer before its trigger has marked it pending. */
module EstablishQueue {
  import opened NetAddr

  type PeerId = seq<byte>

  const PEER_QUEUE_SIZE := 100

  // ---------------------------------------------------------------- the bounded channel

  /** A full channel refuses. */
  function TryEnqueued<T>(items: seq<T>, size: nat, x: T): (r: (seq<T>, bool))
    ensures |items| <= size ==> |r.0| <= size && (r.1 <==> r.0 != items)
  {
    if |items| < size then (items + [x], true) else (items, false)
  }

  /** A channel that holds something gives up its oldest entry. */
  function Dequeued<T>(items: seq<T>): (r: Option<(T, seq<T>)>)
    ensures r.None? <==> items == []
    ensures r.Some? ==> items == [r.value.0] + r.value.1
  {
    if items == [] then None else Some((items[0], items[1..]))
  }

  class Queue<T> {
    var items: seq<T>
    const size: nat

    ghost predicate Valid()
      reads this
    {
      |items| <= size
    }

    constructor (size: nat)
      ensures Valid() && items == [] && this.size == size
    {
      this.size := size;
      items := [];
    }

    method TryEnqueue(x: T) returns (ok: bool)
      requires Valid()
      modifies this
      ensures Valid() && (items, ok) == TryEnqueued(old(items), size, x)
    {
      ok := |items| < size;
      if ok {
        items := items + [x];
      }
    }

    method Dequeue() returns (x: Option<T>)
      requires Valid()
      modifies this
      ensures Valid()
      ensures match Dequeued(old(items))
        case None => x == None && items == old(items)
        case Some((first, rest)) => x == Some(first) && items == rest
    {
      if items == [] {
        return None;
      }
      x := Some(items[0]);
      items := items[1..];
    }
  }

  datatype TriggerPc =
    | TriggerWants(id: PeerId)
    | TriggerLocked(id: PeerId)    // holds pendingMu
    | TriggerQueued(id: PeerId)    // TryEnqueue succeeded, pending not yet set
    | TriggerMarked                // pending set, still holds pendingMu
    | TriggerReturned(accepted: bool)

  datatype WorkerPc =
    | Idle
    | Executing(id: PeerId)
    | WantsDelete(id: PeerId)      // Execute returned
    | DeleteLocked(id: PeerId)     // holds pendingMu
    | Deleted                      // entry removed, still holds pendingMu
    | Stopped

  datatype WaiterPc =
    | WaiterTicking
    | WaiterLocked                 // holds pendingMu
    | WaiterRead(empty: bool)      // copied the answer, still holds pendingMu
    | WaiterReturned

  datatype Owner = Nobody | Trigger(id: nat) | Worker | Waiter(id: nat)

  /** `accepted` lists the peers in the order TryEnqueue took them, `completed` in the order their
      pending entry was deleted. */
  datatype State = State(
    mutex: Owner,
    pending: set<PeerId>,
    queue: seq<PeerId>,
    worker: WorkerPc,
    triggers: map<nat, TriggerPc>,
    waiters: map<nat, WaiterPc>,
    accepted: seq<PeerId>,
    completed: seq<PeerId>)

  ghost predicate Init(s: State) {
    s == State(Nobody, {}, [], Idle, map[], map[], [], [])
  }

  ghost predicate TriggerNext(s: State, s': State, t: nat) {
    if t !in s.triggers then
      exists id :: s' == s.(triggers := s.triggers[t := TriggerWants(id)])
    else
      match s.triggers[t]
      case TriggerWants(id) =>
        s.mutex == Nobody && s' == s.(mutex := Trigger(t), triggers := s.triggers[t := TriggerLocked(id)])
      case TriggerLocked(id) =>
        var (queue, ok) := TryEnqueued(s.queue, PEER_QUEUE_SIZE, id);
        if id in s.pending || !ok then
          s' == s.(mutex := Nobody, triggers := s.triggers[t := TriggerReturned(false)])
        else
          s' == s.(queue := queue, accepted := s.accepted + [id], triggers := s.triggers[t := TriggerQueued(id)])
      case TriggerQueued(id) =>
        s' == s.(pending := s.pending + {id}, triggers := s.triggers[t := TriggerMarked])
      case TriggerMarked => s' == s.(mutex := Nobody, triggers := s.triggers[t := TriggerReturned(true)])
      case TriggerReturned(_) => false
  }

  /** The worker's context is done while it waits in select. */
  ghost predicate StopNext(s: State, s': State) {
    s.worker == Idle && s' == s.(worker := Stopped)
  }

  ghost predicate WorkNext(s: State, s': State) {
    match s.worker
    case Idle =>
      && Dequeued(s.queue).Some?
      && var (id, rest) := Dequeued(s.queue).value;
         s' == s.(queue := rest, worker := Executing(id))
    case Executing(id) => s' == s.(worker := WantsDelete(id))
    case WantsDelete(id) => s.mutex == Nobody && s' == s.(mutex := Worker, worker := DeleteLocked(id))
    case DeleteLocked(id) => s' == s.(pending := s.pending - {id}, completed := s.completed + [id], worker := Deleted)
    case Deleted => s' == s.(mutex := Nobody, worker := Idle)
    case Stopped => false
  }

  ghost predicate WorkerNext(s: State, s': State) {
    StopNext(s, s') || WorkNext(s, s')
  }

  ghost predicate WaiterNext(s: State, s': State, w: nat) {
    if w !in s.waiters then
      s' == s.(waiters := s.waiters[w := WaiterTicking])
    else
      match s.waiters[w]
      case WaiterTicking => s.mutex == Nobody && s' == s.(mutex := Waiter(w), waiters := s.waiters[w := WaiterLocked])
      case WaiterLocked => s' == s.(waiters := s.waiters[w := WaiterRead(s.pending == {})])
      case WaiterRead(empty) =>
        s' == s.(mutex := Nobody, waiters := s.waiters[w := if empty then WaiterReturned else WaiterTicking])
      case WaiterReturned => false
  }

  ghost predicate Next(s: State, s': State) {
    || (exists t :: TriggerNext(s, s', t))
    || WorkerNext(s, s')
    || (exists w :: WaiterNext(s, s', w))
  }

  ghost predicate IsRun(run: seq<State>) {
    && |run| > 0
    && Init(run[0])
    && forall i :: 0 <= i < |run| - 1 ==> Next(run[i], run[i + 1])
  }

  // ---------------------------------------------------------------- invariant

  /** The peer the worker has taken and not yet finished with. */
  function InFlight(s: State): seq<PeerId> {
    match s.worker
    case Executing(id) => [id]
    case WantsDelete(id) => [id]
    case DeleteLocked(id) => [id]
    case Idle | Deleted | Stopped => []
  }

  /** Taken or queued, oldest first. */
  function Outstanding(s: State): seq<PeerId> {
    InFlight(s) + s.queue
  }

  /** Queued by the trigger that holds the mutex but not yet marked. */
  function Unmarked(s: State): set<PeerId> {
    if s.mutex.Trigger? && s.mutex.id in s.triggers && s.triggers[s.mutex.id].TriggerQueued?
    then {s.triggers[s.mutex.id].id} else {}
  }

  predicate TriggerHoldsMutex(pc: TriggerPc) {
    pc.TriggerLocked? || pc.TriggerQueued? || pc.TriggerMarked?
  }

  ghost predicate MutexInv(s: State) {
    && (forall t :: t in s.triggers ==> (s.mutex == Trigger(t) <==> TriggerHoldsMutex(s.triggers[t])))
    && (forall w :: w in s.waiters ==>
      (s.mutex == Waiter(w) <==> s.waiters[w].WaiterLocked? || s.waiters[w].WaiterRead?))
    && (s.mutex == Worker <==> s.worker.DeleteLocked? || s.worker.Deleted?)
    && (s.mutex.Trigger? ==> s.mutex.id in s.triggers)
    && (s.mutex.Waiter? ==> s.mutex.id in s.waiters)
  }

  ghost predicate NoRepeats(q: seq<PeerId>) {
    forall i, j :: 0 <= i < j < |q| ==> q[i] != q[j]
  }

  ghost predicate PendingInv(s: State) {
    && NoRepeats(Outstanding(s))
    && |s.queue| <= PEER_QUEUE_SIZE
    && (forall id :: id in Outstanding(s) <==> id in s.pending || id in Unmarked(s))
    && s.pending !! Unmarked(s)
    && s.accepted == s.completed + Outstanding(s)
    && (forall w :: w in s.waiters && s.waiters[w] == WaiterRead(true) ==> s.pending == {})
  }

  ghost predicate Inv(s: State) {
    MutexInv(s) && PendingInv(s)
  }

  lemma TriggerKeepsMutex(s: State, s': State, t: nat)
    requires MutexInv(s) && TriggerNext(s, s', t)
    ensures MutexInv(s')
  {}

  lemma EnqueueKeepsPending(s: State, s': State, t: nat)
    requires Inv(s) && TriggerNext(s, s', t) && t in s.triggers && s.triggers[t].TriggerLocked? && s'.queue != s.queue
    ensures PendingInv(s')
  {
    var id := s.triggers[t].id;
    assert Unmarked(s) == {} && Unmarked(s') == {id};
    assert Outstanding(s') == Outstanding(s) + [id];
    assert id !in Outstanding(s);
    assert s'.accepted == s.completed + Outstanding(s) + [id];
  }

  lemma MarkKeepsPending(s: State, s': State, t: nat)
    requires Inv(s) && TriggerNext(s, s', t) && t in s.triggers && s.triggers[t].TriggerQueued?
    ensures PendingInv(s')
  {
    assert Outstanding(s') == Outstanding(s);
    assert Unmarked(s) == {s.triggers[t].id} && Unmarked(s') == {};
    assert forall w :: w in s.waiters ==> !s.waiters[w].WaiterRead?;
  }

  lemma TriggerKeepsPending(s: State, s': State, t: nat)
    requires Inv(s) && TriggerNext(s, s', t)
    ensures PendingInv(s')
  {
    if t in s.triggers && s.triggers[t].TriggerLocked? && s'.queue != s.queue {
      EnqueueKeepsPending(s, s', t);
    } else if t in s.triggers && s.triggers[t].TriggerQueued? {
      MarkKeepsPending(s, s', t);
    } else {
      assert s' == s.(mutex := s'.mutex, triggers := s'.triggers);
      assert Outstanding(s') == Outstanding(s);
      assert Unmarked(s') == Unmarked(s);
    }
  }

  lemma WorkerKeepsMutex(s: State, s': State)
    requires MutexInv(s) && WorkerNext(s, s')
    ensures MutexInv(s')
  {}

  /** Finishing the oldest entry of a list without repeats. */
  lemma FinishOldest(q: seq<PeerId>, pending: set<PeerId>, completed: seq<PeerId>)
    requires q != [] && NoRepeats(q) && (forall id :: id in q <==> id in pending)
    ensures NoRepeats(q[1..])
    ensures forall id :: id in q[1..] <==> id in pending - {q[0]}
    ensures completed + q == completed + [q[0]] + q[1..]
  {
    forall id | id in q && id != q[0] ensures id in q[1..] {
      var k :| 0 <= k < |q| && q[k] == id;
      assert q[1..][k - 1] == id;
    }
  }

  lemma DeleteKeepsPending(s: State, s': State)
    requires Inv(s) && s.worker.DeleteLocked? && WorkerNext(s, s')
    ensures PendingInv(s')
  {
    var q := Outstanding(s);
    assert Unmarked(s) == {} && Unmarked(s') == {};
    FinishOldest(q, s.pending, s.completed);
    assert q[0] == s.worker.id && q[1..] == s.queue;
    assert Outstanding(s') == q[1..];
  }

  lemma WorkerKeepsPending(s: State, s': State)
    requires Inv(s) && WorkerNext(s, s')
    ensures PendingInv(s')
  {
    if s.worker.DeleteLocked? {
      DeleteKeepsPending(s, s');
    } else {
      assert s' == s.(mutex := s'.mutex, queue := s'.queue, worker := s'.worker);
      assert Unmarked(s') == Unmarked(s);
      assert Outstanding(s') == Outstanding(s);
    }
  }

  lemma WaiterKeepsInv(s: State, s': State, w: nat)
    requires Inv(s) && WaiterNext(s, s', w)
    ensures Inv(s')
  {
    assert Outstanding(s') == Outstanding(s) && Unmarked(s') == Unmarked(s) && s'.triggers == s.triggers;
    assert forall u :: u != w && u in s'.waiters ==> u in s.waiters && s'.waiters[u] == s.waiters[u];
  }

  lemma NextKeepsInv(s: State, s': State)
    requires Inv(s) && Next(s, s')
    ensures Inv(s')
  {
    if t :| TriggerNext(s, s', t) {
      TriggerKeepsMutex(s, s', t);
      TriggerKeepsPending(s, s', t);
    } else if WorkerNext(s, s') {
      WorkerKeepsMutex(s, s');
      WorkerKeepsPending(s, s');
    } else {
      var w :| WaiterNext(s, s', w);
      WaiterKeepsInv(s, s', w);
    }
  }

  lemma {:induction false} RunInv(run: seq<State>)
    requires IsRun(run)
    ensures Inv(run[|run| - 1])
    decreases |run|
  {
    if |run| > 1 {
      RunInv(run[..|run| - 1]);
      assert Next(run[|run| - 2], run[|run| - 1]);
      NextKeepsInv(run[|run| - 2], run[|run| - 1]);
    }
  }

  // ---------------------------------------------------------------- main results

  /** Whenever pendingMu is free, the pending set is exactly the queued peers plus the one in
      flight, each once. */
  lemma PendingIsOutstanding(run: seq<State>)
    requires IsRun(run) && run[|run| - 1].mutex == Nobody
    ensures
      var s := run[|run| - 1];
      && (forall id :: id in s.pending <==> id in s.queue || id in InFlight(s))
      && NoRepeats(InFlight(s) + s.queue)
  {
    RunInv(run);
  }

  /** Conservation and order, at every moment: the accepted triggers are the completed ones, then
      the one in flight, then the queue. */
  lemma AcceptedAreServedInOrder(run: seq<State>)
    requires IsRun(run)
    ensures
      var s := run[|run| - 1];
      s.accepted == s.completed + InFlight(s) + s.queue && |InFlight(s)| <= 1 && |s.queue| <= 100
  {
    RunInv(run);
    var s := run[|run| - 1];
    assert s.completed + InFlight(s) + s.queue == s.completed + Outstanding(s);
  }

  /** A refused trigger was refused for a reason: its peer was outstanding, or the queue was full. */
  lemma RefusedOnlyWhenOutstandingOrFull(run: seq<State>, t: nat, s': State)
    requires IsRun(run) && t in run[|run| - 1].triggers && run[|run| - 1].triggers[t].TriggerLocked?
    requires TriggerNext(run[|run| - 1], s', t)
    ensures
      var s := run[|run| - 1];
      s'.triggers[t] == TriggerReturned(false) <==>
        s.triggers[t].id in InFlight(s) + s.queue || |s.queue| == 100
  {
    RunInv(run);
  }

  lemma NothingInIt(q: seq<PeerId>)
    ensures q == [] || exists id :: id in q
  {
    if q != [] {
      assert q[0] in q;
    }
  }

  /** When WaitForCompletion sees an empty set, nothing is queued or running at that observation,
      and every accepted trigger has completed. */
  lemma EmptyMeansIdle(run: seq<State>, w: nat)
    requires IsRun(run) && w in run[|run| - 1].waiters && run[|run| - 1].waiters[w] == WaiterRead(true)
    ensures
      var s := run[|run| - 1];
      s.queue == [] && InFlight(s) == [] && s.completed == s.accepted
  {
    RunInv(run);
    var s := run[|run| - 1];
    assert Unmarked(s) == {};
    NothingInIt(Outstanding(s));
    assert |InFlight(s)| + |s.queue| == 0;
  }

  // ---------------------------------------------------------------- every accepted trigger is served

  /** The worker runs, no trigger is under way and no waiter holds the mutex. */
  ghost predicate Quiet(s: State) {
    && s.worker != Stopped
    && (forall t :: t in s.triggers ==> s.triggers[t].TriggerReturned?)
    && (forall w :: w in s.waiters ==> s.waiters[w].WaiterTicking? || s.waiters[w].WaiterReturned?)
  }

  /** The worker's steps until it is idle with an empty queue. */
  function WorkLeft(s: State): nat {
    5 * |s.queue| +
    match s.worker
    case Idle | Stopped => 0
    case Executing(_) => 4
    case WantsDelete(_) => 3
    case DeleteLocked(_) => 2
    case Deleted => 1
  }

  /** The worker has no step left. */
  ghost predicate Halted(s: State) {
    forall s' :: !WorkNext(s, s')
  }

  /** Nothing but its context stops the worker, and it stops between two peers only. */
  lemma OnlyStopStops(s: State, s': State)
    requires Next(s, s') && s'.worker == Stopped && s.worker != Stopped
    ensures StopNext(s, s') && InFlight(s) == []
  {}

  /** While anything is outstanding the worker has a step ... */
  lemma WorkerIsNotStuck(s: State) returns (s': State)
    requires Inv(s) && Quiet(s) && WorkLeft(s) > 0
    ensures WorkNext(s, s')
  {
    match s.worker
    case Idle => s' := s.(queue := s.queue[1..], worker := Executing(s.queue[0]));
    case Executing(id) => s' := s.(worker := WantsDelete(id));
    case WantsDelete(id) => s' := s.(mutex := Worker, worker := DeleteLocked(id));
    case DeleteLocked(id) => s' := s.(pending := s.pending - {id}, completed := s.completed + [id], worker := Deleted);
    case Deleted => s' := s.(mutex := Nobody, worker := Idle);
  }

  /** ... and each of its steps leaves one less to do. */
  lemma WorkerProgress(s: State, s': State)
    requires Inv(s) && Quiet(s) && WorkNext(s, s')
    ensures Inv(s') && Quiet(s') && s'.accepted == s.accepted && WorkLeft(s') == WorkLeft(s) - 1
  {
    WorkerKeepsMutex(s, s');
    WorkerKeepsPending(s, s');
  }

  /** So every run of the worker comes to its end within the work left, and then every accepted trigger
      has been completed and nothing is pending. */
  lemma {:induction false} EveryTriggerIsServed(run: seq<State>)
    requires |run| > 0 && Inv(run[0]) && Quiet(run[0])
    requires forall i :: 0 <= i < |run| - 1 ==> WorkNext(run[i], run[i + 1])
    ensures |run| <= WorkLeft(run[0]) + 1
    ensures Halted(run[|run| - 1]) ==>
      var s := run[|run| - 1];
      s.completed == s.accepted == run[0].accepted && s.pending == {} && s.queue == [] && s.worker == Idle
    decreases |run|
  {
    if |run| == 1 {
      if Halted(run[0]) {
        Served(run[0]);
      }
    } else {
      WorkerProgress(run[0], run[1]);
      EveryTriggerIsServed(run[1..]);
      assert run[1..][|run| - 2] == run[|run| - 1];
    }
  }

  lemma Served(s: State)
    requires Inv(s) && Quiet(s) && Halted(s)
    ensures s.completed == s.accepted && s.pending == {} && s.queue == [] && s.worker == Idle
  {
    if WorkLeft(s) > 0 {
      var s' := WorkerIsNotStuck(s);
      assert false;
    }
    assert s.queue == [] && Outstanding(s) == [] && Unmarked(s) == {};
    assert forall id :: id in s.pending ==> id in Outstanding(s);
  }

  /** And then a waiter returns at its next tick. */
  lemma WaiterReturns(s: State, w: nat) returns (locked: State, read: State, done: State)
    requires Inv(s) && Quiet(s) && s.pending == {} && s.worker == Idle && w in s.waiters && s.waiters[w].WaiterTicking?
    ensures WaiterNext(s, locked, w) && WaiterNext(locked, read, w) && WaiterNext(read, done, w)
    ensures w in done.waiters && done.waiters[w] == WaiterReturned
  {
    locked := s.(mutex := Waiter(w), waiters := s.waiters[w := WaiterLocked]);
    read := locked.(waiters := locked.waiters[w := WaiterRead(true)]);
    done := read.(mutex := Nobody, waiters := read.waiters[w := WaiterReturned]);
  }
}
