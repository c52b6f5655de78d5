/** AddPeer against Close in internal/wgproxy/proxy.go: sockets, relay goroutines and the wait group
    that Close waits on, under any interleaving of any number of calls. */
module ProxyShutdown {
  import opened NetAddr

  datatype AddPc =
    | AddWants(key: PeerKey)
    | AddLocked(key: PeerKey)                   // holds mu for writing, as do the next four
    | AddBound(key: PeerKey, sock: Socket)      // socket opened
    | AddInserted(key: PeerKey, sock: Socket)   // in the peers map
    | AddCounted(key: PeerKey, sock: Socket)    // loops.Add done
    | AddSpawned                                // goroutine started
    | AddReturned

  datatype ClosePc =
    | CloseWants
    | CloseLocked                               // holds mu for writing
    | CloseMarked                               // set closed, still holds mu
    | ClosingOuter(left: set<Socket>)
    | CloseWantsRead
    | ClosingInner(left: set<Socket>)           // holds mu for reading
    | CloseWaiting                              // in loops.Wait
    | CloseFinished                             // the first Close returned
    | CloseRepeated                             // found the proxy closed

  datatype LoopPc = Reading | Relaying | Leaving | Gone

  datatype Owner = Nobody | Adder(id: nat) | Closer(id: nat)

  datatype State = State(
    writer: Owner,
    readers: set<nat>,
    closed: bool,
    outer: set<Socket>,
    peers: map<PeerKey, Socket>,
    open: set<Socket>,
    nextSocket: Socket,                         // sockets below it were opened at some time
    loops: map<Socket, LoopPc>,
    waiting: int,                               // the wait group's counter
    adders: map<nat, AddPc>,
    closers: map<nat, ClosePc>)

  function Live(s: State): set<Socket> {
    set k | k in s.loops && s.loops[k] != Gone
  }

  /** What New leaves: one open outer socket and one reading loop per family. */
  ghost predicate Init(s: State) {
    && s.writer == Nobody && s.readers == {} && !s.closed && s.peers == map[]
    && s.open == s.outer && (forall k :: k in s.outer <==> 0 <= k < s.nextSocket)
    && s.loops.Keys == s.outer && (forall k :: k in s.loops ==> s.loops[k] == Reading)
    && s.waiting == |s.outer|
    && s.adders == map[] && s.closers == map[]
  }

  // ---------------------------------------------------------------- steps

  /** What an AddPeer call can touch. */
  datatype Adding = Adding(
    pc: AddPc, writer: Owner, peers: map<PeerKey, Socket>, open: set<Socket>, nextSocket: Socket,
    loops: map<Socket, LoopPc>, waiting: int)

  function AddingOf(s: State, t: nat): Adding
    requires t in s.adders
  {
    Adding(s.adders[t], s.writer, s.peers, s.open, s.nextSocket, s.loops, s.waiting)
  }

  function WithAdding(s: State, t: nat, a: Adding): State {
    s.(adders := s.adders[t := a.pc], writer := a.writer, peers := a.peers, open := a.open,
       nextSocket := a.nextSocket, loops := a.loops, waiting := a.waiting)
  }

  ghost predicate AddStep(a: Adding, a': Adding, t: nat, closed: bool, readers: set<nat>) {
    match a.pc
    case AddWants(key) => a.writer == Nobody && readers == {} && a' == a.(writer := Adder(t), pc := AddLocked(key))
    case AddLocked(key) =>
      || a' == a.(writer := Nobody, pc := AddReturned)  // closed, known key or bind error
      || (&& !closed && key !in a.peers
          && a' == a.(open := a.open + {a.nextSocket}, nextSocket := a.nextSocket + 1, pc := AddBound(key, a.nextSocket)))
    case AddBound(key, sock) => a' == a.(peers := a.peers[key := sock], pc := AddInserted(key, sock))
    case AddInserted(key, sock) => a' == a.(waiting := a.waiting + 1, pc := AddCounted(key, sock))
    case AddCounted(key, sock) => a' == a.(loops := a.loops[sock := Reading], pc := AddSpawned)
    case AddSpawned => a' == a.(writer := Nobody, pc := AddReturned)
    case AddReturned => false
  }

  ghost predicate AddNext(s: State, s': State, t: nat) {
    && t in s'.adders
    && if t !in s.adders then s'.adders[t].AddWants? && s' == s.(adders := s.adders[t := s'.adders[t]])
       else s' == WithAdding(s, t, AddingOf(s', t)) && AddStep(AddingOf(s, t), AddingOf(s', t), t, s.closed, s.readers)
  }

  /** What a Close call can touch. */
  datatype Closing = Closing(pc: ClosePc, writer: Owner, readers: set<nat>, closed: bool, open: set<Socket>)

  function ClosingOf(s: State, t: nat): Closing
    requires t in s.closers
  {
    Closing(s.closers[t], s.writer, s.readers, s.closed, s.open)
  }

  function WithClosing(s: State, t: nat, c: Closing): State {
    s.(closers := s.closers[t := c.pc], writer := c.writer, readers := c.readers, closed := c.closed, open := c.open)
  }

  ghost predicate CloseStep(c: Closing, c': Closing, t: nat, outer: set<Socket>, inner: set<Socket>, waiting: int) {
    match c.pc
    case CloseWants => c.writer == Nobody && c.readers == {} && c' == c.(writer := Closer(t), pc := CloseLocked)
    case CloseLocked =>
      if c.closed then c' == c.(writer := Nobody, pc := CloseRepeated) else c' == c.(closed := true, pc := CloseMarked)
    case CloseMarked => c' == c.(writer := Nobody, pc := ClosingOuter(outer))
    case ClosingOuter(left) =>
      if left == {} then c' == c.(pc := CloseWantsRead)
      else exists k :: k in left && c' == c.(open := c.open - {k}, pc := ClosingOuter(left - {k}))
    case CloseWantsRead => c.writer == Nobody && c' == c.(readers := c.readers + {t}, pc := ClosingInner(inner))
    case ClosingInner(left) =>
      if left == {} then c' == c.(readers := c.readers - {t}, pc := CloseWaiting)
      else exists k :: k in left && c' == c.(open := c.open - {k}, pc := ClosingInner(left - {k}))
    case CloseWaiting => waiting == 0 && c' == c.(pc := CloseFinished)
    case CloseFinished => false
    case CloseRepeated => false
  }

  ghost predicate CloseNext(s: State, s': State, t: nat) {
    && t in s'.closers
    && if t !in s.closers then s' == s.(closers := s.closers[t := CloseWants])
       else
         && s' == WithClosing(s, t, ClosingOf(s', t))
         && CloseStep(ClosingOf(s, t), ClosingOf(s', t), t, s.outer, s.peers.Values, s.waiting)
  }

  /** A relay loop leaves on a closed socket, or on any read error once the proxy is closed. */
  ghost predicate LoopNext(s: State, s': State, k: Socket) {
    && k in s.loops
    && match s.loops[k]
       case Reading =>
         || (k in s.open && s' == s.(loops := s.loops[k := Relaying]))
         || (k !in s.open && s' == s.(loops := s.loops[k := Leaving]))
         || (s.closed && s.writer == Nobody && s' == s.(loops := s.loops[k := Leaving]))
       case Relaying => s' == s.(loops := s.loops[k := Reading])
       case Leaving => s' == s.(waiting := s.waiting - 1, loops := s.loops[k := Gone])
       case Gone => false
  }

  ghost predicate Next(s: State, s': State) {
    || (exists t :: AddNext(s, s', t))
    || (exists t :: CloseNext(s, s', t))
    || (exists k :: LoopNext(s, s', k))
  }

  ghost predicate IsRun(run: seq<State>) {
    && |run| > 0
    && Init(run[0])
    && forall i :: 0 <= i < |run| - 1 ==> Next(run[i], run[i + 1])
  }

  // ---------------------------------------------------------------- invariant

  predicate AddHoldsMutex(pc: AddPc) {
    !pc.AddWants? && !pc.AddReturned?
  }

  /** Past the closed test: a socket is being added. */
  predicate AddCommitted(pc: AddPc) {
    pc.AddBound? || pc.AddInserted? || pc.AddCounted? || pc.AddSpawned?
  }

  predicate IsFirstCloser(pc: ClosePc) {
    !pc.CloseWants? && !pc.CloseLocked? && !pc.CloseRepeated?
  }

  predicate OuterClosed(pc: ClosePc) {
    pc.CloseWantsRead? || pc.ClosingInner? || pc.CloseWaiting? || pc.CloseFinished?
  }

  ghost predicate MutexInv(s: State) {
    && (forall t :: t in s.adders ==> (s.writer == Adder(t) <==> AddHoldsMutex(s.adders[t])))
    && (forall t :: t in s.closers ==> (s.writer == Closer(t) <==> s.closers[t].CloseLocked? || s.closers[t].CloseMarked?))
    && (s.writer.Adder? ==> s.writer.id in s.adders)
    && (s.writer.Closer? ==> s.writer.id in s.closers)
    && (forall t :: t in s.adders && AddCommitted(s.adders[t]) ==> !s.closed)
  }

  /** Exactly one Close is the first, once the proxy is closed. */
  ghost predicate FirstInv(s: State) {
    && (forall t :: t in s.closers && IsFirstCloser(s.closers[t]) ==> s.closed)
    && (forall t, t' :: t in s.closers && t' in s.closers && IsFirstCloser(s.closers[t]) && IsFirstCloser(s.closers[t']) ==>
      t == t')
  }

  /** Every socket ever opened is an outer one, a peer's, or still in its AddPeer call. */
  ghost predicate AccountInv(s: State) {
    forall k :: k in s.open ==> k in s.outer || k in s.peers.Values || k in BeingAdded(s)
  }

  /** The socket of an AddPeer call that has not reached the peers map. */
  function BeingAdded(s: State): set<Socket> {
    if s.writer.Adder? && s.writer.id in s.adders && s.adders[s.writer.id].AddBound?
    then {s.adders[s.writer.id].sock} else {}
  }

  /** The socket of a call that has not started its loop has none. */
  predicate OwnSocketNew(s: State, pc: AddPc) {
    pc.AddBound? || pc.AddInserted? || pc.AddCounted? ==> pc.sock !in s.loops && pc.sock < s.nextSocket
  }

  /** The key of an AddPeer call that opened a socket is not yet in the map. */
  predicate OwnKeyNew(s: State, pc: AddPc) {
    pc.AddBound? ==> pc.key !in s.peers
  }

  ghost predicate SocketInv(s: State) {
    && (forall k :: k in s.open || k in s.loops ==> k < s.nextSocket)
    && (forall t :: t in s.adders ==> OwnSocketNew(s, s.adders[t]))
  }

  ghost predicate AddKeysFresh(s: State) {
    forall t :: t in s.adders ==> OwnKeyNew(s, s.adders[t])
  }

  /** Of these sockets, only `left` can still be open. */
  ghost predicate ClosedExcept(s: State, socks: set<Socket>, left: set<Socket>) {
    forall k :: k in socks && k in s.open ==> k in left
  }

  /** How far the first Close has got. */
  ghost predicate CloseProgress(s: State, pc: ClosePc) {
    && (pc.ClosingOuter? ==> ClosedExcept(s, s.outer, pc.left))
    && (OuterClosed(pc) ==> ClosedExcept(s, s.outer, {}))
    && (pc.ClosingInner? ==> ClosedExcept(s, s.peers.Values, pc.left))
    && (pc.CloseWaiting? || pc.CloseFinished? ==> ClosedExcept(s, s.peers.Values, {}))
  }

  ghost predicate CloseInv(s: State) {
    forall t :: t in s.closers ==> CloseProgress(s, s.closers[t])
  }

  /** The wait group counts the goroutines that have not left, plus one just before its start. */
  ghost predicate CountInv(s: State) {
    s.waiting == |Live(s)| + Starting(s)
  }

  /** One while a goroutine is counted and not yet started. */
  function Starting(s: State): nat {
    if s.writer.Adder? && s.writer.id in s.adders && s.adders[s.writer.id].AddCounted? then 1 else 0
  }

  ghost predicate DoneInv(s: State) {
    forall t :: t in s.closers && s.closers[t].CloseFinished? ==> s.waiting == 0
  }

  ghost predicate Inv(s: State) {
    MutexInv(s) && FirstInv(s) && SocketInv(s) && AccountInv(s) && AddKeysFresh(s) && CloseInv(s) && CountInv(s) && DoneInv(s)
  }

  lemma InitInv(s: State)
    requires Init(s)
    ensures Inv(s)
  {
    assert Live(s) == s.outer;
  }

  lemma AddKeepsInv(s: State, s': State, t: nat)
    requires Inv(s) && AddNext(s, s', t)
    ensures Inv(s')
  {
    AddKeepsMutex(s, s', t);
    AddKeepsSockets(s, s', t);
    AddKeepsAccount(s, s', t);
    AddKeepsClose(s, s', t);
    AddKeepsCount(s, s', t);
  }

  lemma AddKeepsMutex(s: State, s': State, t: nat)
    requires MutexInv(s) && FirstInv(s) && AddNext(s, s', t)
    ensures MutexInv(s') && FirstInv(s')
  {
    AddFrame(s, s', t);
    AddMutexEffect(s, s', t);
    assert s.writer != s'.writer ==> s.writer in {Nobody, Adder(t)} && s'.writer in {Nobody, Adder(t)};
  }

  /** One call's step moves only that call. */
  lemma AddFrame(s: State, s': State, t: nat)
    requires AddNext(s, s', t)
    ensures s'.closers == s.closers && s'.closed == s.closed && s'.outer == s.outer
    ensures t in s'.adders && s'.adders == s.adders[t := s'.adders[t]]
  {}

  lemma AddMutexEffect(s: State, s': State, t: nat)
    requires AddNext(s, s', t)
    requires s.writer == Adder(t) <==> t in s.adders && AddHoldsMutex(s.adders[t])
    requires t in s.adders && AddCommitted(s.adders[t]) ==> !s.closed
    ensures t in s'.adders && (s'.writer == Adder(t) <==> AddHoldsMutex(s'.adders[t]))
    ensures s'.writer == s.writer || {s.writer, s'.writer} == {Nobody, Adder(t)}
    ensures AddCommitted(s'.adders[t]) ==> !s'.closed
  {}

  lemma ValuesAfterInsert(m: map<PeerKey, Socket>, key: PeerKey, sock: Socket)
    requires key !in m
    ensures m[key := sock].Values == m.Values + {sock}
  {
    assert key in m[key := sock];
    forall k | k in m.Values ensures k in m[key := sock].Values {
      var x :| x in m && m[x] == k;
      assert x in m[key := sock] && m[key := sock][x] == k;
    }
  }

  /** What one call's step does to sockets and peers, given what it knows of its own socket and key. */
  lemma AddSocketEffect(s: State, s': State, t: nat)
    requires AddNext(s, s', t)
    requires forall k :: k in s.open || k in s.loops ==> k < s.nextSocket
    requires t in s.adders ==> OwnSocketNew(s, s.adders[t]) && OwnKeyNew(s, s.adders[t])
    ensures s.nextSocket <= s'.nextSocket && forall k :: k in s'.open || k in s'.loops ==> k < s'.nextSocket
    ensures OwnSocketNew(s', s'.adders[t]) && OwnKeyNew(s', s'.adders[t])
    ensures s'.loops != s.loops || s'.peers != s.peers ==> t in s.adders && AddHoldsMutex(s.adders[t])
  {}

  lemma AddKeepsSockets(s: State, s': State, t: nat)
    requires MutexInv(s) && SocketInv(s) && AddKeysFresh(s) && AddNext(s, s', t)
    ensures SocketInv(s') && AddKeysFresh(s')
  {
    AddFrame(s, s', t);
    assert t in s.adders ==> OwnSocketNew(s, s.adders[t]) && OwnKeyNew(s, s.adders[t]);
    AddSocketEffect(s, s', t);
    forall u | u in s'.adders ensures OwnSocketNew(s', s'.adders[u]) && OwnKeyNew(s', s'.adders[u]) {
      if u != t {
        assert OwnSocketNew(s, s.adders[u]) && OwnKeyNew(s, s.adders[u]);
      }
    }
  }

  lemma AddKeepsAccount(s: State, s': State, t: nat)
    requires MutexInv(s) && AccountInv(s) && AddKeysFresh(s) && AddNext(s, s', t)
    ensures AccountInv(s')
  {
    if t in s.adders && s.adders[t].AddBound? {
      ValuesAfterInsert(s.peers, s.adders[t].key, s.adders[t].sock);
      assert BeingAdded(s) == {s.adders[t].sock};
    } else if t in s.adders && AddHoldsMutex(s.adders[t]) {
      assert BeingAdded(s) == {};
      assert s'.peers == s.peers;
    } else {
      assert BeingAdded(s') == BeingAdded(s);
    }
  }

  lemma AddKeepsClose(s: State, s': State, t: nat)
    requires MutexInv(s) && FirstInv(s) && CloseInv(s) && DoneInv(s) && AddNext(s, s', t)
    ensures CloseInv(s') && DoneInv(s')
  {
    assert s'.closers == s.closers;
    if t in s.adders && AddHoldsMutex(s.adders[t]) && s' != s.(writer := s'.writer, adders := s'.adders) {
      assert !s.closed;
      assert forall u :: u in s.closers ==> !IsFirstCloser(s.closers[u]);
    }
  }

  /** The wait group moves with the call's own stage. */
  lemma AddCountEffect(s: State, s': State, t: nat)
    requires MutexInv(s) && AddNext(s, s', t)
    ensures t in s.adders && s.adders[t].AddCounted? ==>
      s'.loops == s.loops[s.adders[t].sock := Reading] && s'.waiting == s.waiting && Starting(s) == 1 && Starting(s') == 0
    ensures t !in s.adders || !s.adders[t].AddCounted? ==>
      s'.loops == s.loops && s'.waiting - s.waiting == Starting(s') - Starting(s)
  {
    if t in s.adders && AddHoldsMutex(s.adders[t]) {
      assert s.writer == Adder(t);
    }
  }

  lemma AddKeepsCount(s: State, s': State, t: nat)
    requires MutexInv(s) && SocketInv(s) && CountInv(s) && AddNext(s, s', t)
    ensures CountInv(s')
  {
    AddCountEffect(s, s', t);
    if t in s.adders && s.adders[t].AddCounted? {
      var sock := s.adders[t].sock;
      assert OwnSocketNew(s, s.adders[t]);
      LiveAfter(s, s', sock);
    } else {
      assert Live(s') == Live(s);
    }
  }

  lemma LiveAfter(s: State, s': State, k: Socket)
    requires k in s'.loops && s'.loops == s.loops[k := s'.loops[k]]
    ensures |Live(s')| - |Live(s)|
      == (if s'.loops[k] != Gone then 1 else 0) - (if k in s.loops && s.loops[k] != Gone then 1 else 0)
  {
    assert Live(s') == if s'.loops[k] != Gone then Live(s) + {k} else Live(s) - {k};
  }

  lemma CloseKeepsMutex(s: State, s': State, t: nat)
    requires MutexInv(s) && FirstInv(s) && CloseNext(s, s', t)
    ensures MutexInv(s')
  {
    CloseFrame(s, s', t);
    assert s'.writer != s.writer ==> s.writer == Closer(t) || s'.writer == Closer(t);
    if t in s.closers && s.closers[t].CloseLocked? {
      assert forall a :: a in s.adders ==> !AddHoldsMutex(s.adders[a]);
    }
  }

  lemma CloseKeepsFirst(s: State, s': State, t: nat)
    requires FirstInv(s) && CloseNext(s, s', t)
    ensures FirstInv(s')
  {
    CloseFrame(s, s', t);
    if t in s.closers && s.closers[t].CloseLocked? && !s.closed {
      assert forall u :: u in s.closers ==> !IsFirstCloser(s.closers[u]);
    }
  }

  lemma CloseFrame(s: State, s': State, t: nat)
    requires CloseNext(s, s', t)
    ensures s'.adders == s.adders && s'.peers == s.peers && s'.outer == s.outer && s'.nextSocket == s.nextSocket
    ensures s'.loops == s.loops && s'.waiting == s.waiting && s'.open <= s.open
    ensures s.writer.Adder? || s'.writer.Adder? ==> s'.writer == s.writer || s.closers[t].CloseLocked? || s.closers[t].CloseMarked?
    ensures forall u :: u != t && u in s'.closers ==> u in s.closers && s'.closers[u] == s.closers[u]
  {}

  lemma CloseKeepsProgress(s: State, s': State, t: nat)
    requires CloseInv(s) && DoneInv(s) && CloseNext(s, s', t)
    ensures CloseInv(s') && DoneInv(s')
  {
    CloseFrame(s, s', t);
    forall u | u in s'.closers && u != t ensures CloseProgress(s', s'.closers[u]) {
      assert CloseProgress(s, s.closers[u]);
    }
    if t in s.closers {
      assert CloseProgress(s, s.closers[t]);
      assert CloseProgress(s', s'.closers[t]);
    }
  }

  lemma CloseKeepsInv(s: State, s': State, t: nat)
    requires Inv(s) && CloseNext(s, s', t)
    ensures Inv(s')
  {
    CloseKeepsMutex(s, s', t);
    CloseKeepsFirst(s, s', t);
    CloseKeepsProgress(s, s', t);
    CloseFrame(s, s', t);
    assert Live(s') == Live(s);
    assert s.writer.Adder? ==> s'.writer == s.writer;
    assert BeingAdded(s') == BeingAdded(s);
  }

  lemma LoopKeepsInv(s: State, s': State, k: Socket)
    requires Inv(s) && LoopNext(s, s', k)
    ensures Inv(s')
  {
    LoopFrame(s, s', k);
    FrameKeeps(s, s');
    LoopKeepsCount(s, s', k);
  }

  lemma LoopFrame(s: State, s': State, k: Socket)
    requires LoopNext(s, s', k)
    ensures s' == s.(waiting := s'.waiting, loops := s'.loops) && s'.loops.Keys == s.loops.Keys
    ensures s.waiting == 0 ==> s'.waiting == 0 || s.loops[k] == Leaving
  {}

  /** What does not speak of the relay loops. */
  lemma FrameKeeps(s: State, s': State)
    requires MutexInv(s) && FirstInv(s) && SocketInv(s) && AccountInv(s) && AddKeysFresh(s) && CloseInv(s)
    requires s' == s.(waiting := s'.waiting, loops := s'.loops) && s'.loops.Keys == s.loops.Keys
    ensures MutexInv(s') && FirstInv(s') && SocketInv(s') && AccountInv(s') && AddKeysFresh(s') && CloseInv(s')
  {
    assert BeingAdded(s') == BeingAdded(s);
    assert forall j :: j in s'.loops <==> j in s.loops.Keys;
    forall t | t in s'.closers ensures CloseProgress(s', s'.closers[t]) {
      assert CloseProgress(s, s.closers[t]);
    }
  }

  lemma LoopKeepsCount(s: State, s': State, k: Socket)
    requires CountInv(s) && DoneInv(s) && LoopNext(s, s', k)
    ensures CountInv(s') && DoneInv(s')
  {
    LoopCountEffect(s, s', k);
    LiveAfter(s, s', k);
    assert k in Live(s);
  }

  lemma LoopCountEffect(s: State, s': State, k: Socket)
    requires LoopNext(s, s', k)
    ensures k in s'.loops && s'.loops == s.loops[k := s'.loops[k]] && s.loops[k] != Gone
    ensures s'.waiting == if s'.loops[k] == Gone then s.waiting - 1 else s.waiting
    ensures Starting(s') == Starting(s) && s'.closers == s.closers
  {}

  lemma NextKeepsInv(s: State, s': State)
    requires Inv(s) && Next(s, s')
    ensures Inv(s')
  {
    if t :| AddNext(s, s', t) {
      AddKeepsInv(s, s', t);
    } else if t :| CloseNext(s, s', t) {
      CloseKeepsInv(s, s', t);
    } else {
      var k :| LoopNext(s, s', k);
      LoopKeepsInv(s, s', k);
    }
  }

  lemma {:induction false} RunInv(run: seq<State>)
    requires IsRun(run)
    ensures Inv(run[|run| - 1])
    decreases |run|
  {
    if |run| == 1 {
      InitInv(run[0]);
    } else {
      RunInv(run[..|run| - 1]);
      assert Next(run[|run| - 2], run[|run| - 1]);
      NextKeepsInv(run[|run| - 2], run[|run| - 1]);
    }
  }

  // ---------------------------------------------------------------- main result

  /** In every interleaving, once the first Close has returned: every socket ever opened is closed,
      every relay goroutine is gone, and no AddPeer call is about to start another. */
  lemma ClosedForGood(run: seq<State>, t: nat)
    requires IsRun(run)
    requires t in run[|run| - 1].closers && run[|run| - 1].closers[t].CloseFinished?
    ensures
      var s := run[|run| - 1];
      && s.open == {}
      && (forall k :: k in s.loops ==> s.loops[k] == Gone)
      && (forall a :: a in s.adders ==> !AddCommitted(s.adders[a]))
  {
    RunInv(run);
    var s := run[|run| - 1];
    assert s.closed && |Live(s)| == 0;
    assert forall k :: k in s.loops && s.loops[k] != Gone ==> k in Live(s);
    assert BeingAdded(s) == {};
    assert s.open <= s.outer + s.peers.Values;
  }

  // ---------------------------------------------------------------- Close comes to its end

  /** The first Close is call t, and no other call is inside a critical section. */
  ghost predicate Quiet(s: State, t: nat) {
    && t in s.closers && IsFirstCloser(s.closers[t])
    && (forall a :: a in s.adders ==> !AddHoldsMutex(s.adders[a]))
    && (forall u :: u in s.closers && u != t ==> s.closers[u].CloseWants? || s.closers[u].CloseRepeated?)
  }

  /** The steps that Close has left itself. */
  function CloseLeft(pc: ClosePc, outer: set<Socket>, inner: set<Socket>): nat {
    match pc
    case CloseMarked => |outer| + |inner| + 5
    case ClosingOuter(left) => |left| + |inner| + 4
    case CloseWantsRead => |inner| + 3
    case ClosingInner(left) => |left| + 2
    case CloseWaiting => 1
    case _ => 0
  }

  function LeftOf(s: State, t: nat): nat
    requires t in s.closers
  {
    CloseLeft(s.closers[t], s.outer, s.peers.Values)
  }

  lemma OnlyCloserHolds(s: State, t: nat)
    requires MutexInv(s) && Quiet(s, t)
    ensures s.writer == if s.closers[t].CloseMarked? then Closer(t) else Nobody
  {}

  /** Until it waits for the loops, and again when they are gone, Close has a step ... */
  lemma CloseIsNotStuck(s: State, t: nat) returns (s': State)
    requires Inv(s) && Quiet(s, t) && !s.closers[t].CloseFinished? && (s.closers[t].CloseWaiting? ==> s.waiting == 0)
    ensures CloseNext(s, s', t)
  {
    var c := ClosingOf(s, t);
    OnlyCloserHolds(s, t);
    var c' := c;
    match s.closers[t] {
      case CloseMarked => c' := c.(writer := Nobody, pc := ClosingOuter(s.outer));
      case ClosingOuter(left) =>
        if left == {} {
          c' := c.(pc := CloseWantsRead);
        } else {
          var k :| k in left;
          c' := c.(open := c.open - {k}, pc := ClosingOuter(left - {k}));
        }
      case CloseWantsRead => c' := c.(readers := c.readers + {t}, pc := ClosingInner(s.peers.Values));
      case ClosingInner(left) =>
        if left == {} {
          c' := c.(readers := c.readers - {t}, pc := CloseWaiting);
        } else {
          var k :| k in left;
          c' := c.(open := c.open - {k}, pc := ClosingInner(left - {k}));
        }
      case CloseWaiting => c' := c.(pc := CloseFinished);
    }
    s' := WithClosing(s, t, c');
    assert ClosingOf(s', t) == c';
  }

  /** ... and each of its steps leaves it one less; the loops take none of it back. */
  lemma CloserProgress(s: State, s': State, t: nat)
    requires Inv(s) && Quiet(s, t) && CloseNext(s, s', t)
    ensures Inv(s') && Quiet(s', t) && LeftOf(s', t) == LeftOf(s, t) - 1
  {
    CloseKeepsInv(s, s', t);
    CloseFrame(s, s', t);
    CloseStepLeft(ClosingOf(s, t), ClosingOf(s', t), t, s.outer, s.peers.Values, s.waiting);
  }

  lemma CloseStepLeft(c: Closing, c': Closing, t: nat, outer: set<Socket>, inner: set<Socket>, waiting: int)
    requires CloseStep(c, c', t, outer, inner, waiting) && IsFirstCloser(c.pc)
    ensures IsFirstCloser(c'.pc) && CloseLeft(c'.pc, outer, inner) == CloseLeft(c.pc, outer, inner) - 1
  {
    if (c.pc.ClosingOuter? || c.pc.ClosingInner?) && c.pc.left != {} {
      var k :| k in c.pc.left && c'.pc.left == c.pc.left - {k};
      OneLess(c.pc.left, k);
    }
  }

  lemma OneLess(left: set<Socket>, k: Socket)
    requires k in left
    ensures |left - {k}| == |left| - 1
  {}

  lemma LoopsDoNotDisturb(s: State, s': State, k: Socket, t: nat)
    requires Inv(s) && Quiet(s, t) && LoopNext(s, s', k)
    ensures Inv(s') && Quiet(s', t) && s'.closers == s.closers && LeftOf(s', t) == LeftOf(s, t)
  {
    LoopKeepsInv(s, s', k);
    LoopFrame(s, s', k);
  }

  /** While Close waits, every socket is closed, so the loops can only leave. */
  lemma AllClosed(s: State, t: nat)
    requires Inv(s) && Quiet(s, t) && s.closers[t].CloseWaiting?
    ensures s.open == {} && s.waiting == |Live(s)|
  {
    assert CloseProgress(s, s.closers[t]);
    OnlyCloserHolds(s, t);
    assert forall k :: k in s.open ==> k in s.outer || k in s.peers.Values;
  }

  function InLoop(s: State): set<Socket> {
    set k | k in s.loops && (s.loops[k] == Reading || s.loops[k] == Relaying)
  }

  function InRelay(s: State): set<Socket> {
    set k | k in s.loops && s.loops[k] == Relaying
  }

  /** Steps the loops have left when nothing can be read any more. */
  function LoopsLeft(s: State): nat {
    |Live(s)| + |InLoop(s)| + |InRelay(s)|
  }

  lemma LoopsAreNotStuck(s: State, t: nat) returns (s': State, k: Socket)
    requires Inv(s) && Quiet(s, t) && s.closers[t].CloseWaiting? && s.waiting > 0
    ensures LoopNext(s, s', k)
  {
    AllClosed(s, t);
    assert Live(s) != {};
    k :| k in Live(s);
    match s.loops[k] {
      case Reading => s' := s.(loops := s.loops[k := Leaving]);
      case Relaying => s' := s.(loops := s.loops[k := Reading]);
      case Leaving => s' := s.(waiting := s.waiting - 1, loops := s.loops[k := Gone]);
    }
  }

  lemma LoopsProgress(s: State, s': State, k: Socket, t: nat)
    requires Inv(s) && Quiet(s, t) && s.closers[t].CloseWaiting? && LoopNext(s, s', k)
    ensures Inv(s') && Quiet(s', t) && s'.closers == s.closers && LoopsLeft(s') == LoopsLeft(s) - 1
  {
    LoopsDoNotDisturb(s, s', k, t);
    AllClosed(s, t);
    LoopCountEffect(s, s', k);
    LoopSetsAfter(s, s', k);
  }

  lemma LoopSetsAfter(s: State, s': State, k: Socket)
    requires k in s.loops && k in s'.loops && s'.loops == s.loops[k := s'.loops[k]]
    requires (s.loops[k] == Relaying && s'.loops[k] == Reading) || (s.loops[k] == Reading && s'.loops[k] == Leaving)
      || (s.loops[k] == Leaving && s'.loops[k] == Gone)
    ensures LoopsLeft(s') == LoopsLeft(s) - 1
  {
    LiveAfter(s, s', k);
    InLoopAfter(s, s', k);
    InRelayAfter(s, s', k);
  }

  lemma InLoopAfter(s: State, s': State, k: Socket)
    requires k in s.loops && k in s'.loops && s'.loops == s.loops[k := s'.loops[k]]
    requires s'.loops[k] == Reading || s'.loops[k] == Relaying ==> k in InLoop(s)
    ensures |InLoop(s')| == if k in InLoop(s) && k !in InLoop(s') then |InLoop(s)| - 1 else |InLoop(s)|
  {
    assert InLoop(s') == if k in InLoop(s') then InLoop(s) else InLoop(s) - {k};
  }

  lemma InRelayAfter(s: State, s': State, k: Socket)
    requires k in s.loops && k in s'.loops && s'.loops == s.loops[k := s'.loops[k]] && s'.loops[k] != Relaying
    ensures |InRelay(s')| == if k in InRelay(s) then |InRelay(s)| - 1 else |InRelay(s)|
  {
    assert InRelay(s') == InRelay(s) - {k};
  }

  ghost predicate SomeLoopNext(s: State, s': State) {
    exists k :: LoopNext(s, s', k)
  }

  ghost predicate LoopsHalted(s: State) {
    forall s' :: !SomeLoopNext(s, s')
  }

  /** So once Close waits, every run of the loops ends within the steps they have left, all of them are
      gone then, and Close returns. */
  lemma {:induction false} CloseReturns(run: seq<State>, t: nat) returns (done: State)
    requires |run| > 0 && Inv(run[0]) && Quiet(run[0], t) && run[0].closers[t].CloseWaiting?
    requires forall i :: 0 <= i < |run| - 1 ==> SomeLoopNext(run[i], run[i + 1])
    ensures |run| <= LoopsLeft(run[0]) + 1
    ensures LoopsHalted(run[|run| - 1]) ==>
      run[|run| - 1].waiting == 0 && CloseNext(run[|run| - 1], done, t) && t in done.closers && done.closers[t].CloseFinished?
    decreases |run|
  {
    if |run| == 1 {
      done := run[0];
      if LoopsHalted(run[0]) {
        HaltedIsEmpty(run[0], t);
        done := CloseIsNotStuck(run[0], t);
      }
    } else {
      var k :| LoopNext(run[0], run[1], k);
      LoopsProgress(run[0], run[1], k, t);
      done := CloseReturns(run[1..], t);
      assert run[1..][|run| - 2] == run[|run| - 1];
    }
  }

  lemma HaltedIsEmpty(s: State, t: nat)
    requires Inv(s) && Quiet(s, t) && s.closers[t].CloseWaiting? && LoopsHalted(s)
    ensures s.waiting == 0
  {
    AllClosed(s, t);
    if s.waiting > 0 {
      var s', k := LoopsAreNotStuck(s, t);
      assert SomeLoopNext(s, s');
    }
  }
}
