/** Proxy.Exchange (internal/wgproxy/proxy.go) and the parse of its result
    (internal/stun/proxy_client.go), under any interleaving of exchanges and arriving packets. */
module Exchange {
  import opened NetAddr
  import opened StunWire
  import opened TxnRegistry
  import StunRoundTrip

  /** `since` is the number of packets that had arrived when the transaction was registered. */
  datatype Call =
    | Ready(server: AddrPort, id: TxnID)
    | Waiting(server: AddrPort, id: TxnID, reply: nat, since: nat)
    | GaveUp(server: AddrPort, id: TxnID, reply: nat, since: nat)                    // timeout, cancellation or send error
    | Received(server: AddrPort, id: TxnID, reply: nat, since: nat, packet: Packet)  // still registered
    | Returned(server: AddrPort, id: TxnID, reply: nat, since: nat, packet: Packet)
    | Failed

  datatype State = State(registry: Registry, calls: map<nat, Call>, log: seq<Arrival>)

  ghost predicate Init(s: State) {
    s == State(EMPTY, map[], [])
  }

  ghost predicate CallNext(s: State, s': State, t: nat) {
    if t !in s.calls then
      exists server, id :: s' == s.(calls := s.calls[t := Ready(server, id)])
    else
      match s.calls[t]
      case Ready(server, id) =>
        if id in s.registry.pending then s' == s.(calls := s.calls[t := Failed])
        else s' == s.(
          registry := AfterRegister(s.registry, id, server),
          calls := s.calls[t := Waiting(server, id, |s.registry.slots|, |s.log|)])
      case Waiting(server, id, reply, since) =>
        || s' == s.(calls := s.calls[t := GaveUp(server, id, reply, since)])
        || (&& reply < |s.registry.slots|
            && s.registry.slots[reply].Some?
            && s' == s.(
              registry := s.registry.(slots := s.registry.slots[reply := None]),
              calls := s.calls[t := Received(server, id, reply, since, s.registry.slots[reply].value)]))
      case GaveUp(server, id, reply, since) =>
        s' == s.(registry := AfterUnregister(s.registry, id), calls := s.calls[t := Failed])
      case Received(server, id, reply, since, packet) =>
        s' == s.(registry := AfterUnregister(s.registry, id),
                 calls := s.calls[t := Returned(server, id, reply, since, packet)])
      case Returned(_, _, _, _, _) => false
      case Failed => false
  }

  /** Classify hands STUN-shaped packets to the registry and no others. */
  ghost predicate ArrivalNext(s: State, s': State, a: Arrival) {
    s' == s.(
      registry := if IsSTUNShaped(a.packet) then AfterRoute(s.registry, a.src, a.packet) else s.registry,
      log := s.log + [a])
  }

  ghost predicate Next(s: State, s': State) {
    || (exists t :: CallNext(s, s', t))
    || (exists a :: ArrivalNext(s, s', a))
  }

  ghost predicate IsRun(run: seq<State>) {
    && |run| > 0
    && Init(run[0])
    && forall i :: 0 <= i < |run| - 1 ==> Next(run[i], run[i + 1])
  }

  // ---------------------------------------------------------------- invariant

  predicate Answers(a: Arrival, server: AddrPort, id: TxnID) {
    ValidReply(a.src, a.packet, server, id)
  }

  /** No valid reply among the arrivals from..to. */
  ghost predicate Silent(log: seq<Arrival>, from: nat, to: nat, server: AddrPort, id: TxnID) {
    forall j :: from <= j < to && j < |log| ==> !Answers(log[j], server, id)
  }

  /** `packet` is the first valid reply that arrived after the registration. */
  ghost predicate FirstReply(log: seq<Arrival>, since: nat, server: AddrPort, id: TxnID, packet: Packet) {
    exists i :: since <= i < |log| && Answers(log[i], server, id) && log[i].packet == packet
      && Silent(log, since, i, server, id)
  }

  predicate Registered(c: Call) {
    c.Waiting? || c.GaveUp? || c.Received?
  }

  ghost predicate RegisteredInv(s: State) {
    && Valid(s.registry)
    && (forall t :: t in s.calls && Registered(s.calls[t]) ==>
      var c := s.calls[t];
      c.id in s.registry.pending && s.registry.pending[c.id] == Pending(Normalize(c.server), c.reply)
      && c.since <= |s.log|)
    && (forall id, id' :: id in s.registry.pending && id' in s.registry.pending && id != id' ==>
      s.registry.pending[id].reply != s.registry.pending[id'].reply)
    && (forall t, t' :: t in s.calls && t' in s.calls && t != t' && Registered(s.calls[t]) && Registered(s.calls[t']) ==>
      s.calls[t].id != s.calls[t'].id)
  }

  /** A waiter's slot holds the first valid reply since registration, or there was none. */
  ghost predicate SlotInv(s: State) {
    forall t :: t in s.calls && s.calls[t].Waiting? && s.calls[t].reply < |s.registry.slots| ==>
      var c := s.calls[t];
      match s.registry.slots[c.reply]
      case None => Silent(s.log, c.since, |s.log|, c.server, c.id)
      case Some(b) => FirstReply(s.log, c.since, c.server, c.id, b)
  }

  ghost predicate ResultInv(s: State) {
    forall t :: t in s.calls && (s.calls[t].Received? || s.calls[t].Returned?) ==>
      var c := s.calls[t];
      FirstReply(s.log, c.since, c.server, c.id, c.packet)
  }

  /** Every entry is some call's: nothing is left behind. */
  ghost predicate OwnedInv(s: State) {
    forall id :: id in s.registry.pending ==> LiveUser(s, id)
  }

  ghost predicate LiveUser(s: State, id: TxnID) {
    exists t :: t in s.calls && Registered(s.calls[t]) && s.calls[t].id == id
  }

  ghost predicate Inv(s: State) {
    RegisteredInv(s) && SlotInv(s) && ResultInv(s) && OwnedInv(s)
  }

  /** One call's step moves only that call. */
  lemma CallFrame(s: State, s': State, t: nat)
    requires CallNext(s, s', t)
    ensures t in s'.calls && s'.calls == s.calls[t := s'.calls[t]] && s'.log == s.log
  {}

  lemma RegisterKeeps(s: State, s': State, t: nat)
    requires RegisteredInv(s) && CallNext(s, s', t) && t in s.calls && s.calls[t].Ready?
    ensures RegisteredInv(s')
  {
    CallFrame(s, s', t);
  }

  lemma UnregisterKeeps(s: State, s': State, t: nat)
    requires RegisteredInv(s) && CallNext(s, s', t) && t in s.calls && (s.calls[t].GaveUp? || s.calls[t].Received?)
    ensures RegisteredInv(s')
  {
    CallFrame(s, s', t);
    assert s'.registry == AfterUnregister(s.registry, s.calls[t].id) && !Registered(s'.calls[t]);
  }

  lemma WaitKeeps(s: State, s': State, t: nat)
    requires RegisteredInv(s) && CallNext(s, s', t) && (t in s.calls ==> s.calls[t].Waiting?)
    ensures RegisteredInv(s')
  {
    CallFrame(s, s', t);
    assert s'.registry.pending == s.registry.pending && |s'.registry.slots| == |s.registry.slots|;
  }

  lemma CallKeepsRegistered(s: State, s': State, t: nat)
    requires RegisteredInv(s) && CallNext(s, s', t)
    ensures RegisteredInv(s')
  {
    if t in s.calls && s.calls[t].Ready? {
      RegisterKeeps(s, s', t);
    } else if t in s.calls && (s.calls[t].GaveUp? || s.calls[t].Received?) {
      UnregisterKeeps(s, s', t);
    } else {
      WaitKeeps(s, s', t);
    }
  }

  lemma CallKeepsSlots(s: State, s': State, t: nat)
    requires RegisteredInv(s) && SlotInv(s) && CallNext(s, s', t)
    ensures SlotInv(s')
  {
    assert s'.log == s.log;
    forall u | u in s'.calls && s'.calls[u].Waiting? && s'.calls[u].reply < |s'.registry.slots|
      ensures
        var c := s'.calls[u];
        match s'.registry.slots[c.reply]
        case None => Silent(s'.log, c.since, |s'.log|, c.server, c.id)
        case Some(b) => FirstReply(s'.log, c.since, c.server, c.id, b)
    {
      if u != t {
        assert u in s.calls && s'.calls[u] == s.calls[u];
        assert s'.registry.slots[s.calls[u].reply] == s.registry.slots[s.calls[u].reply];
      }
    }
  }

  lemma CallKeepsResults(s: State, s': State, t: nat)
    requires Inv(s) && CallNext(s, s', t)
    ensures ResultInv(s')
  {
    assert s'.log == s.log;
    assert forall u :: u != t && u in s'.calls ==> u in s.calls && s'.calls[u] == s.calls[u];
  }

  lemma CallKeepsInv(s: State, s': State, t: nat)
    requires Inv(s) && CallNext(s, s', t)
    ensures Inv(s')
  {
    CallKeepsRegistered(s, s', t);
    CallKeepsSlots(s, s', t);
    CallKeepsResults(s, s', t);
    CallKeepsOwned(s, s', t);
  }

  /** Where an entry comes from and when it goes. */
  lemma CallEntries(s: State, s': State, t: nat, id: TxnID)
    requires RegisteredInv(s) && CallNext(s, s', t) && id in s'.registry.pending
    ensures id in s.registry.pending || (t in s'.calls && Registered(s'.calls[t]) && s'.calls[t].id == id)
    ensures t in s.calls && Registered(s.calls[t]) && s.calls[t].id == id ==>
      t in s'.calls && Registered(s'.calls[t]) && s'.calls[t].id == id
  {}

  lemma CallKeepsOwned(s: State, s': State, t: nat)
    requires RegisteredInv(s) && OwnedInv(s) && CallNext(s, s', t)
    ensures OwnedInv(s')
  {
    CallFrame(s, s', t);
    forall id | id in s'.registry.pending ensures LiveUser(s', id) {
      CallEntries(s, s', t, id);
      if id in s.registry.pending {
        assert LiveUser(s, id);
        var u :| u in s.calls && Registered(s.calls[u]) && s.calls[u].id == id;
        assert u != t ==> s'.calls[u] == s.calls[u];
      }
    }
  }

  lemma FirstReplyStays(log: seq<Arrival>, a: Arrival, since: nat, server: AddrPort, id: TxnID, packet: Packet)
    requires FirstReply(log, since, server, id, packet)
    ensures FirstReply(log + [a], since, server, id, packet)
  {
    var i :| since <= i < |log| && Answers(log[i], server, id) && log[i].packet == packet
      && Silent(log, since, i, server, id);
    assert (log + [a])[i] == log[i];
    assert Silent(log + [a], since, i, server, id) by {
      forall j | since <= j < i ensures !Answers((log + [a])[j], server, id) {
        assert (log + [a])[j] == log[j];
      }
    }
  }

  /** What an arrival does to the slot of one registered call. */
  lemma ArrivalAtSlot(s: State, s': State, a: Arrival, t: nat)
    requires RegisteredInv(s) && ArrivalNext(s, s', a)
    requires t in s.calls && Registered(s.calls[t])
    ensures s.calls[t].reply < |s.registry.slots| == |s'.registry.slots|
    ensures
      var c := s.calls[t];
      var slot, slot' := s.registry.slots[c.reply], s'.registry.slots[c.reply];
      slot' == if slot.None? && Answers(a, c.server, c.id) then Some(a.packet) else slot
  {
    var c := s.calls[t];
    if Answers(a, c.server, c.id) {
      ValidReplyIsShaped(a.src, a.packet, c.server, c.id);
    }
    if IsSTUNShaped(a.packet) {
      TargetExactly(s.registry, a.src, a.packet, c.reply);
    }
  }

  lemma ArrivalKeepsInv(s: State, s': State, a: Arrival)
    requires Inv(s) && ArrivalNext(s, s', a)
    ensures Inv(s')
  {
    assert s'.registry.pending == s.registry.pending && |s'.registry.slots| == |s.registry.slots|;
    forall t | t in s.calls && (s.calls[t].Received? || s.calls[t].Returned?)
      ensures FirstReply(s'.log, s.calls[t].since, s.calls[t].server, s.calls[t].id, s.calls[t].packet)
    {
      FirstReplyStays(s.log, a, s.calls[t].since, s.calls[t].server, s.calls[t].id, s.calls[t].packet);
    }
    forall t | t in s.calls && s.calls[t].Waiting?
      ensures
        var c := s.calls[t];
        match s'.registry.slots[c.reply]
        case None => Silent(s'.log, c.since, |s'.log|, c.server, c.id)
        case Some(b) => FirstReply(s'.log, c.since, c.server, c.id, b)
    {
      ArrivalAtSlot(s, s', a, t);
      ArrivalAtWaiter(s, s', a, s.calls[t]);
    }
    forall id | id in s'.registry.pending ensures LiveUser(s', id) {
      assert LiveUser(s, id);
    }
  }

  lemma ArrivalAtWaiter(s: State, s': State, a: Arrival, c: Call)
    requires c.Waiting? && s'.log == s.log + [a] && c.since <= |s.log|
    requires c.reply < |s.registry.slots| == |s'.registry.slots|
    requires
      match s.registry.slots[c.reply]
      case None => Silent(s.log, c.since, |s.log|, c.server, c.id)
      case Some(b) => FirstReply(s.log, c.since, c.server, c.id, b)
    requires s'.registry.slots[c.reply] ==
      if s.registry.slots[c.reply].None? && Answers(a, c.server, c.id) then Some(a.packet) else s.registry.slots[c.reply]
    ensures
      match s'.registry.slots[c.reply]
      case None => Silent(s'.log, c.since, |s'.log|, c.server, c.id)
      case Some(b) => FirstReply(s'.log, c.since, c.server, c.id, b)
  {
    var n := |s.log|;
    assert forall j :: 0 <= j < n ==> s'.log[j] == s.log[j];
    assert s'.log[n] == a;
    match s.registry.slots[c.reply] {
      case Some(b) => FirstReplyStays(s.log, a, c.since, c.server, c.id, b);
      case None =>
        assert Silent(s'.log, c.since, n, c.server, c.id);
    }
  }

  lemma {:induction false} RunInv(run: seq<State>)
    requires IsRun(run)
    ensures Inv(run[|run| - 1])
    decreases |run|
  {
    if |run| > 1 {
      var s, s' := run[|run| - 2], run[|run| - 1];
      RunInv(run[..|run| - 1]);
      assert Next(s, s');
      if t :| CallNext(s, s', t) {
        CallKeepsInv(s, s', t);
      } else {
        var a :| ArrivalNext(s, s', a);
        ArrivalKeepsInv(s, s', a);
      }
    }
  }

  // ---------------------------------------------------------------- main results

  /** parseBindingResponse: the ID test that comes before the parser. */
  datatype BindingError = TxnIDMismatch | Rejected(error: StunError)

  function ParseBindingResponse(raw: Packet, id: TxnID): Result<AddrPort, BindingError> {
    if IsSTUN(raw) && TxnIDOf(raw) != id then Err(TxnIDMismatch)
    else
      match Parse(raw, id)
      case Err(e) => Err(Rejected(e))
      case Ok(ep) => Ok(ep)
  }

  /** In every interleaving, the bytes Exchange returns are the first packet after registration that
      came from the registered server and parses under the registered ID; the caller's own parse of
      them then succeeds with an endpoint a peer may be sent to. */
  lemma ExchangeReturnsFirstValidReply(run: seq<State>, t: nat)
    requires IsRun(run) && t in run[|run| - 1].calls && run[|run| - 1].calls[t].Returned?
    ensures
      var s := run[|run| - 1];
      var c := s.calls[t];
      && FirstReply(s.log, c.since, c.server, c.id, c.packet)
      && ParseBindingResponse(c.packet, c.id).Ok?
      && Acceptable(ParseBindingResponse(c.packet, c.id).value)
  {
    RunInv(run);
    var c := run[|run| - 1].calls[t];
    StunRoundTrip.ParsedIsAcceptable(c.packet, c.id);
  }

  /** A waiting call whose transaction was answered has its reply ready: no run loses it to an
      invalid packet, to another transaction's packet or to another call's clean-up. */
  lemma AnsweredWaiterCanReceive(run: seq<State>, t: nat, i: nat)
    requires IsRun(run) && t in run[|run| - 1].calls && run[|run| - 1].calls[t].Waiting?
    requires
      var s := run[|run| - 1];
      s.calls[t].since <= i < |s.log| && Answers(s.log[i], s.calls[t].server, s.calls[t].id)
    ensures
      var s := run[|run| - 1];
      s.calls[t].reply < |s.registry.slots| && s.registry.slots[s.calls[t].reply].Some?
  {
    RunInv(run);
  }

  /** A call is refused its ID exactly when another call that has not cleaned up uses it. */
  lemma RefusedExactly(run: seq<State>, t: nat, s': State)
    requires IsRun(run) && t in run[|run| - 1].calls && run[|run| - 1].calls[t].Ready? && CallNext(run[|run| - 1], s', t)
    ensures
      var s := run[|run| - 1];
      && t in s'.calls
      && (s'.calls[t] == Failed <==> exists u :: u in s.calls && Registered(s.calls[u]) && s.calls[u].id == s.calls[t].id)
  {
    RunInv(run);
    var s := run[|run| - 1];
    assert s.calls[t].id in s.registry.pending <==> LiveUser(s, s.calls[t].id);
  }

  /** A reply that is ready is returned by the call's next two steps. */
  lemma ReadyReplyIsReturned(s: State, t: nat) returns (taken: State, done: State)
    requires t in s.calls && s.calls[t].Waiting? && s.calls[t].reply < |s.registry.slots|
    requires s.registry.slots[s.calls[t].reply].Some?
    ensures CallNext(s, taken, t) && CallNext(taken, done, t)
    ensures t in done.calls && done.calls[t].Returned? && Some(done.calls[t].packet) == s.registry.slots[s.calls[t].reply]
  {
    var Waiting(server, id, reply, since) := s.calls[t];
    var packet := s.registry.slots[reply].value;
    taken := s.(registry := s.registry.(slots := s.registry.slots[reply := None]),
                calls := s.calls[t := Received(server, id, reply, since, packet)]);
    done := taken.(registry := AfterUnregister(taken.registry, id),
                   calls := taken.calls[t := Returned(server, id, reply, since, packet)]);
  }
}
