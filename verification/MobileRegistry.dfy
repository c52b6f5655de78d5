/** The registry of internal/mobilebind/demux.go and Bind.Discover (internal/mobilebind/stun.go).
    Unlike the proxy's registry it releases its lock before the checks and the send, and a second
    Register of one ID replaces the first. */
module MobileRegistry {
  import opened NetAddr
  import opened StunWire
  import opened TxnRegistry

  datatype Stage =
    | Ready
    | Waiting(reply: nat)
    | GaveUp(reply: nat)
    | Received(reply: nat, packet: Packet)
    | Returned(reply: nat, packet: Packet)
    | Failed

  /** A Discover call; its server and ID never change. */
  datatype Call = Call(server: AddrPort, id: TxnID, stage: Stage)

  /** A lookup under the lock: the packet, and the copied registration. */
  datatype Lookup = Lookup(arrival: Arrival, found: Option<Pending>)

  /** Who a channel was made for, and how many packets had been looked up by then. */
  datatype Origin = Origin(server: AddrPort, id: TxnID, since: nat)

  datatype State = State(
    txns: map<TxnID, Pending>,
    slots: seq<Option<Packet>>,
    origins: seq<Origin>,
    calls: map<nat, Call>,
    dispatches: map<nat, nat>,   // Dispatch calls between lookup and send, by the lookup's place in the log
    log: seq<Lookup>)

  ghost predicate Init(s: State) {
    s == State(map[], [], [], map[], map[], [])
  }

  /** mobilebind.IsSTUN: the tests of stunwire.IsSTUN in another order. */
  predicate IsMobileSTUN(b: Packet) {
    if |b| < HEADER_SIZE then false
    else if b[0] >= 0x40 then false
    else if Be32(b[4], b[5], b[6], b[7]) != MAGIC_COOKIE then false
    else
      var length := Be16(b[2], b[3]);
      length % 4 == 0 && HEADER_SIZE + length == |b| && |b| <= MAX_SIZE
  }

  ghost predicate CallNext(s: State, s': State, t: nat) {
    if t !in s.calls then
      exists server, id :: s' == s.(calls := s.calls[t := Call(server, id, Ready)])
    else
      var c := s.calls[t];
      match c.stage
      case Ready =>
        s' == s.(
          txns := s.txns[c.id := Pending(Normalize(c.server), |s.slots|)],
          slots := s.slots + [None],
          origins := s.origins + [Origin(c.server, c.id, |s.log|)],
          calls := s.calls[t := c.(stage := Waiting(|s.slots|))])
      case Waiting(reply) =>
        || s' == s.(calls := s.calls[t := c.(stage := GaveUp(reply))])
        || (&& reply < |s.slots| && s.slots[reply].Some?
            && s' == s.(
              slots := s.slots[reply := None],
              calls :=  // a reply that does not parse is ignored and the wait goes on
                if Parse(s.slots[reply].value, c.id).Ok?
                then s.calls[t := c.(stage := Received(reply, s.slots[reply].value))] else s.calls))
      case GaveUp(reply) => s' == s.(txns := s.txns - {c.id}, calls := s.calls[t := c.(stage := Failed)])
      case Received(reply, packet) =>
        s' == s.(txns := s.txns - {c.id}, calls := s.calls[t := c.(stage := Returned(reply, packet))])
      case Returned(_, _) => false
      case Failed => false
  }

  ghost predicate LookupNext(s: State, s': State, d: nat, a: Arrival) {
    && d !in s.dispatches
    && IsMobileSTUN(a.packet)
    && var id := TxnIDOf(a.packet);
       s' == s.(
         log := s.log + [Lookup(a, if id in s.txns then Some(s.txns[id]) else None)],
         dispatches := s.dispatches[d := |s.log|])
  }

  /** The checks that come after the lock is released. */
  predicate Passes(l: Lookup) {
    && l.found.Some? && l.found.value.server == Normalize(l.arrival.src)
    && Parse(l.arrival.packet, TxnIDOf(l.arrival.packet)).Ok?
  }

  /** The checks and the send, outside the lock. */
  ghost predicate SendNext(s: State, s': State, d: nat) {
    && d in s.dispatches && s.dispatches[d] < |s.log|
    && var l := s.log[s.dispatches[d]];
       s' == s.(
         slots := if Passes(l) then Offer(s.slots, l.found.value.reply, l.arrival.packet) else s.slots,
         dispatches := s.dispatches - {d})
  }

  ghost predicate Next(s: State, s': State) {
    || (exists t :: CallNext(s, s', t))
    || (exists d, a :: LookupNext(s, s', d, a))
    || (exists d :: SendNext(s, s', d))
  }

  ghost predicate IsRun(run: seq<State>) {
    && |run| > 0
    && Init(run[0])
    && forall i :: 0 <= i < |run| - 1 ==> Next(run[i], run[i + 1])
  }

  // ---------------------------------------------------------------- invariant

  /** `packet` was looked up after the channel was made and is a valid reply to its transaction. */
  ghost predicate Genuine(log: seq<Lookup>, o: Origin, packet: Packet) {
    exists i :: o.since <= i < |log| && log[i].arrival.packet == packet && Answers(log[i].arrival, o.server, o.id)
  }

  predicate Answers(a: Arrival, server: AddrPort, id: TxnID) {
    ValidReply(a.src, a.packet, server, id)
  }

  /** The registration leads to a channel made for that server and ID, no later than `before`. */
  ghost predicate Points(s: State, id: TxnID, p: Pending, before: nat) {
    && p.reply < |s.origins|
    && s.origins[p.reply].id == id
    && Normalize(s.origins[p.reply].server) == p.server
    && s.origins[p.reply].since <= before
  }

  ghost predicate TableInv(s: State) {
    && |s.slots| == |s.origins|
    && (forall id :: id in s.txns ==> Points(s, id, s.txns[id], |s.log|))
    && (forall d :: d in s.dispatches ==> s.dispatches[d] < |s.log|)
    && (forall i :: 0 <= i < |s.log| && s.log[i].found.Some? ==>
      Points(s, TxnIDOf(s.log[i].arrival.packet), s.log[i].found.value, i))
  }

  predicate HasReply(c: Call) {
    !c.stage.Ready? && !c.stage.Failed?
  }

  ghost predicate CallInv(s: State) {
    && (forall t :: t in s.calls && HasReply(s.calls[t]) ==>
      var c := s.calls[t];
      c.stage.reply < |s.origins| && s.origins[c.stage.reply].id == c.id && s.origins[c.stage.reply].server == c.server)
    && (forall t, t' :: t in s.calls && t' in s.calls && t != t' && HasReply(s.calls[t]) && HasReply(s.calls[t']) ==>
      s.calls[t].stage.reply != s.calls[t'].stage.reply)
  }

  ghost predicate SlotsGenuine(s: State) {
    forall c :: 0 <= c < |s.slots| && c < |s.origins| && s.slots[c].Some? ==>
      Genuine(s.log, s.origins[c], s.slots[c].value)
  }

  ghost predicate ResultsGenuine(s: State) {
    forall t :: t in s.calls && (s.calls[t].stage.Received? || s.calls[t].stage.Returned?) ==>
      s.calls[t].stage.reply < |s.origins|
      && Genuine(s.log, s.origins[s.calls[t].stage.reply], s.calls[t].stage.packet)
  }

  predicate Live(stage: Stage) {
    stage.Waiting? || stage.GaveUp? || stage.Received?
  }

  predicate IsLive(s: State, t: nat) {
    t in s.calls && Live(s.calls[t].stage)
  }

  /** The table leads to this call's channel. */
  predicate Owned(s: State, t: nat)
    requires IsLive(s, t)
  {
    s.calls[t].id in s.txns && s.txns[s.calls[t].id].reply == s.calls[t].stage.reply
  }

  /** The lookup at place i of the log led to this call's channel, for a valid reply to it. */
  predicate Found(s: State, t: nat, i: nat)
    requires IsLive(s, t) && i < |s.log|
  {
    && s.log[i].found.Some? && s.log[i].found.value.reply == s.calls[t].stage.reply
    && Answers(s.log[i].arrival, s.calls[t].server, s.calls[t].id)
  }

  /** The packet at place i is yet to be sent, or some packet waits in the call's channel. */
  ghost predicate OnItsWay(s: State, t: nat, i: nat)
    requires IsLive(s, t)
  {
    i in s.dispatches.Values || (s.calls[t].stage.reply < |s.slots| && s.slots[s.calls[t].stage.reply].Some?)
  }

  ghost predicate FoundInv(s: State) {
    forall t, i :: IsLive(s, t) && s.calls[t].stage.Waiting? && 0 <= i < |s.log| && Found(s, t, i) ==> OnItsWay(s, t, i)
  }

  /** Every lookup of the call's ID since it registered led to its channel. */
  ghost predicate OwnerFound(s: State, t: nat)
    requires IsLive(s, t)
  {
    s.calls[t].stage.reply < |s.origins| ==>
      forall i :: s.origins[s.calls[t].stage.reply].since <= i < |s.log| ==>
        TxnIDOf(s.log[i].arrival.packet) == s.calls[t].id ==>
          s.log[i].found.Some? && s.log[i].found.value.reply == s.calls[t].stage.reply
  }

  ghost predicate OwnerInv(s: State) {
    forall t :: IsLive(s, t) && Owned(s, t) ==> OwnerFound(s, t)
  }

  ghost predicate Inv(s: State) {
    TableInv(s) && CallInv(s) && SlotsGenuine(s) && ResultsGenuine(s) && FoundInv(s) && OwnerInv(s)
  }

  lemma GenuineStays(log: seq<Lookup>, l: Lookup, o: Origin, packet: Packet)
    requires Genuine(log, o, packet)
    ensures Genuine(log + [l], o, packet)
  {
    var i :| o.since <= i < |log| && log[i].arrival.packet == packet && Answers(log[i].arrival, o.server, o.id);
    assert (log + [l])[i] == log[i];
  }

  /** What every step of a call leaves alone. */
  lemma CallFrame(s: State, s': State, t: nat)
    requires |s.slots| == |s.origins| && CallNext(s, s', t)
    ensures s'.log == s.log && s'.dispatches == s.dispatches
    ensures forall u :: u != t ==> (u in s'.calls <==> u in s.calls)
    ensures forall u :: u != t && u in s.calls ==> s'.calls[u] == s.calls[u]
    ensures |s.origins| <= |s'.origins| == |s'.slots|
    ensures forall c :: 0 <= c < |s.origins| ==> s'.origins[c] == s.origins[c]
    ensures forall c :: |s.slots| <= c < |s'.slots| ==> s'.slots[c] == None
    ensures forall c :: 0 <= c < |s.slots| && s'.slots[c].Some? ==> s'.slots[c] == s.slots[c]
  {}

  lemma CallKeepsTable(s: State, s': State, t: nat)
    requires TableInv(s) && CallNext(s, s', t)
    ensures TableInv(s')
  {
    CallFrame(s, s', t);
    forall id | id in s'.txns ensures Points(s', id, s'.txns[id], |s'.log|) {
      if id in s.txns && s'.txns[id] == s.txns[id] {
        assert Points(s, id, s.txns[id], |s.log|);
      }
    }
    forall i | 0 <= i < |s'.log| && s'.log[i].found.Some?
      ensures Points(s', TxnIDOf(s.log[i].arrival.packet), s.log[i].found.value, i)
    {
      assert Points(s, TxnIDOf(s.log[i].arrival.packet), s.log[i].found.value, i);
    }
  }

  lemma CallKeepsCalls(s: State, s': State, t: nat)
    requires |s.slots| == |s.origins| && CallInv(s) && CallNext(s, s', t)
    ensures CallInv(s')
  {
    CallFrame(s, s', t);
    if t in s'.calls && HasReply(s'.calls[t]) && HasReply(s.calls[t]) {
      assert s'.calls[t].stage.reply == s.calls[t].stage.reply;
    }
  }

  lemma CallKeepsContent(s: State, s': State, t: nat)
    requires TableInv(s) && CallInv(s) && SlotsGenuine(s) && ResultsGenuine(s) && CallNext(s, s', t)
    ensures SlotsGenuine(s') && ResultsGenuine(s')
  {
    CallFrame(s, s', t);
    assert SlotsGenuine(s');
    assert ResultsGenuine(s') by {
      if t in s'.calls && s'.calls[t].stage.Received? {
        assert s'.calls[t].stage.packet == s.slots[s.calls[t].stage.reply].value;
      }
    }
  }

  /** What a waiting call finds in its channel parses under the call's own ID. */
  lemma GenuineParses(s: State, t: nat)
    requires CallInv(s) && SlotsGenuine(s) && |s.slots| == |s.origins|
    requires t in s.calls && s.calls[t].stage.Waiting?
    requires s.slots[s.calls[t].stage.reply].Some?
    ensures Parse(s.slots[s.calls[t].stage.reply].value, s.calls[t].id).Ok?
  {
    var c := s.calls[t].stage.reply;
    assert Genuine(s.log, s.origins[c], s.slots[c].value);
  }

  /** A step of a call leaves every other waiter's channel alone, and its own while it goes on waiting. */
  lemma CallKeepsSlot(s: State, s': State, t: nat, u: nat)
    requires TableInv(s) && CallInv(s) && SlotsGenuine(s) && CallNext(s, s', t)
    requires IsLive(s, u) && IsLive(s', u) && s'.calls[u].stage.Waiting?
    ensures s'.calls[u] == s.calls[u] && s.calls[u].stage.reply < |s.slots| <= |s'.slots|
    ensures s'.slots[s.calls[u].stage.reply] == s.slots[s.calls[u].stage.reply]
  {
    CallFrame(s, s', t);
    if u == t && s.slots[s.calls[t].stage.reply].Some? {
      GenuineParses(s, t);
    }
  }

  lemma CallKeepsFound(s: State, s': State, t: nat)
    requires TableInv(s) && CallInv(s) && SlotsGenuine(s) && FoundInv(s) && CallNext(s, s', t)
    ensures FoundInv(s')
  {
    CallFrame(s, s', t);
    forall u, i | IsLive(s', u) && s'.calls[u].stage.Waiting? && 0 <= i < |s'.log| && Found(s', u, i)
      ensures OnItsWay(s', u, i)
    {
      if IsLive(s, u) {
        CallKeepsSlot(s, s', t, u);
        assert Found(s, u, i);
      } else {
        RegistersNow(s, s', t, u);
      }
    }
  }

  /** A call becomes live by registering: its channel is new, and so is its entry. */
  lemma RegistersNow(s: State, s': State, t: nat, u: nat)
    requires |s.slots| == |s.origins| && CallNext(s, s', t) && !IsLive(s, u) && IsLive(s', u)
    ensures u == t && u in s.calls && s.calls[u].stage.Ready?
    ensures s'.calls[u].stage == Waiting(|s.origins|) && |s'.origins| == |s.origins| + 1
    ensures s'.origins[|s.origins|].since == |s.log| && Owned(s', u)
  {}

  lemma LookupKeepsTable(s: State, s': State, d: nat, a: Arrival)
    requires TableInv(s) && LookupNext(s, s', d, a)
    ensures TableInv(s')
  {
    forall id | id in s'.txns ensures Points(s', id, s'.txns[id], |s'.log|) {
      assert Points(s, id, s.txns[id], |s.log|);
    }
    forall i | 0 <= i < |s'.log| && s'.log[i].found.Some?
      ensures Points(s', TxnIDOf(s'.log[i].arrival.packet), s'.log[i].found.value, i)
    {
      if i < |s.log| {
        assert Points(s, TxnIDOf(s.log[i].arrival.packet), s.log[i].found.value, i);
      }
    }
  }

  lemma LookupKeepsContent(s: State, s': State, d: nat, a: Arrival)
    requires TableInv(s) && CallInv(s) && SlotsGenuine(s) && ResultsGenuine(s) && LookupNext(s, s', d, a)
    ensures CallInv(s') && SlotsGenuine(s') && ResultsGenuine(s')
  {
    var l := s'.log[|s.log|];
    assert s'.log == s.log + [l];
    forall c | 0 <= c < |s.slots| && s.slots[c].Some? ensures Genuine(s'.log, s.origins[c], s.slots[c].value) {
      GenuineStays(s.log, l, s.origins[c], s.slots[c].value);
    }
    forall t | t in s.calls && (s.calls[t].stage.Received? || s.calls[t].stage.Returned?)
      ensures Genuine(s'.log, s.origins[s.calls[t].stage.reply], s.calls[t].stage.packet)
    {
      GenuineStays(s.log, l, s.origins[s.calls[t].stage.reply], s.calls[t].stage.packet);
    }
  }

  lemma LookupKeepsFound(s: State, s': State, d: nat, a: Arrival)
    requires FoundInv(s) && LookupNext(s, s', d, a)
    ensures FoundInv(s')
  {
    assert s'.dispatches[d] == |s.log|;
    forall u, i | IsLive(s', u) && s'.calls[u].stage.Waiting? && 0 <= i < |s'.log| && Found(s', u, i)
      ensures OnItsWay(s', u, i)
    {
      if i < |s.log| {
        assert IsLive(s, u) && Found(s, u, i) && OnItsWay(s, u, i);
        if i in s.dispatches.Values {
          var e :| e in s.dispatches && s.dispatches[e] == i;
          assert s'.dispatches[e] == i;
        }
      }
    }
  }

  lemma LookupKeepsOwner(s: State, s': State, d: nat, a: Arrival)
    requires OwnerInv(s) && LookupNext(s, s', d, a)
    ensures OwnerInv(s')
  {
    forall t | IsLive(s', t) && Owned(s', t) ensures OwnerFound(s', t) {
      assert IsLive(s, t) && Owned(s, t) && OwnerFound(s, t);
    }
  }

  /** What a send does to the slots: at most one empty slot takes a genuine packet. */
  lemma SendEffect(s: State, s': State, d: nat)
    requires TableInv(s) && SendNext(s, s', d)
    ensures |s'.slots| == |s.slots|
    ensures forall c :: 0 <= c < |s.slots| && s.slots[c].Some? ==> s'.slots[c] == s.slots[c]
    ensures forall c :: 0 <= c < |s.slots| && s'.slots[c] != s.slots[c] ==>
      s'.slots[c].Some? && Genuine(s.log, s.origins[c], s'.slots[c].value)
  {
    var i := s.dispatches[d];
    var l := s.log[i];
    if Passes(l) {
      var c := l.found.value.reply;
      assert Points(s, TxnIDOf(l.arrival.packet), l.found.value, i);
      assert Answers(s.log[i].arrival, s.origins[c].server, s.origins[c].id);
      assert Genuine(s.log, s.origins[c], l.arrival.packet);
    }
  }

  lemma SendKeepsTable(s: State, s': State, d: nat)
    requires TableInv(s) && SendNext(s, s', d)
    ensures TableInv(s')
  {
    SendEffect(s, s', d);
    forall i | 0 <= i < |s.log| && s.log[i].found.Some?
      ensures Points(s', TxnIDOf(s.log[i].arrival.packet), s.log[i].found.value, i)
    {
      assert Points(s, TxnIDOf(s.log[i].arrival.packet), s.log[i].found.value, i);
    }
    forall id | id in s'.txns ensures Points(s', id, s'.txns[id], |s'.log|) {
      assert Points(s, id, s.txns[id], |s.log|);
    }
  }

  /** A packet whose lookup led to a waiter's channel is in that channel, or finds it full. */
  lemma FoundIsSent(s: State, s': State, d: nat, t: nat)
    requires TableInv(s) && CallInv(s) && SendNext(s, s', d)
    requires IsLive(s, t) && Found(s, t, s.dispatches[d])
    ensures s'.slots[s.calls[t].stage.reply].Some?
  {
    var l := s.log[s.dispatches[d]];
    assert Points(s, TxnIDOf(l.arrival.packet), l.found.value, s.dispatches[d]);
    assert TxnIDOf(l.arrival.packet) == s.calls[t].id;
    assert Passes(l);
  }

  lemma SendKeepsFound(s: State, s': State, d: nat)
    requires TableInv(s) && CallInv(s) && FoundInv(s) && SendNext(s, s', d)
    ensures FoundInv(s')
  {
    SendEffect(s, s', d);
    forall u, i | IsLive(s', u) && s'.calls[u].stage.Waiting? && 0 <= i < |s'.log| && Found(s', u, i)
      ensures OnItsWay(s', u, i)
    {
      assert IsLive(s, u) && Found(s, u, i) && OnItsWay(s, u, i);
      if i == s.dispatches[d] {
        FoundIsSent(s, s', d, u);
      } else if i in s.dispatches.Values {
        var e :| e in s.dispatches && s.dispatches[e] == i;
        assert s'.dispatches[e] == i;
      }
    }
  }

  // ---------------------------------------------------------------- who owns an entry

  /** Another call with t's ID registers or cleans up in this step. */
  predicate DisturbedBy(s: State, s': State, t: nat, u: nat)
    requires IsLive(s, t)
  {
    && u != t && u in s.calls && u in s'.calls && s.calls[u].id == s.calls[t].id
    && (s.calls[u].stage.Ready? || s.calls[u].stage.GaveUp? || s.calls[u].stage.Received?)
    && s'.calls[u].stage != s.calls[u].stage
  }

  ghost predicate Disturbed(s: State, s': State, t: nat)
    requires IsLive(s, t)
  {
    exists u :: DisturbedBy(s, s', t, u)
  }

  lemma CallOwnership(s: State, s': State, u: nat, t: nat)
    requires TableInv(s) && CallInv(s) && CallNext(s, s', u) && IsLive(s, t) && IsLive(s', t)
    ensures s'.calls[t].id == s.calls[t].id && s'.calls[t].stage.reply == s.calls[t].stage.reply
    ensures Owned(s', t) <==> Owned(s, t) && !Disturbed(s, s', t)
  {
    CallFrame(s, s', u);
    assert forall v :: DisturbedBy(s, s', t, v) ==> v == u;
    if u == t || u !in s.calls || s.calls[u].stage.Waiting? || s.calls[u].id != s.calls[t].id {
      assert !DisturbedBy(s, s', t, u);
    } else {
      assert DisturbedBy(s, s', t, u);
    }
  }

  /** One step takes a call's entry away exactly when it disturbs it, and no step gives it back. */
  lemma StepOwnership(s: State, s': State, t: nat)
    requires TableInv(s) && CallInv(s) && Next(s, s') && IsLive(s, t) && IsLive(s', t)
    ensures s'.calls[t].id == s.calls[t].id && s'.calls[t].stage.reply == s.calls[t].stage.reply
    ensures Owned(s', t) <==> Owned(s, t) && !Disturbed(s, s', t)
  {
    if u :| CallNext(s, s', u) {
      CallOwnership(s, s', u, t);
    } else {
      assert s'.calls == s.calls && s'.txns == s.txns;
    }
  }

  lemma CallKeepsOwner(s: State, s': State, t: nat)
    requires TableInv(s) && CallInv(s) && OwnerInv(s) && CallNext(s, s', t)
    ensures OwnerInv(s')
  {
    CallFrame(s, s', t);
    forall u | IsLive(s', u) && Owned(s', u) ensures OwnerFound(s', u) {
      if IsLive(s, u) {
        CallOwnership(s, s', t, u);
        assert OwnerFound(s, u);
      } else {
        RegistersNow(s, s', t, u);
      }
    }
  }

  lemma NextKeepsInv(s: State, s': State)
    requires Inv(s) && Next(s, s')
    ensures Inv(s')
  {
    if t :| CallNext(s, s', t) {
      CallKeepsTable(s, s', t);
      CallKeepsCalls(s, s', t);
      CallKeepsContent(s, s', t);
      CallKeepsFound(s, s', t);
      CallKeepsOwner(s, s', t);
    } else if d, a :| LookupNext(s, s', d, a) {
      LookupKeepsTable(s, s', d, a);
      LookupKeepsContent(s, s', d, a);
      LookupKeepsFound(s, s', d, a);
      LookupKeepsOwner(s, s', d, a);
    } else {
      var d :| SendNext(s, s', d);
      SendKeepsTable(s, s', d);
      SendKeepsContent(s, s', d);
      SendKeepsFound(s, s', d);
      SendKeepsOwner(s, s', d);
    }
  }

  lemma SendKeepsContent(s: State, s': State, d: nat)
    requires TableInv(s) && CallInv(s) && SlotsGenuine(s) && ResultsGenuine(s) && SendNext(s, s', d)
    ensures CallInv(s') && SlotsGenuine(s') && ResultsGenuine(s')
  {
    SendEffect(s, s', d);
  }

  lemma SendKeepsOwner(s: State, s': State, d: nat)
    requires OwnerInv(s) && SendNext(s, s', d)
    ensures OwnerInv(s')
  {
    forall t | IsLive(s', t) && Owned(s', t) ensures OwnerFound(s', t) {
      assert IsLive(s, t) && Owned(s, t) && OwnerFound(s, t);
    }
  }

  lemma {:induction false} RunInv(run: seq<State>)
    requires IsRun(run)
    ensures Inv(run[|run| - 1])
    decreases |run|
  {
    if |run| > 1 {
      RunInv(run[..|run| - 1]);
      assert Next(run[|run| - 2], run[|run| - 1]);
      NextKeepsInv(run[|run| - 2], run[|run| - 1]);
    }
  }

  // ---------------------------------------------------------------- main results

  /** In every interleaving, what Discover returns came from its own server, after its own
      registration, and parses under its own ID. */
  lemma DiscoverReturnsGenuineReply(run: seq<State>, t: nat)
    requires IsRun(run) && t in run[|run| - 1].calls && run[|run| - 1].calls[t].stage.Returned?
    ensures
      var s := run[|run| - 1];
      var c := s.calls[t];
      && c.stage.reply < |s.origins|
      && s.origins[c.stage.reply].id == c.id && s.origins[c.stage.reply].server == c.server
      && Genuine(s.log, s.origins[c.stage.reply], c.stage.packet)
      && Parse(c.stage.packet, c.id).Ok?
  {
    RunInv(run);
  }

  /** Discover's "ignore malformed replies" branch is unreachable. */
  lemma WaiterNeverSeesMalformedReply(run: seq<State>, t: nat)
    requires IsRun(run) && t in run[|run| - 1].calls && run[|run| - 1].calls[t].stage.Waiting?
    ensures
      var s := run[|run| - 1];
      var reply := s.calls[t].stage.reply;
      reply < |s.slots| && (s.slots[reply].Some? ==> Parse(s.slots[reply].value, s.calls[t].id).Ok?)
  {
    RunInv(run);
    var s := run[|run| - 1];
    if s.slots[s.calls[t].stage.reply].Some? {
      GenuineParses(s, t);
    }
  }

  /** A valid reply whose lookup led to a waiter's channel is never lost to it: the packet is still to
      be sent, or the channel is full. */
  lemma FoundReplyReachesWaiter(run: seq<State>, t: nat, i: nat)
    requires IsRun(run) && IsLive(run[|run| - 1], t) && run[|run| - 1].calls[t].stage.Waiting?
    requires i < |run[|run| - 1].log| && Found(run[|run| - 1], t, i)
    ensures OnItsWay(run[|run| - 1], t, i)
  {
    RunInv(run);
  }

  /** The lookup of a valid reply to a waiting call leads to its channel exactly when the call owns
      the table's entry. */
  lemma OwnerIsFoundExactly(run: seq<State>, t: nat, a: Arrival, d: nat, s': State)
    requires IsRun(run) && IsLive(run[|run| - 1], t) && LookupNext(run[|run| - 1], s', d, a)
    requires Answers(a, run[|run| - 1].calls[t].server, run[|run| - 1].calls[t].id)
    ensures
      var s := run[|run| - 1];
      s'.log[s'.dispatches[d]].found == Some(Pending(Normalize(a.src), s.calls[t].stage.reply)) <==> Owned(s, t)
  {
    RunInv(run);
    var s := run[|run| - 1];
    assert TxnIDOf(a.packet) == s.calls[t].id;
    if Owned(s, t) {
      assert Points(s, s.calls[t].id, s.txns[s.calls[t].id], |s.log|);
    }
  }

  /** No step of the run disturbed the call while it was live. */
  ghost predicate Undisturbed(run: seq<State>, t: nat) {
    forall i :: 0 <= i < |run| - 1 && IsLive(run[i], t) ==> !Disturbed(run[i], run[i + 1], t)
  }

  predicate NotYetLive(s: State, t: nat) {
    t !in s.calls || s.calls[t].stage.Ready?
  }

  lemma LastStep(run: seq<State>)
    requires IsRun(run) && |run| > 1
    ensures IsRun(run[..|run| - 1]) && Next(run[|run| - 2], run[|run| - 1])
    ensures run[..|run| - 1][|run| - 2] == run[|run| - 2] && run[..|run| - 1][0] == run[0]
  {}

  /** Calls stay with their ID, and a call that is not yet live was not live before. */
  lemma StepKeepsCalls(s: State, s': State, t: nat)
    requires Next(s, s')
    ensures t in s.calls ==> t in s'.calls && s'.calls[t].id == s.calls[t].id
    ensures NotYetLive(s', t) ==> NotYetLive(s, t)
  {
    if u :| CallNext(s, s', u) {
      CallStays(s, s', u, t);
    }
  }

  lemma CallStays(s: State, s': State, u: nat, t: nat)
    requires CallNext(s, s', u)
    ensures t in s.calls ==> t in s'.calls && s'.calls[t].id == s.calls[t].id
    ensures NotYetLive(s', t) ==> NotYetLive(s, t)
  {}

  lemma {:induction false} StaysStarted(run: seq<State>, i: nat, k: nat, t: nat)
    requires IsRun(run) && i <= k < |run| && !NotYetLive(run[i], t)
    ensures !NotYetLive(run[k], t)
    decreases k - i
  {
    if i < k {
      StepKeepsCalls(run[i], run[i + 1], t);
      StaysStarted(run, i + 1, k, t);
    }
  }

  /** A live call owns the table's entry exactly when, since its registration, no other call with its
      ID has registered or cleaned up. */
  lemma {:induction false} OwnedExactly(run: seq<State>, t: nat)
    requires IsRun(run) && IsLive(run[|run| - 1], t)
    ensures Owned(run[|run| - 1], t) <==> Undisturbed(run, t)
    decreases |run|
  {
    if |run| > 1 {
      var s, s' := run[|run| - 2], run[|run| - 1];
      LastStep(run);
      RunInv(run[..|run| - 1]);
      if IsLive(s, t) {
        StepOwnership(s, s', t);
        OwnedExactly(run[..|run| - 1], t);
        UndisturbedStep(run, t);
      } else {
        BecomesLive(s, s', t);
        NewIsUndisturbed(run, t);
      }
    }
  }

  lemma NewIsUndisturbed(run: seq<State>, t: nat)
    requires |run| > 1 && IsRun(run) && NotYetLive(run[|run| - 2], t)
    ensures Undisturbed(run, t)
  {
    forall i | 0 <= i < |run| - 1 ensures !IsLive(run[i], t) {
      if !NotYetLive(run[i], t) {
        StaysStarted(run, i, |run| - 2, t);
      }
    }
  }

  lemma UndisturbedStep(run: seq<State>, t: nat)
    requires |run| > 1 && IsLive(run[|run| - 2], t)
    ensures Undisturbed(run, t)
      <==> Undisturbed(run[..|run| - 1], t) && !Disturbed(run[|run| - 2], run[|run| - 1], t)
  {
    var prefix := run[..|run| - 1];
    assert forall i :: 0 <= i < |run| - 1 ==> run[i] == prefix[i];
    if Undisturbed(prefix, t) && !Disturbed(run[|run| - 2], run[|run| - 1], t) {
      forall i | 0 <= i < |run| - 1 && IsLive(run[i], t) ensures !Disturbed(run[i], run[i + 1], t) {
        if i < |run| - 2 {
          assert prefix[i + 1] == run[i + 1];
        }
      }
    }
    if Undisturbed(run, t) {
      forall i | 0 <= i < |prefix| - 1 && IsLive(prefix[i], t) ensures !Disturbed(prefix[i], prefix[i + 1], t) {
        assert prefix[i + 1] == run[i + 1];
      }
    }
  }

  lemma BecomesLive(s: State, s': State, t: nat)
    requires TableInv(s) && Next(s, s') && !IsLive(s, t) && IsLive(s', t)
    ensures NotYetLive(s, t) && Owned(s', t)
  {
    if u :| CallNext(s, s', u) {
      RegistersNow(s, s', u, t);
    }
  }

  /** So a call that was not disturbed misses no reply: every valid one since its registration is still
      to be sent, or its channel is full. */
  lemma UndisturbedWaiterMissesNothing(run: seq<State>, t: nat, i: nat)
    requires IsRun(run) && IsLive(run[|run| - 1], t) && run[|run| - 1].calls[t].stage.Waiting? && Undisturbed(run, t)
    requires
      var s := run[|run| - 1];
      && s.calls[t].stage.reply < |s.origins|
      && s.origins[s.calls[t].stage.reply].since <= i < |s.log|
      && Answers(s.log[i].arrival, s.calls[t].server, s.calls[t].id)
    ensures OnItsWay(run[|run| - 1], t, i)
  {
    OwnedExactly(run, t);
    RunInv(run);
    var s := run[|run| - 1];
    assert OwnerFound(s, t);
    assert TxnIDOf(s.log[i].arrival.packet) == s.calls[t].id;
    assert Found(s, t, i);
  }

  /** What is on its way arrives: once the packet's dispatch has sent, the waiter's channel is full ... */
  lemma SentReplyIsReady(run: seq<State>, t: nat, d: nat) returns (sent: State)
    requires IsRun(run) && IsLive(run[|run| - 1], t) && d in run[|run| - 1].dispatches
    requires run[|run| - 1].dispatches[d] < |run[|run| - 1].log| && Found(run[|run| - 1], t, run[|run| - 1].dispatches[d])
    ensures SendNext(run[|run| - 1], sent, d)
    ensures run[|run| - 1].calls[t].stage.reply < |sent.slots| && sent.slots[run[|run| - 1].calls[t].stage.reply].Some?
  {
    RunInv(run);
    var s := run[|run| - 1];
    var l := s.log[s.dispatches[d]];
    sent := s.(slots := if Passes(l) then Offer(s.slots, l.found.value.reply, l.arrival.packet) else s.slots,
               dispatches := s.dispatches - {d});
    SendEffect(s, sent, d);
    FoundIsSent(s, sent, d, t);
  }

  /** ... and a waiter with a full channel returns its packet in two steps. */
  lemma ReadyReplyIsReturned(run: seq<State>, t: nat) returns (taken: State, done: State)
    requires IsRun(run) && t in run[|run| - 1].calls && run[|run| - 1].calls[t].stage.Waiting?
    requires
      var s := run[|run| - 1];
      s.calls[t].stage.reply < |s.slots| && s.slots[s.calls[t].stage.reply].Some?
    ensures
      var s := run[|run| - 1];
      && CallNext(s, taken, t) && CallNext(taken, done, t)
      && t in done.calls && done.calls[t].stage.Returned?
      && Some(done.calls[t].stage.packet) == s.slots[s.calls[t].stage.reply]
  {
    RunInv(run);
    var s := run[|run| - 1];
    GenuineParses(s, t);
    var c, reply := s.calls[t], s.calls[t].stage.reply;
    var packet := s.slots[reply].value;
    taken := s.(slots := s.slots[reply := None], calls := s.calls[t := c.(stage := Received(reply, packet))]);
    done := taken.(txns := taken.txns - {c.id}, calls := taken.calls[t := c.(stage := Returned(reply, packet))]);
  }

  /** No other call ever used this call's transaction ID. */
  ghost predicate Unshared(s: State, t: nat) {
    t in s.calls && forall u :: u in s.calls && u != t ==> s.calls[u].id != s.calls[t].id
  }

  lemma {:induction false} CallsStay(run: seq<State>, i: nat, t: nat)
    requires IsRun(run) && i < |run| && t in run[i].calls
    ensures t in run[|run| - 1].calls && run[|run| - 1].calls[t].id == run[i].calls[t].id
    decreases |run| - i
  {
    if i < |run| - 1 {
      StepKeepsCalls(run[i], run[i + 1], t);
      CallsStay(run, i + 1, t);
    }
  }

  /** An ID of one's own is never disturbed. */
  lemma UnsharedIsUndisturbed(run: seq<State>, t: nat)
    requires IsRun(run) && Unshared(run[|run| - 1], t)
    ensures Undisturbed(run, t)
  {
    forall i | 0 <= i < |run| - 1 && IsLive(run[i], t) ensures !Disturbed(run[i], run[i + 1], t) {
      CallsStay(run, i, t);
      forall u | u in run[i].calls && u != t ensures run[i].calls[u].id != run[i].calls[t].id {
        CallsStay(run, i, u);
      }
    }
  }

  /** In particular, without sharing no reply is missed. */
  lemma UnsharedWaiterMissesNothing(run: seq<State>, t: nat, i: nat)
    requires IsRun(run) && Unshared(run[|run| - 1], t) && run[|run| - 1].calls[t].stage.Waiting?
    requires
      var s := run[|run| - 1];
      && s.calls[t].stage.reply < |s.origins|
      && s.origins[s.calls[t].stage.reply].since <= i < |s.log|
      && Answers(s.log[i].arrival, s.calls[t].server, s.calls[t].id)
    ensures OnItsWay(run[|run| - 1], t, i)
  {
    UnsharedIsUndisturbed(run, t);
    UndisturbedWaiterMissesNothing(run, t, i);
  }

  /** A waiter whose ID no other call used is found by the lookup of every valid reply to it. */
  lemma UnsharedWaiterIsFound(run: seq<State>, t: nat, a: Arrival, d: nat, s': State)
    requires IsRun(run) && Unshared(run[|run| - 1], t) && run[|run| - 1].calls[t].stage.Waiting?
    requires LookupNext(run[|run| - 1], s', d, a)
    requires Answers(a, run[|run| - 1].calls[t].server, run[|run| - 1].calls[t].id)
    ensures s'.log[s'.dispatches[d]].found == Some(Pending(Normalize(a.src), run[|run| - 1].calls[t].stage.reply))
  {
    UnsharedIsUndisturbed(run, t);
    OwnedExactly(run, t);
    OwnerIsFoundExactly(run, t, a, d, s');
  }

  /** Sharing breaks it: the second registration of an ID takes the first one's replies, although
      both calls wait for them. */
  lemma SharedIDLosesReplies(id: TxnID, server: AddrPort) returns (run: seq<State>)
    ensures IsRun(run)
    ensures
      var s := run[|run| - 1];
      && 0 in s.calls && 1 in s.calls
      && s.calls[0] == Call(server, id, Waiting(0)) && s.calls[1] == Call(server, id, Waiting(1))
      && forall d, a, s' :: LookupNext(s, s', d, a) ==>
        var found := s'.log[s'.dispatches[d]].found; found.None? || found.value.reply == 1
  {
    var ready := Call(server, id, Ready);
    var p := Normalize(server);
    var s0 := State(map[], [], [], map[], map[], []);
    var s1 := s0.(calls := map[0 := ready]);
    var s2 := s1.(txns := map[id := Pending(p, 0)], slots := [None], origins := [Origin(server, id, 0)],
                  calls := map[0 := ready.(stage := Waiting(0))]);
    var s3 := s2.(calls := s2.calls[1 := ready]);
    var s4 := s3.(txns := map[id := Pending(p, 1)], slots := [None, None],
                  origins := [Origin(server, id, 0), Origin(server, id, 0)],
                  calls := s3.calls[1 := ready.(stage := Waiting(1))]);
    run := [s0, s1, s2, s3, s4];
    assert CallNext(s0, s1, 0);
    assert CallNext(s1, s2, 0);
    assert CallNext(s2, s3, 1);
    assert CallNext(s3, s4, 1);
  }

  /** The two recognisers agree. */
  lemma SameRecogniser(b: Packet)
    ensures IsMobileSTUN(b) <==> IsSTUN(b)
  {}

  /** A WireGuard message (type 1 to 4, three zero bytes, at least 32 bytes long) is never taken for
      STUN: its length field would be zero. */
  lemma WireGuardIsNotSTUN(b: Packet)
    requires |b| >= 32 && 1 <= b[0] <= 4 && b[1] == 0 && b[2] == 0 && b[3] == 0
    ensures !IsMobileSTUN(b)
  {}
}
