/** The one-slot transaction registry of internal/wgproxy/demux.go. */
module TxnRegistry {
  import opened NetAddr
  import opened StunWire

  type Packet = seq<byte>

  datatype Arrival = Arrival(src: AddrPort, packet: Packet)

  /** A pending transaction: the normalized server and its reply channel, by number. */
  datatype Pending = Pending(server: AddrPort, reply: nat)

  /** The registry's map, and the content of every one-slot channel it ever made. */
  datatype Registry = Registry(pending: map<TxnID, Pending>, slots: seq<Option<Packet>>)

  const EMPTY := Registry(map[], [])

  /** isSTUNShaped: a header without any check of the length field. */
  predicate IsSTUNShaped(b: Packet) {
    |b| >= HEADER_SIZE && b[0] < 0x40 && Be32(b[4], b[5], b[6], b[7]) == MAGIC_COOKIE
  }

  function AfterRegister(r: Registry, id: TxnID, server: AddrPort): Registry
    requires id !in r.pending
  {
    Registry(r.pending[id := Pending(Normalize(server), |r.slots|)], r.slots + [None])
  }

  function AfterUnregister(r: Registry, id: TxnID): Registry {
    r.(pending := r.pending - {id})
  }

  /** The reply channel that `route` offers the packet to, if any. */
  function Target(r: Registry, src: AddrPort, b: Packet): Option<nat>
    requires |b| >= HEADER_SIZE
  {
    var kind, id: TxnID := Be16(b[0], b[1]), b[8..20];
    if kind != BINDING_SUCCESS && kind != BINDING_ERROR then None
    else if id !in r.pending || r.pending[id].server != Normalize(src) then None
    else if Parse(b, id).Err? then None
    else Some(r.pending[id].reply)
  }

  /** A full slot keeps its packet. */
  function Offer(slots: seq<Option<Packet>>, reply: nat, b: Packet): seq<Option<Packet>> {
    if reply < |slots| && slots[reply].None? then slots[reply := Some(b)] else slots
  }

  function AfterRoute(r: Registry, src: AddrPort, b: Packet): Registry
    requires |b| >= HEADER_SIZE
  {
    match Target(r, src, b)
    case None => r
    case Some(reply) => r.(slots := Offer(r.slots, reply, b))
  }

  /** Every pending transaction's channel exists. */
  predicate Valid(r: Registry) {
    forall id :: id in r.pending ==> r.pending[id].reply < |r.slots|
  }

  /** A reply worth delivering: from the registered server, parsing under the registered ID. */
  predicate ValidReply(src: AddrPort, b: Packet, server: AddrPort, id: TxnID) {
    Normalize(src) == Normalize(server) && Parse(b, id).Ok?
  }

  /** `route` offers a packet to a channel exactly when the packet is a valid reply to the
      transaction registered with that channel. */
  lemma TargetExactly(r: Registry, src: AddrPort, b: Packet, reply: nat)
    requires |b| >= HEADER_SIZE && Valid(r)
    ensures Target(r, src, b) == Some(reply) <==>
      exists id: TxnID ::
        id in r.pending && r.pending[id].reply == reply && r.pending[id].server == Normalize(src) && Parse(b, id).Ok?
  {
    forall id: TxnID | Parse(b, id).Ok? ensures b[8..20] == id && Be16(b[0], b[1]) == BINDING_SUCCESS {
      assert TxnIDOf(b) == id;
    }
  }

  /** `route` lets an error response past its first test, yet can never deliver one. */
  lemma ErrorResponsesDropped(r: Registry, src: AddrPort, b: Packet)
    requires |b| >= HEADER_SIZE && Be16(b[0], b[1]) == BINDING_ERROR
    ensures AfterRoute(r, src, b) == r
  {}

  /** Only shaped packets can be valid replies, so the demux never withholds one from `route`. */
  lemma ValidReplyIsShaped(src: AddrPort, b: Packet, server: AddrPort, id: TxnID)
    requires ValidReply(src, b, server, id)
    ensures IsSTUNShaped(b)
  {
    assert IsSTUN(b);
  }

  /** The registry object; every method body runs under its mutex. */
  class Transactions {
    var state: Registry

    constructor ()
      ensures state == EMPTY
    {
      state := EMPTY;
    }

    method Register(id: TxnID, server: AddrPort) returns (reply: Option<nat>)
      requires Valid(state)
      modifies this
      ensures Valid(state)
      ensures reply.None? <==> id in old(state).pending
      ensures reply.None? ==> state == old(state)
      ensures reply.Some? ==> state == AfterRegister(old(state), id, server) && reply.value == |old(state).slots|
    {
      if id in state.pending {
        return None;
      }
      reply := Some(|state.slots|);
      state := Registry(state.pending[id := Pending(Normalize(server), reply.value)], state.slots + [None]);
    }

    method Unregister(id: TxnID)
      requires Valid(state)
      modifies this
      ensures Valid(state) && state == AfterUnregister(old(state), id)
    {
      state := state.(pending := state.pending - {id});
    }

    /** True exactly when the packet went into a waiter's empty slot. */
    method Route(src: AddrPort, b: Packet) returns (delivered: bool)
      requires Valid(state) && |b| >= HEADER_SIZE
      modifies this
      ensures Valid(state) && state == AfterRoute(old(state), src, b)
      ensures delivered <==> state != old(state)
    {
      var kind := Be16(b[0], b[1]);
      if kind != BINDING_SUCCESS && kind != BINDING_ERROR {
        return false;
      }
      var id: TxnID := b[8..20];
      if id !in state.pending || state.pending[id].server != Normalize(src) {
        return false;
      }
      var parsed := ParseResponse(b, id);
      if parsed.Err? {
        return false;
      }
      var reply := state.pending[id].reply;
      if state.slots[reply].Some? {
        return false;
      }
      ghost var before := state.slots;
      state := state.(slots := state.slots[reply := Some(b)]);
      assert state.slots[reply] != before[reply];
      return true;
    }
  }
}
