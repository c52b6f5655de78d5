/** The packet classifier of internal/wgproxy/demux.go: two maps between peers and their outer
    source addresses, changed by Program and Unprogram only. */
module Demux {
  import opened NetAddr
  import StunWire
  import opened TxnRegistry
  import opened StunFormat

  datatype Maps = Maps(peerBySrc: map<AddrPort, PeerKey>, srcByPeer: map<PeerKey, AddrPort>)

  datatype Decision = Stun | Relay(peer: PeerKey) | Drop

  /** The maps are inverse to each other and hold normalized addresses. */
  ghost predicate Inverse(m: Maps) {
    && (forall src :: src in m.peerBySrc ==>
      Normal(src) && m.peerBySrc[src] in m.srcByPeer && m.srcByPeer[m.peerBySrc[src]] == src)
    && (forall peer :: peer in m.srcByPeer ==>
      m.srcByPeer[peer] in m.peerBySrc && m.peerBySrc[m.srcByPeer[peer]] == peer)
  }

  /** Program refuses an address that belongs to another peer. */
  predicate Taken(m: Maps, peer: PeerKey, remote: AddrPort) {
    var src := Normalize(remote);
    src in m.peerBySrc && m.peerBySrc[src] != peer
  }

  function AfterProgram(m: Maps, peer: PeerKey, remote: AddrPort): Maps {
    var src := Normalize(remote);
    var stale := if peer in m.srcByPeer && m.srcByPeer[peer] in m.peerBySrc && m.peerBySrc[m.srcByPeer[peer]] == peer
                 then {m.srcByPeer[peer]} else {};
    Maps((m.peerBySrc - stale)[src := peer], m.srcByPeer[peer := src])
  }

  function AfterUnprogram(m: Maps, peer: PeerKey): Maps {
    if peer !in m.srcByPeer then m
    else
      var stale := m.srcByPeer[peer];
      Maps(if stale in m.peerBySrc && m.peerBySrc[stale] == peer then m.peerBySrc - {stale} else m.peerBySrc,
           m.srcByPeer - {peer})
  }

  lemma NormalizeIsNormal(ap: AddrPort)
    ensures Normal(Normalize(ap)) && Normalize(Normalize(ap)) == Normalize(ap)
  {}

  /** An accepted Program keeps the maps inverse, moves this peer's mapping and no other. */
  lemma ProgramKeepsInverse(m: Maps, peer: PeerKey, remote: AddrPort)
    requires Inverse(m) && !Taken(m, peer, remote)
    ensures Inverse(AfterProgram(m, peer, remote))
    ensures AfterProgram(m, peer, remote).srcByPeer == m.srcByPeer[peer := Normalize(remote)]
    ensures forall src :: src in AfterProgram(m, peer, remote).peerBySrc <==>
      src == Normalize(remote) || (src in m.peerBySrc && m.peerBySrc[src] != peer)
  {}

  lemma UnprogramKeepsInverse(m: Maps, peer: PeerKey)
    requires Inverse(m)
    ensures Inverse(AfterUnprogram(m, peer))
    ensures AfterUnprogram(m, peer).srcByPeer == m.srcByPeer - {peer}
    ensures forall src :: src in AfterUnprogram(m, peer).peerBySrc <==> src in m.peerBySrc && m.peerBySrc[src] != peer
  {}

  /** The refusal is necessary: accepting a taken address would strand its owner. */
  lemma TakenWouldBreakInverse(m: Maps, peer: PeerKey, remote: AddrPort)
    requires Inverse(m) && Taken(m, peer, remote)
    ensures !Inverse(AfterProgram(m, peer, remote))
  {
    var src := Normalize(remote);
    var owner, after := m.peerBySrc[src], AfterProgram(m, peer, remote);
    assert owner in after.srcByPeer && after.srcByPeer[owner] == src && after.peerBySrc[src] == peer;
  }

  /** Where a packet goes; the registry sees every STUN-shaped one. */
  function Classified(m: Maps, src: AddrPort, b: Packet): Decision {
    if IsSTUNShaped(b) then Stun
    else if Normalize(src) in m.peerBySrc then Relay(m.peerBySrc[Normalize(src)])
    else Drop
  }

  /** What counts as STUN, byte by byte. */
  lemma StunExactly(m: Maps, src: AddrPort, b: Packet)
    ensures Classified(m, src, b) == Stun <==> Shaped(b)
  {
    if |b| >= 20 {
      TopBits(b[0]);
      StunWire.CookieBytes(b[4], b[5], b[6], b[7]);
    }
  }

  /** A packet without the cookie at its place, WireGuard's or other, goes to the peer at its source. */
  lemma WithoutCookieIsRelayed(m: Maps, src: AddrPort, b: Packet, peer: PeerKey)
    requires Inverse(m) && !HasCookie(b)
    ensures Classified(m, src, b) == Relay(peer) <==> peer in m.srcByPeer && m.srcByPeer[peer] == Normalize(src)
  {
    StunExactly(m, src, b);
    RelayExactly(m, src, b, peer);
  }

  /** Source addresses never select two peers, and a peer is reached from one source only. */
  lemma RelayExactly(m: Maps, src: AddrPort, b: Packet, peer: PeerKey)
    requires Inverse(m)
    ensures Classified(m, src, b) == Relay(peer) <==>
      !IsSTUNShaped(b) && peer in m.srcByPeer && m.srcByPeer[peer] == Normalize(src)
  {}

  class Classifier {
    const txns: Transactions
    var maps: Maps
    var droppedSTUN: nat
    var droppedOther: nat

    ghost predicate Valid()
      reads this, txns
    {
      Inverse(maps) && TxnRegistry.Valid(txns.state)
    }

    constructor ()
      ensures Valid() && fresh(txns)
      ensures maps == Maps(map[], map[]) && droppedSTUN == droppedOther == 0
    {
      txns := new Transactions();
      maps := Maps(map[], map[]);
      droppedSTUN, droppedOther := 0, 0;
    }

    method Program(peer: PeerKey, remote: AddrPort) returns (ok: bool)
      requires Valid()
      modifies this`maps
      ensures Valid()
      ensures ok <==> !Taken(old(maps), peer, remote)
      ensures maps == if ok then AfterProgram(old(maps), peer, remote) else old(maps)
    {
      var src := Normalize(remote);
      if src in maps.peerBySrc && maps.peerBySrc[src] != peer {
        return false;
      }
      ProgramKeepsInverse(maps, peer, remote);
      var peerBySrc := maps.peerBySrc;
      if peer in maps.srcByPeer {
        var stale := maps.srcByPeer[peer];
        if stale in peerBySrc && peerBySrc[stale] == peer {
          peerBySrc := peerBySrc - {stale};
        }
      }
      maps := Maps(peerBySrc[src := peer], maps.srcByPeer[peer := src]);
      return true;
    }

    method Unprogram(peer: PeerKey)
      requires Valid()
      modifies this`maps
      ensures Valid()
      ensures maps == AfterUnprogram(old(maps), peer)
    {
      UnprogramKeepsInverse(maps, peer);
      if peer in maps.srcByPeer {
        var stale := maps.srcByPeer[peer];
        var peerBySrc := maps.peerBySrc;
        if stale in peerBySrc && peerBySrc[stale] == peer {
          peerBySrc := peerBySrc - {stale};
        }
        maps := Maps(peerBySrc, maps.srcByPeer - {peer});
      }
    }

    /** Every packet is delivered to a waiter, relayed, or counted in exactly one drop counter. */
    method Classify(src: AddrPort, b: Packet) returns (decision: Decision)
      requires Valid()
      modifies this`droppedSTUN, this`droppedOther, txns
      ensures Valid()
      ensures decision == Classified(maps, src, b)
      ensures txns.state == if IsSTUNShaped(b) then AfterRoute(old(txns.state), src, b) else old(txns.state)
      ensures droppedSTUN == old(droppedSTUN) + (if decision == Stun && txns.state == old(txns.state) then 1 else 0)
      ensures droppedOther == old(droppedOther) + (if decision == Drop then 1 else 0)
    {
      if IsSTUNShaped(b) {
        var delivered := txns.Route(src, b);
        if !delivered {
          droppedSTUN := droppedSTUN + 1;
        }
        return Stun;
      }
      if Normalize(src) in maps.peerBySrc {
        return Relay(maps.peerBySrc[Normalize(src)]);
      }
      droppedOther := droppedOther + 1;
      return Drop;
    }
  }
}
