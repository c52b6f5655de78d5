/** Forwarding state of internal/wgproxy/proxy.go: AddPeer, SetPeerEndpoint and the two relay loops.
    SetPeerEndpoint programs the demux and stores the outbound remote in two separate steps while it
    holds the proxy's mutex; the loops do not take that mutex for the remote. */
module ProxyRelay {
  import opened NetAddr
  import opened TxnRegistry
  import opened Demux
  import opened StunFormat

  datatype Peer = Peer(inner: Socket, remote: Option<AddrPort>)

  /** A SetPeerEndpoint call that holds the mutex. */
  datatype Update = Update(key: PeerKey, remote: AddrPort, programmed: bool)

  datatype State = State(
    outer: map<Family, Socket>,
    peers: map<PeerKey, Peer>,
    maps: Maps,
    wgPort: uint16,
    closed: bool,
    update: Option<Update>,
    nextSocket: Socket)

  ghost predicate Init(s: State) {
    && s.peers == map[] && s.maps == Maps(map[], map[]) && s.wgPort == 0 && !s.closed && s.update == None
    && (forall f :: f in s.outer ==> s.outer[f] < s.nextSocket)
  }

  predicate ValidRemote(remote: AddrPort) {
    !remote.addr.NoAddr? && remote.port != 0
  }

  ghost predicate AddPeer(s: State, s': State, key: PeerKey) {
    && s.update == None && !s.closed
    && s' == if key in s.peers then s
             else s.(peers := s.peers[key := Peer(s.nextSocket, None)], nextSocket := s.nextSocket + 1)
  }

  /** Locks and passes the checks; a call that fails a check changes nothing. */
  ghost predicate BeginUpdate(s: State, s': State, key: PeerKey, remote: AddrPort) {
    && s.update == None
    && key in s.peers && ValidRemote(Normalize(remote))
    && s' == s.(update := Some(Update(key, Normalize(remote), false)))
  }

  ghost predicate ProgramDemux(s: State, s': State) {
    && s.update.Some? && !s.update.value.programmed
    && var u := s.update.value;
       s' == if Taken(s.maps, u.key, u.remote) then s.(update := None)
             else s.(maps := AfterProgram(s.maps, u.key, u.remote), update := Some(u.(programmed := true)))
  }

  ghost predicate StoreRemote(s: State, s': State) {
    && s.update.Some? && s.update.value.programmed && s.update.value.key in s.peers
    && var u := s.update.value;
       s' == s.(peers := s.peers[u.key := s.peers[u.key].(remote := Some(u.remote))], update := None)
  }

  ghost predicate Next(s: State, s': State) {
    || (exists key :: AddPeer(s, s', key))
    || (exists key, remote :: BeginUpdate(s, s', key, remote))
    || ProgramDemux(s, s')
    || StoreRemote(s, s')
    || (exists port :: s' == s.(wgPort := port))
    || (s.update == None && s' == s.(closed := true))
  }

  ghost predicate IsRun(run: seq<State>) {
    && |run| > 0
    && Init(run[0])
    && forall i :: 0 <= i < |run| - 1 ==> Next(run[i], run[i + 1])
  }

  // ---------------------------------------------------------------- the relay loops

  /** outerLoop: the inner socket that a datagram is written from, towards the WireGuard port. */
  function Inbound(s: State, src: AddrPort, b: Packet): Option<Socket> {
    match Classified(s.maps, src, b)
    case Stun | Drop => None
    case Relay(peer) => if peer in s.peers && s.wgPort != 0 then Some(s.peers[peer].inner) else None
  }

  /** innerLoop of one peer: the outer socket and destination of what WireGuard writes to it. */
  function Outbound(s: State, key: PeerKey): Option<(Socket, AddrPort)>
    requires key in s.peers
  {
    match s.peers[key].remote
    case None => None
    case Some(remote) => if FamilyOf(remote) in s.outer then Some((s.outer[FamilyOf(remote)], remote)) else None
  }

  // ---------------------------------------------------------------- invariant

  /** The outbound remote of a peer is its demux entry. */
  predicate Agrees(s: State, key: PeerKey) {
    key in s.peers &&
    s.peers[key].remote == if key in s.maps.srcByPeer then Some(s.maps.srcByPeer[key]) else None
  }

  ghost predicate ForwardInv(s: State) {
    && Inverse(s.maps)
    && (forall key :: key in s.maps.srcByPeer ==> key in s.peers)
    && (forall key :: key in s.peers && !(s.update.Some? && s.update.value.programmed && s.update.value.key == key) ==>
      Agrees(s, key))
    && (s.update.Some? ==> s.update.value.key in s.peers && Normal(s.update.value.remote))
    && (s.update.Some? && s.update.value.programmed ==>
      s.update.value.key in s.maps.srcByPeer && s.maps.srcByPeer[s.update.value.key] == s.update.value.remote)
  }

  /** Every socket is its own. */
  ghost predicate SocketInv(s: State) {
    && (forall f :: f in s.outer ==> s.outer[f] < s.nextSocket)
    && (forall key :: key in s.peers ==> s.peers[key].inner < s.nextSocket)
    && (forall key, f :: key in s.peers && f in s.outer ==> s.peers[key].inner != s.outer[f])
    && (forall k, k' :: k in s.peers && k' in s.peers && k != k' ==> s.peers[k].inner != s.peers[k'].inner)
  }

  ghost predicate Inv(s: State) {
    ForwardInv(s) && SocketInv(s)
  }

  lemma ProgramKeepsForward(s: State, s': State)
    requires ForwardInv(s) && ProgramDemux(s, s')
    ensures ForwardInv(s')
  {
    var u := s.update.value;
    NormalizeIsNormal(u.remote);
    if !Taken(s.maps, u.key, u.remote) {
      ProgramKeepsInverse(s.maps, u.key, u.remote);
      assert s'.maps.srcByPeer == s.maps.srcByPeer[u.key := u.remote];
      assert forall key :: key in s.peers && key != u.key ==> Agrees(s, key);
    } else {
      assert forall key :: key in s.peers ==> Agrees(s, key);
    }
  }

  lemma OtherStepsKeepForward(s: State, s': State)
    requires ForwardInv(s) && Next(s, s') && !ProgramDemux(s, s')
    ensures ForwardInv(s')
  {
    if key, remote :| BeginUpdate(s, s', key, remote) {
      NormalizeIsNormal(remote);
      assert forall k :: k in s.peers ==> Agrees(s, k);
    } else if StoreRemote(s, s') {
      var u := s.update.value;
      assert forall k :: k in s.peers && k != u.key ==> Agrees(s, k);
      assert Agrees(s', u.key);
    } else {
      assert forall k :: k in s.peers && Agrees(s, k) ==> Agrees(s', k);
    }
  }

  /** Only AddPeer changes which sockets there are. */
  lemma OtherStepsKeepSockets(s: State, s': State)
    requires Next(s, s') && !exists key :: AddPeer(s, s', key)
    ensures s'.peers.Keys == s.peers.Keys && s'.nextSocket == s.nextSocket && s'.outer == s.outer
    ensures forall k :: k in s.peers ==> s'.peers[k].inner == s.peers[k].inner
  {}

  lemma AddPeerKeepsSockets(s: State, s': State, key: PeerKey)
    requires SocketInv(s) && AddPeer(s, s', key)
    ensures SocketInv(s')
  {}

  lemma NextKeepsSockets(s: State, s': State)
    requires SocketInv(s) && Next(s, s')
    ensures SocketInv(s')
    ensures s'.outer == s.outer
    ensures forall key :: key in s.peers ==> key in s'.peers && s'.peers[key].inner == s.peers[key].inner
  {
    if key :| AddPeer(s, s', key) {
      AddPeerKeepsSockets(s, s', key);
    } else {
      OtherStepsKeepSockets(s, s');
      assert forall k :: k in s'.peers ==> k in s.peers;
    }
  }

  lemma NextKeepsInv(s: State, s': State)
    requires Inv(s) && Next(s, s')
    ensures Inv(s')
    ensures s'.outer == s.outer
    ensures forall key :: key in s.peers ==> key in s'.peers && s'.peers[key].inner == s.peers[key].inner
  {
    NextKeepsSockets(s, s');
    if ProgramDemux(s, s') {
      ProgramKeepsForward(s, s');
    } else {
      OtherStepsKeepForward(s, s');
    }
  }

  lemma {:induction false} RunInv(run: seq<State>)
    requires IsRun(run)
    ensures Inv(run[|run| - 1])
    decreases |run|
  {
    if |run| > 1 {
      RunInv(run[..|run| - 1]);
      assert Next(run[|run| - 2], run[|run| - 1]);
      NextKeepsInv(run[|run| - 2], run[|run| - 1]);
    }
  }

  // ---------------------------------------------------------------- main results

  /** With no update in progress, a datagram from `src` is relayed to a peer's inner socket exactly
      when that peer's outbound remote is `src`, normalized. */
  lemma InboundMatchesOutbound(run: seq<State>, key: PeerKey, src: AddrPort, b: Packet)
    requires IsRun(run) && run[|run| - 1].update == None && key in run[|run| - 1].peers
    ensures
      var s := run[|run| - 1];
      Inbound(s, src, b) == Some(s.peers[key].inner) <==>
        !IsSTUNShaped(b) && s.wgPort != 0 && s.peers[key].remote == Some(Normalize(src))
  {
    RunInv(run);
    var s := run[|run| - 1];
    RelayExactly(s.maps, src, b, key);
    match Classified(s.maps, src, b) {
      case Stun =>
      case Drop =>
      case Relay(other) => RelayExactly(s.maps, src, b, other);
    }
  }

  /** So what WireGuard writes back leaves to where the datagram came from, by the outer socket it
      came in on; and no other peer's inner socket saw it. */
  lemma RelaySymmetry(run: seq<State>, family: Family, src: AddrPort, b: Packet)
    requires IsRun(run) && run[|run| - 1].update == None
    requires family in run[|run| - 1].outer && FamilyOf(src) == family
    requires Inbound(run[|run| - 1], src, b).Some?
    ensures
      var s := run[|run| - 1];
      exists key :: key in s.peers
        && s.peers[key].inner == Inbound(s, src, b).value
        && Outbound(s, key) == Some((s.outer[family], Normalize(src)))
        && (forall other :: other in s.peers && other != key ==> s.peers[other].inner != Inbound(s, src, b).value)
  {
    RunInv(run);
    var s := run[|run| - 1];
    var key := Classified(s.maps, src, b).peer;
    InboundMatchesOutbound(run, key, src, b);
    NormalizeIsNormal(src);
    assert s.peers[key].remote == Some(Normalize(src));
    assert FamilyOf(Normalize(src)) == family;
  }

  /** With no update in progress, every datagram without the STUN cookie, so every ordinary WireGuard
      message, reaches the inner socket of the peer whose remote it comes from. */
  lemma WireGuardReachesPeer(run: seq<State>, key: PeerKey, src: AddrPort, b: Packet)
    requires IsRun(run) && run[|run| - 1].update == None && key in run[|run| - 1].peers && run[|run| - 1].wgPort != 0
    requires !HasCookie(b) && run[|run| - 1].peers[key].remote == Some(Normalize(src))
    ensures Inbound(run[|run| - 1], src, b) == Some(run[|run| - 1].peers[key].inner)
  {
    StunExactly(run[|run| - 1].maps, src, b);
    InboundMatchesOutbound(run, key, src, b);
  }

  /** Even during an update, every peer but the one being updated agrees with the demux. */
  lemma OthersAgreeDuringUpdate(run: seq<State>, key: PeerKey)
    requires IsRun(run) && key in run[|run| - 1].peers
    requires run[|run| - 1].update.Some? ==> run[|run| - 1].update.value.key != key
    ensures Agrees(run[|run| - 1], key)
  {
    RunInv(run);
  }

  /** Bind once: an inner socket or an outer socket, once there, stays the same for good. */
  lemma {:induction false} SocketsNeverChange(run: seq<State>, i: nat, key: PeerKey)
    requires IsRun(run) && i < |run|
    ensures run[|run| - 1].outer == run[i].outer
    ensures key in run[i].peers ==>
      key in run[|run| - 1].peers && run[|run| - 1].peers[key].inner == run[i].peers[key].inner
    decreases |run|
  {
    if i < |run| - 1 {
      var prefix := run[..|run| - 1];
      SocketsNeverChange(prefix, i, key);
      RunInv(prefix);
      assert Next(run[|run| - 2], run[|run| - 1]);
      NextKeepsInv(run[|run| - 2], run[|run| - 1]);
    }
  }

  // ---------------------------------------------------------------- datagrams in flight

  /** A SetPeerEndpoint call for this peer holds the mutex. */
  predicate Updating(s: State, key: PeerKey) {
    s.update.Some? && s.update.value.key == key
  }

  lemma RemoteStays(s: State, s': State, key: PeerKey)
    requires Next(s, s') && key in s.peers && !Updating(s, key)
    ensures key in s'.peers && s'.peers[key].remote == s.peers[key].remote
  {}

  lemma {:induction false} RemoteStaysOver(run: seq<State>, i: nat, n: nat, key: PeerKey)
    requires IsRun(run) && i <= n < |run| && key in run[i].peers
    requires forall x :: i <= x <= n ==> !Updating(run[x], key)
    ensures key in run[n].peers && run[n].peers[key].remote == run[i].peers[key].remote
    decreases n - i
  {
    if i < n {
      assert Next(run[i], run[i + 1]);
      RemoteStays(run[i], run[i + 1], key);
      RemoteStaysOver(run, i + 1, n, key);
    }
  }

  /** outerLoop classifies at moment i and looks the peer up at a later moment j: the socket it writes
      from is the one the peer had at i, and no other peer's. */
  lemma InFlightReachesSamePeer(run: seq<State>, i: nat, j: nat, src: AddrPort, b: Packet, key: PeerKey)
    requires IsRun(run) && i <= j < |run| && Classified(run[i].maps, src, b) == Relay(key)
    ensures key in run[i].peers && key in run[j].peers && run[j].peers[key].inner == run[i].peers[key].inner
    ensures forall other :: other in run[j].peers && other != key ==> run[j].peers[other].inner != run[i].peers[key].inner
    ensures !Updating(run[i], key) ==> run[i].peers[key].remote == Some(Normalize(src))
  {
    RunInv(run[..i + 1]);
    RunInv(run[..j + 1]);
    RelayExactly(run[i].maps, src, b, key);
    SocketsNeverChange(run[..j + 1], i, key);
    assert run[..j + 1][i] == run[i];
  }

  /** Classified at i, written at j, answered at n, with other peers' endpoints changing at any time: as
      long as this peer is not being updated, the answer leaves to the source by the socket the datagram
      came in on. */
  lemma RelaySymmetryInFlight(run: seq<State>, i: nat, j: nat, n: nat, family: Family, src: AddrPort, b: Packet, key: PeerKey)
    requires IsRun(run) && i <= j <= n < |run| && Classified(run[i].maps, src, b) == Relay(key)
    requires family in run[i].outer && FamilyOf(src) == family
    requires forall x :: i <= x <= n ==> !Updating(run[x], key)
    ensures key in run[i].peers && key in run[j].peers && key in run[n].peers
    ensures run[j].peers[key].inner == run[n].peers[key].inner == run[i].peers[key].inner
    ensures Outbound(run[n], key) == Some((run[i].outer[family], Normalize(src)))
  {
    InFlightReachesSamePeer(run, i, j, src, b, key);
    InFlightReachesSamePeer(run, i, n, src, b, key);
    RemoteStaysOver(run, i, n, key);
    SocketsNeverChange(run[..n + 1], i, key);
    assert run[..n + 1][i] == run[i];
    NormalizeIsNormal(src);
    assert FamilyOf(Normalize(src)) == family;
  }

  // ---------------------------------------------------------------- calls take effect

  /** A new peer gets a socket that is nobody else's; a known one keeps its own. */
  lemma AddPeerTakesEffect(run: seq<State>, s': State, key: PeerKey)
    requires IsRun(run) && AddPeer(run[|run| - 1], s', key)
    ensures
      var s := run[|run| - 1];
      && key in s'.peers && s'.peers == s.peers[key := s'.peers[key]]
      && (key in s.peers ==> s' == s)
      && (key !in s.peers ==>
        && s'.peers[key].remote == None
        && (forall other :: other in s.peers ==> s.peers[other].inner != s'.peers[key].inner)
        && (forall f :: f in s.outer ==> s.outer[f] != s'.peers[key].inner))
  {
    RunInv(run);
  }

  /** Some other peer already has this remote. */
  ghost predicate HeldByOther(s: State, key: PeerKey, remote: AddrPort) {
    exists other :: other in s.peers && other != key && s.peers[other].remote == Some(Normalize(remote))
  }

  /** SetPeerEndpoint on a known peer, with an address and a port, takes effect in three steps, unless
      another peer has the address: then its second step gives up and nothing has changed. */
  lemma EndpointTakesEffect(run: seq<State>, key: PeerKey, remote: AddrPort)
    returns (locked: State, programmed: State, stored: State)
    requires IsRun(run) && run[|run| - 1].update == None && key in run[|run| - 1].peers
    requires remote.addr != NoAddr && remote.port != 0
    ensures
      var s := run[|run| - 1];
      && BeginUpdate(s, locked, key, remote) && ProgramDemux(locked, programmed)
      && (HeldByOther(s, key, remote) <==> programmed == s)
      && (!HeldByOther(s, key, remote) ==>
        && StoreRemote(programmed, stored) && stored.update == None && key in stored.peers
        && stored.peers == s.peers[key := s.peers[key].(remote := Some(Normalize(remote)))])
  {
    RunInv(run);
    var s := run[|run| - 1];
    NormalizeIsNormal(remote);
    var u := Update(key, Normalize(remote), false);
    locked := s.(update := Some(u));
    HeldIsTaken(s, key, remote);
    if Taken(s.maps, key, u.remote) {
      programmed := s;
      stored := s;
    } else {
      programmed := locked.(maps := AfterProgram(s.maps, key, u.remote), update := Some(u.(programmed := true)));
      stored := programmed.(peers := s.peers[key := s.peers[key].(remote := Some(u.remote))], update := None);
    }
  }

  lemma HeldIsTaken(s: State, key: PeerKey, remote: AddrPort)
    requires Inv(s) && s.update == None && key in s.peers
    ensures HeldByOther(s, key, remote) <==> Taken(s.maps, key, Normalize(remote))
  {
    NormalizeIsNormal(remote);
    var src := Normalize(remote);
    assert forall k :: k in s.peers ==> Agrees(s, k);
    if Taken(s.maps, key, src) {
      var owner := s.maps.peerBySrc[src];
      assert s.maps.srcByPeer[owner] == src;
      assert owner in s.peers && s.peers[owner].remote == Some(src);
    }
    if HeldByOther(s, key, remote) {
      var other :| other in s.peers && other != key && s.peers[other].remote == Some(src);
      assert Agrees(s, other);
    }
  }
}
