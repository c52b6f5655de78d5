/** First-fit address allocation, phoneAddress of cmd/provision/server.go. */
module PhoneAddress {
  import opened NetAddr
  import opened NetPrefix

  const FIRST_HOST := 2
  const LAST_HOST := 254

  datatype Error = BadServerRoute | BadReservation | Exhausted

  predicate IsPrivate(a: nat) {
    Shift(a, 24) == 10 || Shift(a, 20) == 0xac1 || Shift(a, 16) == 0xc0a8
  }

  predicate GoodServer(server: Option<Prefix>) {
    && server.Some? && server.value.family == FamilyIPv4 && server.value.bits == 32
    && IsPrivate(server.value.addr)
  }

  /** Host n of the /24 around the server. */
  function Host(server: nat, n: nat): nat {
    server - server % 256 + n
  }

  /** 10.0.0.0/8, 172.16.0.0/12 and 192.168.0.0/16. */
  lemma PrivateExactly(a: nat)
    ensures IsPrivate(a) <==>
      In(a, 0x0a00_0000, 0x0aff_ffff) || In(a, 0xac10_0000, 0xac1f_ffff) || In(a, 0xc0a8_0000, 0xc0a8_ffff)
  {
    Powers();
    ShiftRange(a, 24, 10);
    ShiftRange(a, 20, 0xac1);
    ShiftRange(a, 16, 0xc0a8);
  }

  /** Host n shares the server's first three bytes and ends in n, so it lies in the server's /24. */
  lemma HostInSubnet(server: nat, n: nat)
    requires n < 256
    ensures Host(server, n) / 256 == server / 256 && Host(server, n) % 256 == n
    ensures Contains(Prefix(FamilyIPv4, server, 24), FamilyIPv4, Host(server, n))
  {
    Powers();
    assert server == server / 256 * 256 + server % 256;
    ContainsExactly(Prefix(FamilyIPv4, server, 24), FamilyIPv4, Host(server, n));
  }

  ghost predicate Reserved(used: seq<Option<Prefix>>, a: nat) {
    exists i :: 0 <= i < |used| && used[i].Some? && Contains(used[i].value, FamilyIPv4, a)
  }

  ghost predicate AllParsed(used: seq<Option<Prefix>>) {
    forall i :: 0 <= i < |used| ==> used[i].Some?
  }

  ghost predicate Free(server: nat, used: seq<Option<Prefix>>, n: nat) {
    FIRST_HOST <= n <= LAST_HOST && !Reserved(used, Host(server, n))
  }

  /** n is the lowest free host. */
  ghost predicate Allocated(server: nat, used: seq<Option<Prefix>>, n: nat) {
    Free(server, used, n) && forall m: nat :: m < n ==> !Free(server, used, m)
  }

  function AsReservation(server: nat, n: nat): Option<Prefix> {
    Some(Prefix(FamilyIPv4, Host(server, n), 32))
  }

  /** The lowest free host, or exhaustion exactly when there is none. A text that does not parse
      arrives as None. */
  method Allocate(serverRoute: Option<Prefix>, used: seq<Option<Prefix>>) returns (r: Result<Prefix, Error>)
    ensures r == Err(BadServerRoute) <==> !GoodServer(serverRoute)
    ensures r == Err(BadReservation) <==> GoodServer(serverRoute) && !AllParsed(used)
    ensures r.Ok? ==>
      exists n :: Allocated(serverRoute.value.addr, used, n) && Some(r.value) == AsReservation(serverRoute.value.addr, n)
    ensures r.Ok? ==>
      && r.value.bits == 32 && r.value.addr / 256 == serverRoute.value.addr / 256
      && 2 <= r.value.addr % 256 <= 254 && !Reserved(used, r.value.addr)
    ensures r == Err(Exhausted) ==> forall n :: !Free(serverRoute.value.addr, used, n)
    ensures r == Err(Exhausted) ==> forall n :: 2 <= n <= 254 ==> Reserved(used, Host(serverRoute.value.addr, n))
  {
    if !GoodServer(serverRoute) {
      return Err(BadServerRoute);
    }
    var base := serverRoute.value.addr;
    var prefixes: seq<Prefix> := [];
    for i := 0 to |used|
      invariant |prefixes| == i
      invariant forall k :: 0 <= k < i ==> used[k] == Some(prefixes[k])
    {
      if used[i].None? {
        return Err(BadReservation);
      }
      prefixes := prefixes + [used[i].value];
    }
    for n := FIRST_HOST to LAST_HOST + 1
      invariant forall m: nat :: m < n ==> !Free(base, used, m)
    {
      var ip := Host(base, n);
      var free := true;
      for i := 0 to |prefixes|
        invariant free
        invariant forall k :: 0 <= k < i ==> !Contains(prefixes[k], FamilyIPv4, ip)
      {
        if Contains(prefixes[i], FamilyIPv4, ip) {
          free := false;
          assert Reserved(used, ip);
          break;
        }
      }
      if free {
        assert Allocated(base, used, n);
        HostInSubnet(base, n);
        return Ok(Prefix(FamilyIPv4, ip, 32));
      }
    }
    assert forall n :: 2 <= n <= 254 && !Reserved(used, Host(base, n)) ==> Free(base, used, n);
    return Err(Exhausted);
  }

  // ---------------------------------------------------------------- sequences of allocations

  function AsReservations(server: nat, hosts: seq<nat>): seq<Option<Prefix>> {
    seq(|hosts|, i requires 0 <= i < |hosts| => AsReservation(server, hosts[i]))
  }

  /** Each host was allocated with all earlier ones reserved. */
  ghost predicate IsAllocationRun(server: nat, used: seq<Option<Prefix>>, hosts: seq<nat>) {
    forall i :: 0 <= i < |hosts| ==> Allocated(server, used + AsReservations(server, hosts[..i]), hosts[i])
  }

  /** In any sequence of allocations the addresses are strictly increasing, so distinct, and there are
      at most 253. */
  lemma AllocationsDistinct(server: nat, used: seq<Option<Prefix>>, hosts: seq<nat>)
    requires IsAllocationRun(server, used, hosts)
    ensures forall i, j :: 0 <= i < j < |hosts| ==> hosts[i] < hosts[j] && Host(server, hosts[i]) != Host(server, hosts[j])
    ensures |hosts| <= 253
  {
    forall i, j | 0 <= i < j < |hosts| ensures hosts[i] < hosts[j] {
      LaterIsLarger(server, used, hosts, i, j);
    }
    if hosts != [] {
      IncreasingBound(hosts, |hosts| - 1);
      assert Free(server, used + AsReservations(server, hosts[..0]), hosts[0]);
      var k := |hosts| - 1;
      assert Free(server, used + AsReservations(server, hosts[..k]), hosts[k]);
    }
  }

  lemma LaterIsLarger(server: nat, used: seq<Option<Prefix>>, hosts: seq<nat>, i: nat, j: nat)
    requires IsAllocationRun(server, used, hosts) && i < j < |hosts|
    ensures hosts[i] < hosts[j]
  {
    var before, later := used + AsReservations(server, hosts[..i]), used + AsReservations(server, hosts[..j]);
    assert Allocated(server, before, hosts[i]) && Allocated(server, later, hosts[j]);
    assert later[|used| + i] == AsReservation(server, hosts[i]);
    assert Contains(later[|used| + i].value, FamilyIPv4, Host(server, hosts[i]));
    assert Reserved(later, Host(server, hosts[i]));
    assert forall k :: 0 <= k < |before| ==> later[k] == before[k];
    assert Reserved(before, Host(server, hosts[j])) ==> Reserved(later, Host(server, hosts[j]));
    assert Free(server, before, hosts[j]);
  }

  lemma {:induction false} IncreasingBound(hosts: seq<nat>, k: nat)
    requires k < |hosts| && forall i, j :: 0 <= i < j < |hosts| ==> hosts[i] < hosts[j]
    ensures hosts[k] >= hosts[0] + k
  {
    if k > 0 {
      IncreasingBound(hosts, k - 1);
    }
  }
}
