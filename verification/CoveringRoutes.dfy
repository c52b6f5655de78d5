/** Covering-route detection (internal/routeprobe/routeprobe.go, internal/routeprobe/probe.go). */
module CoveringRoutes {
  import opened NetAddr
  import opened NetPrefix

  datatype Route = Route(prefix: Prefix, iface: string)

  /** A 4-in-6 address belongs to neither family. */
  predicate FamilyMatches(p: Prefix, family: Family) {
    p.family == family && (family == FamilyIPv6 ==> Shift(p.addr, 32) != 0xffff)
  }

  /** An IPv6 prefix counts unless it starts in ::ffff:0:0/96; every IPv4 prefix counts. */
  lemma FamilyExactly(p: Prefix, family: Family)
    ensures FamilyMatches(p, family) <==>
      p.family == family && (family == FamilyIPv6 ==> !In(p.addr, 0xffff_0000_0000, 0xffff_ffff_ffff))
  {
    Powers();
    ShiftRange(p.addr, 32, 0xffff);
  }

  /** 0.0.0.0/0 or ::/0 through a tunnel is a cover of its family and of no other. */
  lemma DefaultCovers(iface: string, family: Family, asked: Family)
    ensures Covers([Route(Prefix(family, 0, 0), iface)], asked, {iface}) <==> asked == family
  {
    var routes := [Route(Prefix(family, 0, 0), iface)];
    FamilyExactly(routes[0].prefix, asked);
    if asked == family {
      assert IsTunnelRoute(routes[0], family, {iface}) && routes[0].prefix.bits == 0;
    }
  }

  /** The route's masked prefix is the given half (0 or 1) of the family's address space. */
  predicate IsHalf(p: Prefix, half: nat) {
    p.bits == 1 && Shift(p.addr, Width(p.family) - 1) == half
  }

  predicate IsTunnelRoute(r: Route, family: Family, tunnels: set<string>) {
    FamilyMatches(r.prefix, family) && r.iface in tunnels
  }

  ghost predicate HasDefault(routes: seq<Route>, family: Family, tunnels: set<string>) {
    exists i :: 0 <= i < |routes| && IsTunnelRoute(routes[i], family, tunnels) && routes[i].prefix.bits == 0
  }

  ghost predicate HasHalf(routes: seq<Route>, family: Family, tunnels: set<string>, half: nat) {
    exists i :: 0 <= i < |routes| && IsTunnelRoute(routes[i], family, tunnels) && IsHalf(routes[i].prefix, half)
  }

  ghost predicate Covers(routes: seq<Route>, family: Family, tunnels: set<string>) {
    || HasDefault(routes, family, tunnels)
    || (HasHalf(routes, family, tunnels, 0) && HasHalf(routes, family, tunnels, 1))
  }

  /** HasCoveringDefault, one pass with two flags and early return. */
  method HasCoveringDefault(routes: seq<Route>, family: Family, tunnels: set<string>) returns (covering: bool)
    ensures covering <==> Covers(routes, family, tunnels)
  {
    var low, high := false, false;
    for i := 0 to |routes|
      invariant !HasDefault(routes[..i], family, tunnels)
      invariant low <==> HasHalf(routes[..i], family, tunnels, 0)
      invariant high <==> HasHalf(routes[..i], family, tunnels, 1)
      invariant !(low && high)
    {
      var r := routes[i];
      PrefixGrows(routes, i, family, tunnels);
      if !FamilyMatches(r.prefix, family) || r.iface !in tunnels {
        continue;
      }
      if r.prefix.bits == 0 {
        return true;
      }
      if IsHalf(r.prefix, 0) {
        low := true;
      } else if IsHalf(r.prefix, 1) {
        high := true;
      }
      if low && high {
        WholeContainsPrefix(routes, i + 1, family, tunnels);
        return true;
      }
    }
    assert routes[..|routes|] == routes;
    return false;
  }

  lemma PrefixGrows(routes: seq<Route>, i: nat, family: Family, tunnels: set<string>)
    requires i < |routes|
    ensures HasDefault(routes[..i + 1], family, tunnels) <==>
      HasDefault(routes[..i], family, tunnels) || (IsTunnelRoute(routes[i], family, tunnels) && routes[i].prefix.bits == 0)
    ensures forall half :: HasHalf(routes[..i + 1], family, tunnels, half) <==>
      HasHalf(routes[..i], family, tunnels, half) || (IsTunnelRoute(routes[i], family, tunnels) && IsHalf(routes[i].prefix, half))
  {
    assert routes[..i + 1][i] == routes[i];
    assert forall k :: 0 <= k < i ==> routes[..i + 1][k] == routes[..i][k];
  }

  lemma WholeContainsPrefix(routes: seq<Route>, i: nat, family: Family, tunnels: set<string>)
    requires i <= |routes|
    ensures forall half :: HasHalf(routes[..i], family, tunnels, half) ==> HasHalf(routes, family, tunnels, half)
  {
    assert forall k :: 0 <= k < i ==> routes[..i][k] == routes[k];
  }

  /** The answer depends on which routes there are, not on their order or number. */
  lemma OrderIndependent(routes: seq<Route>, other: seq<Route>, family: Family, tunnels: set<string>)
    requires forall r :: r in routes <==> r in other
    ensures Covers(routes, family, tunnels) <==> Covers(other, family, tunnels)
  {
    SameRoutesSameAnswer(routes, other, family, tunnels);
    SameRoutesSameAnswer(other, routes, family, tunnels);
  }

  lemma SameRoutesSameAnswer(routes: seq<Route>, other: seq<Route>, family: Family, tunnels: set<string>)
    requires forall r :: r in routes ==> r in other
    ensures Covers(routes, family, tunnels) ==> Covers(other, family, tunnels)
  {
    assert forall i :: 0 <= i < |routes| ==> routes[i] in other;
  }

  /** A tunnel route of at most one bit that contains the address. */
  predicate Holds(r: Route, family: Family, tunnels: set<string>, a: nat) {
    IsTunnelRoute(r, family, tunnels) && r.prefix.bits <= 1 && Contains(r.prefix, family, a)
  }

  ghost predicate Held(routes: seq<Route>, family: Family, tunnels: set<string>, a: nat) {
    exists i :: 0 <= i < |routes| && Holds(routes[i], family, tunnels, a)
  }

  ghost predicate AllValid(routes: seq<Route>) {
    forall i :: 0 <= i < |routes| ==> ValidPrefix(routes[i].prefix)
  }

  /** When it answers yes, every address of the family lies in some tunnel's route, of one bit at most. */
  lemma CoveredEverywhere(routes: seq<Route>, family: Family, tunnels: set<string>, a: nat)
    requires Covers(routes, family, tunnels) && a < PowerOf2(Width(family)) && AllValid(routes)
    ensures Held(routes, family, tunnels, a)
  {
    if HasDefault(routes, family, tunnels) {
      var i :| 0 <= i < |routes| && IsTunnelRoute(routes[i], family, tunnels) && routes[i].prefix.bits == 0;
      DefaultHolds(routes[i], family, tunnels, a);
    } else {
      var half := TopBit(family, a);
      var i :| 0 <= i < |routes| && IsTunnelRoute(routes[i], family, tunnels) && IsHalf(routes[i].prefix, half);
      assert Holds(routes[i], family, tunnels, a);
    }
  }

  lemma DefaultHolds(r: Route, family: Family, tunnels: set<string>, a: nat)
    requires IsTunnelRoute(r, family, tunnels) && r.prefix.bits == 0 && ValidPrefix(r.prefix) && a < PowerOf2(Width(family))
    ensures Holds(r, family, tunnels, a)
  {
    ShiftBound(a, Width(family), 0);
    ShiftBound(r.prefix.addr, Width(family), 0);
    assert PowerOf2(0) == 1;
  }

  lemma TopBit(family: Family, a: nat) returns (half: nat)
    requires a < PowerOf2(Width(family))
    ensures half == Shift(a, Width(family) - 1) <= 1
  {
    half := Shift(a, Width(family) - 1);
    ShiftBound(a, Width(family) - 1, 1);
    assert PowerOf2(1) == 2;
  }

  /** The first address of a half. */
  function FirstOfHalf(family: Family, half: nat): nat {
    half * PowerOf2(Width(family) - 1)
  }

  lemma HalfIsInFamily(family: Family, half: nat)
    requires half <= 1
    ensures FirstOfHalf(family, half) < PowerOf2(Width(family)) && Shift(FirstOfHalf(family, half), Width(family) - 1) == half
  {
    ShiftOfMultiple(half, Width(family) - 1);
    assert PowerOf2(Width(family)) == 2 * PowerOf2(Width(family) - 1);
  }

  /** Short routes that hold the first address of a half are a default or that half. */
  lemma HeldHalf(routes: seq<Route>, family: Family, tunnels: set<string>, half: nat)
    requires half <= 1 && Held(routes, family, tunnels, FirstOfHalf(family, half))
    ensures HasDefault(routes, family, tunnels) || HasHalf(routes, family, tunnels, half)
  {
    HalfIsInFamily(family, half);
    var i :| 0 <= i < |routes| && Holds(routes[i], family, tunnels, FirstOfHalf(family, half));
    if routes[i].prefix.bits == 1 {
      assert IsHalf(routes[i].prefix, half);
    }
  }

  /** The answer is yes exactly when the tunnel routes of at most one bit cover every address of the
      family: what goes unnoticed are the covers that need a longer route. */
  lemma CoversExactly(routes: seq<Route>, family: Family, tunnels: set<string>)
    requires AllValid(routes)
    ensures Covers(routes, family, tunnels)
      <==> forall a: nat :: a < PowerOf2(Width(family)) ==> Held(routes, family, tunnels, a)
  {
    if Covers(routes, family, tunnels) {
      forall a: nat | a < PowerOf2(Width(family)) ensures Held(routes, family, tunnels, a) {
        CoveredEverywhere(routes, family, tunnels, a);
      }
    }
    if forall a: nat :: a < PowerOf2(Width(family)) ==> Held(routes, family, tunnels, a) {
      HalfIsInFamily(family, 0);
      HalfIsInFamily(family, 1);
      HeldHalf(routes, family, tunnels, 0);
      HeldHalf(routes, family, tunnels, 1);
    }
  }

  /** Quarter `i` of an address space of k + 2 bits contains the addresses whose top two bits are i. */
  lemma QuarterOf(a: nat, k: nat)
    requires a < PowerOf2(k + 2)
    ensures Shift(a, k) < 4 && Shift(Shift(a, k) * PowerOf2(k), k) == Shift(a, k)
  {
    ShiftBound(a, k, 2);
    assert PowerOf2(2) == 4;
    ShiftOfMultiple(Shift(a, k), k);
  }

  function Quarter(iface: string, i: nat): Route {
    Route(Prefix(FamilyIPv4, i * PowerOf2(30), 2), iface)
  }

  /** The converse fails: four quarter routes cover everything and are not detected. */
  lemma QuartersGoUnnoticed(iface: string)
    ensures
      var routes := [Quarter(iface, 0), Quarter(iface, 1), Quarter(iface, 2), Quarter(iface, 3)];
      && !Covers(routes, FamilyIPv4, {iface})
      && forall a :: 0 <= a < PowerOf2(32) ==> CoveredBy(routes, FamilyIPv4, a)
  {
    var routes := [Quarter(iface, 0), Quarter(iface, 1), Quarter(iface, 2), Quarter(iface, 3)];
    forall a | 0 <= a < PowerOf2(32) ensures CoveredBy(routes, FamilyIPv4, a) {
      QuarterOf(a, 30);
      var q := Shift(a, 30);
      assert routes[q] == Quarter(iface, q);
      assert Contains(routes[q].prefix, FamilyIPv4, a);
    }
  }

  ghost predicate CoveredBy(routes: seq<Route>, family: Family, a: nat) {
    exists i :: 0 <= i < |routes| && Contains(routes[i].prefix, family, a)
  }

  /** chooseDefaultInterface: the first /0 that does not go through a tunnel. */
  method ChooseDefaultInterface(routes: seq<Route>, family: Family, tunnels: set<string>) returns (r: Option<Route>)
    ensures r.Some? ==> FirstEscape(routes, family, tunnels, r.value)
    ensures r.None? ==> forall i :: 0 <= i < |routes| ==> !Escapes(routes[i], family, tunnels)
  {
    for i := 0 to |routes|
      invariant forall j :: 0 <= j < i ==> !Escapes(routes[j], family, tunnels)
    {
      if !FamilyMatches(routes[i].prefix, family) {
        continue;
      }
      if routes[i].prefix.bits != 0 {
        continue;
      }
      if routes[i].iface in tunnels {
        continue;
      }
      assert FirstEscape(routes, family, tunnels, routes[i]);
      return Some(routes[i]);
    }
    return None;
  }

  /** A default route that leaves by a physical interface. */
  predicate Escapes(r: Route, family: Family, tunnels: set<string>) {
    FamilyMatches(r.prefix, family) && r.prefix.bits == 0 && r.iface !in tunnels
  }

  ghost predicate FirstEscape(routes: seq<Route>, family: Family, tunnels: set<string>, r: Route) {
    exists i ::
      && 0 <= i < |routes| && routes[i] == r && Escapes(r, family, tunnels)
      && (forall j :: 0 <= j < i ==> !Escapes(routes[j], family, tunnels))
  }
}
