/** Values shared by every module: outcomes, socket addresses and their normal form. */
module NetAddr {

  datatype Option<+T> = None | Some(value: T)

  datatype Result<+T, +E> = Ok(value: T) | Err(error: E)

  type byte = x: int | 0 <= x < 256

  type uint16 = x: int | 0 <= x < 65536

  /** A peer's public key. */
  type PeerKey = seq<byte>

  /** Sockets are handles; a fresh one is the next number. */
  type Socket = nat

  /** netip.Addr: the zero value, an IPv4 address or an IPv6 address with its zone. */
  datatype Addr = NoAddr | IP4(b: seq<byte>) | IP6(b: seq<byte>, zone: string)

  /** netip.AddrPort. */
  datatype AddrPort = AddrPort(addr: Addr, port: uint16)

  /** Bitwise exclusive or of two natural numbers. */
  function Xor(a: nat, b: nat): nat
    decreases a + b
  {
    if a == 0 && b == 0 then 0 else 2 * Xor(a / 2, b / 2) + (if a % 2 == b % 2 then 0 else 1)
  }

  /** Twice the same mask restores the number, and no bit above the operands' is ever set. */
  lemma {:induction false} XorFacts(a: nat, b: nat, bound: nat)
    requires a < PowerOf2(bound) && b < PowerOf2(bound)
    ensures Xor(a, b) < PowerOf2(bound)
    ensures Xor(Xor(a, b), b) == a
    decreases bound
  {
    if bound > 0 {
      XorFacts(a / 2, b / 2, bound - 1);
      var r := Xor(a, b);
      assert r / 2 == Xor(a / 2, b / 2);
      assert Xor(r, b) == 2 * Xor(r / 2, b / 2) + (if r % 2 == b % 2 then 0 else 1);
    }
  }

  function PowerOf2(n: nat): (p: nat)
    ensures p > 0
  {
    if n == 0 then 1 else 2 * PowerOf2(n - 1)
  }

  lemma FieldSizes()
    ensures PowerOf2(8) == 256 && PowerOf2(16) == 65536
  {
    assert PowerOf2(4) == 16;
    assert PowerOf2(8) == 16 * PowerOf2(4) by {
      assert PowerOf2(6) == 4 * PowerOf2(4);
    }
    assert PowerOf2(12) == 16 * PowerOf2(8) by {
      assert PowerOf2(10) == 4 * PowerOf2(8);
    }
    assert PowerOf2(14) == 4 * PowerOf2(12);
  }

  /** Both ends included. */
  predicate In(n: nat, first: nat, last: nat) {
    first <= n <= last
  }

  datatype Family = FamilyIPv4 | FamilyIPv6

  /** The address lies in ::ffff:0:0/96. */
  predicate Is4In6(a: Addr) {
    a.IP6? && |a.b| == 16 && (forall i :: 0 <= i < 10 ==> a.b[i] == 0) && a.b[10] == 0xff && a.b[11] == 0xff
  }

  function Unmap(a: Addr): Addr {
    if Is4In6(a) then IP4(a.b[12..]) else a
  }

  /** Strips the 4-in-6 form, so that two spellings of one endpoint compare equal. */
  function Normalize(ap: AddrPort): AddrPort {
    AddrPort(Unmap(ap.addr), ap.port)
  }

  predicate Normal(ap: AddrPort) {
    !Is4In6(ap.addr)
  }

  function FamilyOf(ap: AddrPort): Family {
    if Unmap(ap.addr).IP4? then FamilyIPv4 else FamilyIPv6
  }

  /** The sixteen bytes of ::ffff:a.b.c.d. */
  function MappedBytes(c: seq<byte>): seq<byte> {
    [0, 0, 0, 0, 0, 0, 0, 0, 0, 0, 0xff, 0xff] + c
  }

  /** Exactly the mapped addresses change, each to the four bytes it ends in. */
  lemma UnmapExactly(a: Addr, c: seq<byte>)
    requires |c| == 4
    ensures Unmap(a) == IP4(c) <==> a == IP4(c) || (a.IP6? && a.b == MappedBytes(c))
    ensures Unmap(a) != a ==> a.IP6? && |a.b| == 16 && a.b == MappedBytes(a.b[12..]) && Unmap(a) == IP4(a.b[12..])
  {
    if Is4In6(a) {
      assert a.b == MappedBytes(a.b[12..]);
    }
    assert MappedBytes(c)[12..] == c;
  }

  /** Two mapped addresses become one only if they are the same bytes. */
  lemma UnmapInjective(a: Addr, b: Addr)
    requires Is4In6(a) && Is4In6(b) && Unmap(a) == Unmap(b)
    ensures a.b == b.b
  {
    UnmapExactly(a, a.b[12..]);
    UnmapExactly(b, a.b[12..]);
  }
}
