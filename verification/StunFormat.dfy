/** The STUN binding response as RFC 8489 lays it out (sections 5, 14, 14.1 and 14.2), written down from
    the byte positions and without any function of the parser: what the parser is measured against. */
module StunFormat {
  import opened NetAddr

  // ---------------------------------------------------------------- bits

  /** Bit k of a number, bit 0 being the lowest. */
  predicate Bit(n: nat, k: nat)
    decreases k
  {
    if k == 0 then n % 2 == 1 else Bit(n / 2, k - 1)
  }

  /** r is the bitwise exclusive or of a and b. */
  ghost predicate IsXor(r: nat, a: nat, b: nat) {
    forall k: nat :: Bit(r, k) <==> Bit(a, k) != Bit(b, k)
  }

  lemma {:induction false} XorBit(a: nat, b: nat, k: nat)
    ensures Bit(Xor(a, b), k) <==> Bit(a, k) != Bit(b, k)
    decreases k
  {
    var r := Xor(a, b);
    assert r / 2 == Xor(a / 2, b / 2) && (r % 2 == 1 <==> a % 2 != b % 2);
    if k > 0 {
      XorBit(a / 2, b / 2, k - 1);
    }
  }

  /** A number is determined by its bits. */
  lemma {:induction false} BitsDetermine(a: nat, b: nat)
    requires forall k: nat :: Bit(a, k) <==> Bit(b, k)
    ensures a == b
    decreases a + b
  {
    assert Bit(a, 0) <==> Bit(b, 0);
    if a > 0 || b > 0 {
      forall k: nat ensures Bit(a / 2, k) <==> Bit(b / 2, k) {
        assert Bit(a, k + 1) <==> Bit(b, k + 1);
      }
      BitsDetermine(a / 2, b / 2);
    }
  }

  lemma XorExactly(r: nat, a: nat, b: nat)
    ensures IsXor(r, a, b) <==> r == Xor(a, b)
  {
    forall k: nat ensures Bit(Xor(a, b), k) <==> Bit(a, k) != Bit(b, k) {
      XorBit(a, b, k);
    }
    if IsXor(r, a, b) {
      BitsDetermine(r, Xor(a, b));
    }
  }

  // ---------------------------------------------------------------- endpoints

  /** Bytes as a big-endian number. */
  function Number(b: seq<byte>): nat {
    if b == [] then 0 else Number(b[..|b| - 1]) * 256 + b[|b| - 1]
  }

  /** A two-byte field, high byte first. */
  function Field(hi: nat, lo: nat): nat {
    hi * 256 + lo
  }

  /** Not unspecified, broadcast, loopback, link-local or multicast. */
  predicate PublicIPv4(n: nat) {
    && n != 0 && n != 0xffff_ffff
    && !In(n, 0x7f00_0000, 0x7fff_ffff) && !In(n, 0xa9fe_0000, 0xa9fe_ffff) && !In(n, 0xe000_0000, 0xefff_ffff)
  }

  /** Not ::, ::1, fe80::/10, ff00::/8 or ::ffff:0:0/96. */
  predicate PublicIPv6(n: nat) {
    && !In(n, 0, 1)
    && !In(n, 0xfe80_0000_0000_0000_0000_0000_0000_0000, 0xfebf_ffff_ffff_ffff_ffff_ffff_ffff_ffff)
    && !In(n, 0xff00_0000_0000_0000_0000_0000_0000_0000, 0xffff_ffff_ffff_ffff_ffff_ffff_ffff_ffff)
    && !In(n, 0xffff_0000_0000, 0xffff_ffff_ffff)
  }

  predicate Reportable(ep: AddrPort) {
    && ep.port != 0
    && match ep.addr
       case NoAddr => false
       case IP4(b) => |b| == 4 && PublicIPv4(Number(b))
       case IP6(b, zone) => |b| == 16 && zone == "" && PublicIPv6(Number(b))
  }

  // ---------------------------------------------------------------- address values

  /** The cookie, then the transaction ID. */
  function MaskByte(txn: seq<byte>, i: nat): byte
    requires |txn| == 12 && i < 16
  {
    if i == 0 then 0x21 else if i == 1 then 0x12 else if i == 2 then 0xA4 else if i == 3 then 0x42 else txn[i - 4]
  }

  /** The value of an address attribute that carries this endpoint. */
  ghost predicate Carries(v: seq<byte>, txn: seq<byte>, xored: bool, ep: AddrPort)
    requires |txn| == 12
  {
    && (ep.addr.IP4? || ep.addr.IP6?) && |ep.addr.b| == (if ep.addr.IP4? then 4 else 16)
    && |v| == 4 + |ep.addr.b|
    && v[0] == 0 && v[1] == (if ep.addr.IP4? then 1 else 2)
    && (if xored then IsXor(ep.port, Field(v[2], v[3]), 0x2112) else ep.port == Field(v[2], v[3]))
    && forall i :: 0 <= i < |ep.addr.b| ==>
      if xored then IsXor(ep.addr.b[i], v[4 + i], MaskByte(txn, i)) else ep.addr.b[i] == v[4 + i]
  }

  // ---------------------------------------------------------------- messages

  datatype Attr = Attr(kind: uint16, value: seq<byte>, pad: seq<byte>)

  /** Type, length, value and padding to a multiple of four, one attribute after the other. */
  ghost predicate Spells(bs: seq<byte>, attrs: seq<Attr>)
    decreases |attrs|
  {
    if attrs == [] then bs == []
    else
      var a, n, m := attrs[0], |attrs[0].value|, |attrs[0].value| + |attrs[0].pad|;
      && |a.pad| < 4 && m % 4 == 0 && 4 + m <= |bs|
      && Field(bs[0], bs[1]) == a.kind && Field(bs[2], bs[3]) == n
      && bs[4..4 + n] == a.value && bs[4 + n..4 + m] == a.pad
      && Spells(bs[4 + m..], attrs[1..])
  }

  /** The cookie at its place. */
  predicate HasCookie(b: seq<byte>) {
    |b| >= 8 && b[4] == 0x21 && b[5] == 0x12 && b[6] == 0xA4 && b[7] == 0x42
  }

  /** A header: two leading zero bits and the cookie. */
  predicate Shaped(b: seq<byte>) {
    |b| >= 20 && !Bit(b[0], 7) && !Bit(b[0], 6) && HasCookie(b)
  }

  /** A header whose length field is right, for a message of at most 2048 bytes in whole words. */
  predicate Recognised(b: seq<byte>) {
    Shaped(b) && |b| <= 2048 && |b| % 4 == 0 && Field(b[2], b[3]) == |b| - 20
  }

  lemma SixBits(n: nat, k: nat)
    ensures Bit(n, k + 6) <==> Bit(n / 64, k)
  {
    assert Bit(n, k + 6) <==> Bit(n / 2, k + 5);
    assert Bit(n / 2, k + 5) <==> Bit(n / 4, k + 4);
    assert Bit(n / 4, k + 4) <==> Bit(n / 8, k + 3);
    assert Bit(n / 8, k + 3) <==> Bit(n / 16, k + 2);
    assert Bit(n / 16, k + 2) <==> Bit(n / 32, k + 1);
  }

  lemma TopBits(b: byte)
    ensures !Bit(b, 7) && !Bit(b, 6) <==> b < 64
  {
    SixBits(b, 0);
    SixBits(b, 1);
  }

  /** A binding success of at most 2048 bytes. */
  ghost predicate IsSuccess(msg: seq<byte>, txn: seq<byte>, attrs: seq<Attr>) {
    && 20 <= |msg| <= 2048
    && msg[0] == 0x01 && msg[1] == 0x01
    && Field(msg[2], msg[3]) == |msg| - 20
    && msg[4] == 0x21 && msg[5] == 0x12 && msg[6] == 0xA4 && msg[7] == 0x42
    && msg[8..20] == txn
    && Spells(msg[20..], attrs)
  }

  /** Some attribute of the kind carries this endpoint. */
  ghost predicate Tells(attrs: seq<Attr>, kind: uint16, txn: seq<byte>, xored: bool, ep: AddrPort)
    requires |txn| == 12
  {
    exists i :: 0 <= i < |attrs| && attrs[i].kind == kind && Carries(attrs[i].value, txn, xored, ep) && Reportable(ep)
  }

  predicate IsAddress(kind: uint16) {
    kind == 0x0001 || kind == 0x0020
  }

  ghost predicate Absent(attrs: seq<Attr>, kind: uint16) {
    forall i :: 0 <= i < |attrs| ==> attrs[i].kind != kind
  }

  /** Each address attribute carries a reportable endpoint, and neither kind occurs twice. */
  ghost predicate Sane(attrs: seq<Attr>, txn: seq<byte>)
    requires |txn| == 12
  {
    && (forall i :: 0 <= i < |attrs| && IsAddress(attrs[i].kind) ==>
      exists ep :: Carries(attrs[i].value, txn, attrs[i].kind == 0x0020, ep) && Reportable(ep))
    && (forall i, j :: 0 <= i < j < |attrs| && IsAddress(attrs[i].kind) ==> attrs[i].kind != attrs[j].kind)
  }

  /** The endpoint that these attributes report: XOR-MAPPED-ADDRESS, or without it MAPPED-ADDRESS. */
  ghost predicate Answers(attrs: seq<Attr>, txn: seq<byte>, ep: AddrPort)
    requires |txn| == 12
  {
    && Sane(attrs, txn)
    && (Tells(attrs, 0x0020, txn, true, ep) || (Absent(attrs, 0x0020) && Tells(attrs, 0x0001, txn, false, ep)))
  }
}
