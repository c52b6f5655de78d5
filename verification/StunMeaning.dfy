/** The parser of internal/stunwire/stun.go against the layout of the messages: what it accepts, and
    every byte and bit of what it returns. */
module StunMeaning {
  import opened NetAddr
  import opened StunFormat
  import opened StunWire
  import opened StunRoundTrip

  // ---------------------------------------------------------------- which endpoints

  lemma FourBytes(b: seq<byte>)
    requires |b| == 4
    ensures Number(b) == Field(Field(Field(b[0], b[1]), b[2]), b[3])
  {
    TwoBytes(b[..2]);
    assert b[..3][..2] == b[..2];
  }

  lemma PublicIPv4Exactly(b: seq<byte>)
    requires |b| == 4
    ensures PublicIPv4(Number(b)) <==> IsGlobalUnicast(IP4(b))
  {
    FourBytes(b);
    assert b == [b[0], b[1], b[2], b[3]];
  }

  /** The leading bytes count for the rest's size each. */
  lemma {:induction false} NumberSplit(b: seq<byte>, k: nat)
    requires k <= |b|
    ensures Number(b) == Number(b[..k]) * Size(|b| - k) + Number(b[k..]) && Number(b[k..]) < Size(|b| - k)
    decreases |b|
  {
    if k == |b| {
      assert b[..k] == b && b[k..] == [];
    } else {
      var front := b[..|b| - 1];
      NumberSplit(front, k);
      assert front[..k] == b[..k] && front[k..] == b[k..][..|b[k..]| - 1];
      Distribute(Number(b[..k]), Size(|b| - k - 1), Number(front[k..]), b[|b| - 1]);
    }
  }

  lemma Distribute(x: nat, y: nat, z: nat, w: nat)
    ensures (x * y + z) * 256 + w == x * (256 * y) + (z * 256 + w)
  {}

  /** How many values n bytes have. */
  function Size(n: nat): nat {
    if n == 0 then 1 else 256 * Size(n - 1)
  }

  lemma Sizes()
    ensures Size(1) == 0x100 && Size(2) == 0x1_0000 && Size(4) == 0x1_0000_0000
    ensures Size(14) == 0x1_0000_0000_0000_0000_0000_0000_0000
  {
    assert Size(3) == 0x100_0000;
    assert Size(6) == 0x1_0000_0000_0000 by {
      assert Size(5) == 0x100_0000_0000;
    }
    assert Size(9) == 0x100_0000_0000_0000_0000 by {
      assert Size(7) == 0x100_0000_0000_0000;
      assert Size(8) == 0x1_0000_0000_0000_0000;
    }
    assert Size(12) == 0x1_0000_0000_0000_0000_0000_0000 by {
      assert Size(10) == 0x1_0000_0000_0000_0000_0000;
      assert Size(11) == 0x100_0000_0000_0000_0000_0000;
    }
    assert Size(13) == 0x100_0000_0000_0000_0000_0000_0000;
  }

  /** Leading zero bytes, as a bound. */
  lemma {:induction false} ZeroBytes(b: seq<byte>)
    ensures Number(b) == 0 <==> forall i :: 0 <= i < |b| ==> b[i] == 0
  {
    if b != [] {
      var front := b[..|b| - 1];
      ZeroBytes(front);
      assert forall i :: 0 <= i < |front| ==> front[i] == b[i];
    }
  }

  lemma OneByte(b: seq<byte>)
    requires |b| == 1
    ensures Number(b) == b[0]
  {
    assert Number(b[..0]) == 0;
  }

  lemma TwoBytes(b: seq<byte>)
    requires |b| == 2
    ensures Number(b) == Field(b[0], b[1])
  {
    OneByte(b[..1]);
  }

  /** :: and ::1. */
  lemma LowestTwo(b: seq<byte>)
    requires |b| == 16
    ensures Number(b) <= 1 <==> (forall i :: 0 <= i < 15 ==> b[i] == 0) && b[15] <= 1
  {
    ZeroBytes(b[..15]);
    assert forall i :: 0 <= i < 15 ==> b[..15][i] == b[i];
    assert Number(b) == Number(b[..15]) * 256 + b[15];
  }

  /** fe80::/10 and ff00::/8, by the first two bytes. */
  lemma ByFirstTwo(b: seq<byte>)
    requires |b| == 16
    ensures In(Number(b), 0xfe80_0000_0000_0000_0000_0000_0000_0000, 0xfebf_ffff_ffff_ffff_ffff_ffff_ffff_ffff)
      <==> b[0] == 0xfe && 0x80 <= b[1] < 0xc0
    ensures In(Number(b), 0xff00_0000_0000_0000_0000_0000_0000_0000, 0xffff_ffff_ffff_ffff_ffff_ffff_ffff_ffff)
      <==> b[0] == 0xff
  {
    Sizes();
    NumberSplit(b, 2);
    TwoBytes(b[..2]);
    assert b[..2][0] == b[0] && b[..2][1] == b[1];
    var hi, rest := Field(b[0], b[1]), Number(b[2..]);
    assert Number(b) == hi * 0x1_0000_0000_0000_0000_0000_0000_0000 + rest;
  }

  /** ::ffff:0:0/96. */
  lemma MappedRange(b: seq<byte>)
    requires |b| == 16
    ensures In(Number(b), 0xffff_0000_0000, 0xffff_ffff_ffff)
      <==> (forall i :: 0 <= i < 10 ==> b[i] == 0) && b[10] == 0xff && b[11] == 0xff
  {
    Sizes();
    NumberSplit(b, 12);
    NumberSplit(b[..12], 10);
    TwoBytes(b[..12][10..]);
    ZeroBytes(b[..10]);
    assert b[..12][..10] == b[..10] && b[..12][10..] == [b[10], b[11]];
    assert forall i :: 0 <= i < 10 ==> b[..10][i] == b[i];
    var top, mid, low := Number(b[..10]), Field(b[10], b[11]), Number(b[12..]);
    assert Number(b) == (top * 0x1_0000 + mid) * 0x1_0000_0000 + low && low < 0x1_0000_0000 && mid < 0x1_0000;
  }

  /** The endpoints that the parser lets through, as address ranges. */
  lemma AcceptableExactly(ep: AddrPort)
    ensures Acceptable(ep) <==> Reportable(ep)
  {
    if ep.addr.IP4? && |ep.addr.b| == 4 {
      PublicIPv4Exactly(ep.addr.b);
    } else if ep.addr.IP6? && |ep.addr.b| == 16 {
      LowestTwo(ep.addr.b);
      ByFirstTwo(ep.addr.b);
      MappedRange(ep.addr.b);
    }
  }

  // ---------------------------------------------------------------- address values

  lemma CarriedByte(b: byte, v: byte, txn: TxnID, i: nat, xored: bool)
    requires i < 16
    ensures (if xored then IsXor(b, v, MaskByte(txn, i)) else b == v)
      <==> v == if xored then MaskedByte(b, txn, i) else b
  {
    FieldSizes();
    XorExactly(b, v, MaskByte(txn, i));
    XorFacts(v, MaskByte(txn, i), 8);
    XorFacts(b, MaskByte(txn, i), 8);
  }

  lemma CarriedPort(port: uint16, wire: uint16, xored: bool)
    ensures (if xored then IsXor(port, wire, 0x2112) else port == wire)
      <==> wire == if xored then MaskedPort(port) else port
  {
    FieldSizes();
    XorExactly(port, wire, 0x2112);
    XorFacts(wire, 0x2112, 16);
    XorFacts(port, 0x2112, 16);
  }

  /** A value carries an endpoint exactly when it is the endpoint's encoding. */
  lemma CarriesExactly(v: seq<byte>, txn: TxnID, xored: bool, ep: AddrPort)
    requires Acceptable(ep)
    ensures Carries(v, txn, xored, ep) <==> v == EncodeAddress(ep, txn, xored)
  {
    var e, b := EncodeAddress(ep, txn, xored), ep.addr.b;
    if |v| == 4 + |b| {
      CarriedPort(ep.port, Be16(v[2], v[3]), xored);
      Put16Be16(v[2], v[3]);
      var v', e' := v[4..], e[4..];
      forall i | 0 <= i < |b|
        ensures (if xored then IsXor(b[i], v[4 + i], MaskByte(txn, i)) else b[i] == v[4 + i]) <==> v'[i] == e'[i]
      {
        CarriedByte(b[i], v[4 + i], txn, i, xored);
      }
      SameBytes(v, e);
    }
  }

  lemma SameBytes(v: seq<byte>, e: seq<byte>)
    requires |v| == |e| >= 4
    ensures v == e <==> v[0] == e[0] && v[1] == e[1] && v[2] == e[2] && v[3] == e[3] && v[4..] == e[4..]
  {
    FourThenRest(v);
    FourThenRest(e);
  }

  /** Bit by bit: the decoder returns an endpoint exactly when the value carries it. */
  lemma DecodesExactly(v: seq<byte>, txn: TxnID, xored: bool, ep: AddrPort)
    ensures DecodeAddress(v, txn, xored) == Ok(ep) <==> Carries(v, txn, xored, ep) && Reportable(ep)
  {
    AcceptableExactly(ep);
    if DecodeAddress(v, txn, xored) == Ok(ep) {
      EncodeDecodeAddress(v, txn, xored, ep);
    }
    if Acceptable(ep) {
      CarriesExactly(v, txn, xored, ep);
      DecodeEncodeAddress(ep, txn, xored);
    }
  }

  // ---------------------------------------------------------------- messages

  lemma PadLength(n: nat, pad: nat)
    ensures pad < 4 && (n + pad) % 4 == 0 <==> pad == Padded(n) - n
  {}

  lemma {:induction false} SpellsExactly(bs: seq<byte>, attrs: seq<Attr>)
    ensures Spells(bs, attrs) <==> WellFormed(attrs) && bs == EncodeAttrs(attrs)
    decreases |attrs|
  {
    if attrs != [] {
      var a, rest := attrs[0], attrs[1..];
      PadLength(|a.value|, |a.pad|);
      WellFormedCons(attrs);
      if Spells(bs, attrs) {
        var m := |a.value| + |a.pad|;
        SpellsExactly(bs[4 + m..], rest);
        FirstSpelled(bs, a, m);
      }
      if WellFormed(attrs) && bs == EncodeAttrs(attrs) {
        SpellsExactly(EncodeAttrs(rest), rest);
        EncodedFirst(a, EncodeAttrs(rest));
      }
    }
  }

  lemma WellFormedCons(attrs: seq<Attr>)
    requires attrs != []
    ensures WellFormed(attrs) <==>
      && |attrs[0].value| < 65536 && |attrs[0].pad| == Padded(|attrs[0].value|) - |attrs[0].value| && WellFormed(attrs[1..])
  {
    var rest := attrs[1..];
    assert forall i :: 1 <= i < |attrs| ==> attrs[i] == rest[i - 1];
    assert forall i :: 0 <= i < |rest| ==> rest[i] == attrs[i + 1];
  }

  lemma FirstSpelled(bs: seq<byte>, a: Attr, m: nat)
    requires m == |a.value| + |a.pad| && 4 + m <= |bs| && |a.value| < 65536
    requires Field(bs[0], bs[1]) == a.kind && Field(bs[2], bs[3]) == |a.value|
    requires bs[4..4 + |a.value|] == a.value && bs[4 + |a.value|..4 + m] == a.pad
    ensures bs == EncodeAttr(a) + bs[4 + m..]
  {
    var n := |a.value|;
    Put16Be16(bs[0], bs[1]);
    Put16Be16(bs[2], bs[3]);
    assert bs == [bs[0], bs[1]] + [bs[2], bs[3]] + bs[4..4 + n] + bs[4 + n..4 + m] + bs[4 + m..];
  }

  lemma EncodedFirst(a: Attr, rest: seq<byte>)
    requires |a.value| < 65536
    ensures var bs, n, m := EncodeAttr(a) + rest, |a.value|, |a.value| + |a.pad|;
      && Field(bs[0], bs[1]) == a.kind && Field(bs[2], bs[3]) == n
      && bs[4..4 + n] == a.value && bs[4 + n..4 + m] == a.pad && bs[4 + m..] == rest
  {
    var bs := EncodeAttr(a) + rest;
    assert bs == Put16(a.kind) + Put16(|a.value|) + a.value + a.pad + rest;
  }

  lemma EncodesExactly(msg: seq<byte>, txn: TxnID, attrs: seq<Attr>)
    ensures Encodes(msg, txn, attrs) <==> IsSuccess(msg, txn, attrs)
  {
    if Encodes(msg, txn, attrs) {
      var bs := EncodeAttrs(attrs);
      SpellsExactly(bs, attrs);
      assert msg[20..] == bs && msg[8..20] == txn;
    }
    if IsSuccess(msg, txn, attrs) {
      SpellsExactly(msg[20..], attrs);
      Put16Be16(msg[0], msg[1]);
      Put16Be16(msg[2], msg[3]);
      HeaderParts(msg);
    }
  }

  lemma WholeWordsBehindHeader(n: nat)
    ensures (n - 20) % 4 == 0 <==> n % 4 == 0
  {}

  /** What counts as a STUN message at all. */
  lemma RecognisedExactly(b: seq<byte>)
    ensures IsSTUN(b) <==> Recognised(b)
  {
    if |b| >= 20 {
      TopBits(b[0]);
      CookieBytes(b[4], b[5], b[6], b[7]);
      WholeWordsBehindHeader(|b|);
    }
  }

  // ---------------------------------------------------------------- main result

  lemma TellsExactly(attrs: seq<Attr>, kind: uint16, txn: TxnID, ep: AddrPort)
    requires IsAddress(kind)
    ensures Tells(attrs, kind, txn, kind == 0x0020, ep) <==> HasAddress(attrs, kind, txn, ep)
  {
    forall i | 0 <= i < |attrs| && attrs[i].kind == kind
      ensures DecodeOf(attrs[i], txn) == Ok(ep) <==> Carries(attrs[i].value, txn, kind == 0x0020, ep) && Reportable(ep)
    {
      DecodesExactly(attrs[i].value, txn, kind == 0x0020, ep);
    }
  }

  lemma SaneExactly(attrs: seq<Attr>, txn: TxnID)
    ensures Sane(attrs, txn) <==> Consistent(attrs, txn)
  {
    forall i | 0 <= i < |attrs| && IsAddress(attrs[i].kind)
      ensures DecodeOf(attrs[i], txn).Ok?
        <==> exists ep :: Carries(attrs[i].value, txn, attrs[i].kind == 0x0020, ep) && Reportable(ep)
    {
      var v, xored := attrs[i].value, attrs[i].kind == 0x0020;
      if DecodeAddress(v, txn, xored).Ok? {
        DecodesExactly(v, txn, xored, DecodeAddress(v, txn, xored).value);
      }
      if ep :| Carries(v, txn, xored, ep) && Reportable(ep) {
        DecodesExactly(v, txn, xored, ep);
      }
    }
  }

  /** The parser returns an endpoint exactly for the messages of the format that report it. */
  lemma AcceptedByFormat(msg: seq<byte>, txn: TxnID, ep: AddrPort)
    ensures Parse(msg, txn) == Ok(ep) <==> exists attrs :: IsSuccess(msg, txn, attrs) && Answers(attrs, txn, ep)
  {
    AcceptedExactly(msg, txn, ep);
    forall attrs: seq<Attr>
      ensures Encodes(msg, txn, attrs) && Consistent(attrs, txn) && Reports(attrs, txn, ep)
        <==> IsSuccess(msg, txn, attrs) && Answers(attrs, txn, ep)
    {
      EncodesExactly(msg, txn, attrs);
      SaneExactly(attrs, txn);
      TellsExactly(attrs, 0x0020, txn, ep);
      TellsExactly(attrs, 0x0001, txn, ep);
    }
  }
}
