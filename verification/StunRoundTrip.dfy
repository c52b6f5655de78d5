/** What the STUN parser accepts, stated against an encoder: a message is accepted exactly when it
    encodes a binding success whose address attributes are acceptable and not repeated. */
module StunRoundTrip {
  import opened NetAddr
  import opened StunWire
  import opened StunFormat

  // ---------------------------------------------------------------- the encoder

  predicate WellFormed(attrs: seq<Attr>) {
    forall i :: 0 <= i < |attrs| ==>
      |attrs[i].value| < 65536 && |attrs[i].pad| == Padded(|attrs[i].value|) - |attrs[i].value|
  }

  function EncodeAttr(a: Attr): (bs: seq<byte>)
    requires |a.value| < 65536
    ensures |bs| == 4 + |a.value| + |a.pad|
  {
    Put16(a.kind) + Put16(|a.value|) + a.value + a.pad
  }

  /** A padded attribute is a whole number of words, and so are two such parts together. */
  lemma WholeWords(n: nat, rest: nat)
    requires rest % 4 == 0
    ensures (4 + Padded(n) + rest) % 4 == 0
  {
    assert Padded(n) == 4 * (Padded(n) / 4) && rest == 4 * (rest / 4);
    assert 4 + Padded(n) + rest == 4 * (1 + Padded(n) / 4 + rest / 4);
  }

  function EncodeAttrs(attrs: seq<Attr>): (bs: seq<byte>)
    requires WellFormed(attrs)
    ensures |bs| % 4 == 0
  {
    if attrs == [] then []
    else
      var rest := EncodeAttrs(attrs[1..]);
      WholeWords(|attrs[0].value|, |rest|);
      EncodeAttr(attrs[0]) + rest
  }

  function EncodeMessage(kind: uint16, txn: TxnID, attrs: seq<Attr>): seq<byte>
    requires WellFormed(attrs) && |EncodeAttrs(attrs)| < 65536
  {
    Put16(kind) + Put16(|EncodeAttrs(attrs)|) + MagicBytes() + txn + EncodeAttrs(attrs)
  }

  /** The message bytes encode this transaction's binding success with these attributes. */
  ghost predicate Encodes(msg: seq<byte>, txn: TxnID, attrs: seq<Attr>) {
    && WellFormed(attrs)
    && |EncodeAttrs(attrs)| <= MAX_SIZE - HEADER_SIZE
    && msg == EncodeMessage(BINDING_SUCCESS, txn, attrs)
  }

  /** Exclusive or with a byte of the mask, given by place. */
  function MaskedByte(b: byte, txn: TxnID, i: nat): byte
    requires i < 16
  {
    FieldSizes();
    XorFacts(b, MaskByte(txn, i), 8);
    Xor(b, MaskByte(txn, i))
  }

  function MaskedPort(port: uint16): uint16 {
    FieldSizes();
    XorFacts(port, 0x2112, 16);
    Xor(port, 0x2112)
  }

  function EncodeAddress(ep: AddrPort, txn: TxnID, xored: bool): (v: seq<byte>)
    requires Acceptable(ep)
    ensures |v| == 4 + |ep.addr.b|
  {
    var b := ep.addr.b;
    [0, if ep.addr.IP4? then 1 else 2]
    + Put16(if xored then MaskedPort(ep.port) else ep.port)
    + seq(|b|, i requires 0 <= i < |b| => if xored then MaskedByte(b[i], txn, i) else b[i])
  }

  // ---------------------------------------------------------------- what a response means

  function DecodeOf(a: Attr, txn: TxnID): Result<AddrPort, StunError> {
    DecodeAddress(a.value, txn, a.kind == XOR_MAPPED_ADDRESS)
  }

  ghost predicate Has(attrs: seq<Attr>, kind: uint16) {
    exists i :: 0 <= i < |attrs| && attrs[i].kind == kind
  }

  ghost predicate HasAddress(attrs: seq<Attr>, kind: uint16, txn: TxnID, ep: AddrPort) {
    exists i :: 0 <= i < |attrs| && attrs[i].kind == kind && DecodeOf(attrs[i], txn) == Ok(ep)
  }

  /** Every address attribute decodes, and neither kind occurs twice. */
  ghost predicate Consistent(attrs: seq<Attr>, txn: TxnID) {
    && (forall i :: 0 <= i < |attrs| && IsAddressKind(attrs[i].kind) ==> DecodeOf(attrs[i], txn).Ok?)
    && (forall i, j :: 0 <= i < j < |attrs| && IsAddressKind(attrs[i].kind) ==> attrs[i].kind != attrs[j].kind)
  }

  /** XOR-MAPPED-ADDRESS wins wherever it stands; MAPPED-ADDRESS counts only without it. */
  ghost predicate Reports(attrs: seq<Attr>, txn: TxnID, ep: AddrPort) {
    || HasAddress(attrs, XOR_MAPPED_ADDRESS, txn, ep)
    || (!Has(attrs, XOR_MAPPED_ADDRESS) && HasAddress(attrs, MAPPED_ADDRESS, txn, ep))
  }

  // ---------------------------------------------------------------- address values

  /** The parser's mask is the encoder's. */
  lemma SameMask(raw: seq<byte>, txn: TxnID, xored: bool, i: nat)
    requires |raw| <= 16 && i < |raw|
    ensures Mask(txn)[i] == MaskByte(txn, i)
    ensures Unmask(raw, txn, xored)[i] == if xored then MaskedByte(raw[i], txn, i) else raw[i]
  {
    assert MagicBytes()[0] == 0x21 && MagicBytes()[1] == 0x12 && MagicBytes()[2] == 0xA4 && MagicBytes()[3] == 0x42;
  }

  lemma AddressBytes(ep: AddrPort, txn: TxnID, xored: bool)
    requires Acceptable(ep)
    ensures EncodeAddress(ep, txn, xored)[4..] == Unmask(ep.addr.b, txn, xored)
  {
    forall i | 0 <= i < |ep.addr.b|
      ensures EncodeAddress(ep, txn, xored)[4..][i] == Unmask(ep.addr.b, txn, xored)[i]
    {
      SameMask(ep.addr.b, txn, xored, i);
    }
  }

  lemma DecodeEncodeAddress(ep: AddrPort, txn: TxnID, xored: bool)
    requires Acceptable(ep)
    ensures DecodeAddress(EncodeAddress(ep, txn, xored), txn, xored) == Ok(ep)
  {
    var v := EncodeAddress(ep, txn, xored);
    AddressBytes(ep, txn, xored);
    UnmaskTwice(ep.addr.b, txn, xored);
    assert v[4..|v|] == v[4..];
    assert Be16(v[2], v[3]) == if xored then XorPort(ep.port) else ep.port;
  }

  /** What a decoded value looks like. */
  lemma DecodedParts(v: seq<byte>, txn: TxnID, xored: bool, ep: AddrPort)
    requires DecodeAddress(v, txn, xored) == Ok(ep)
    ensures Acceptable(ep) && 4 < |v| <= 20 && v[0] == 0 && v[1] == if ep.addr.IP4? then 1 else 2
    ensures ep.port == if xored then XorPort(Be16(v[2], v[3])) else Be16(v[2], v[3])
    ensures ep.addr.b == Unmask(v[4..], txn, xored)
  {
    assert v[4..|v|] == v[4..];
  }

  lemma UnmaskTwice(raw: seq<byte>, txn: TxnID, xored: bool)
    requires |raw| <= 16
    ensures Unmask(Unmask(raw, txn, xored), txn, xored) == raw
  {
    XorInvolution(raw, Mask(txn));
  }

  lemma EncodeDecodeAddress(v: seq<byte>, txn: TxnID, xored: bool, ep: AddrPort)
    requires DecodeAddress(v, txn, xored) == Ok(ep)
    ensures Acceptable(ep) && v == EncodeAddress(ep, txn, xored)
  {
    DecodedParts(v, txn, xored, ep);
    AddressBytes(ep, txn, xored);
    UnmaskTwice(v[4..], txn, xored);
    Put16Be16(v[2], v[3]);
    assert XorPort(XorPort(Be16(v[2], v[3]))) == Be16(v[2], v[3]);
    FourThenRest(v);
    FourThenRest(EncodeAddress(ep, txn, xored));
  }

  lemma FourThenRest(v: seq<byte>)
    requires |v| >= 4
    ensures v == [v[0], v[1]] + [v[2], v[3]] + v[4..]
  {}

  // ---------------------------------------------------------------- the attribute list

  /** ParseAttrs on the attribute list instead of its bytes. */
  function TakeAll(attrs: seq<Attr>, txn: TxnID, found: Found): Result<Found, StunError> {
    if attrs == [] then Ok(found)
    else
      match TakeAttr(attrs[0].kind, attrs[0].value, txn, found)
      case Err(e) => Err(e)
      case Ok(next) => TakeAll(attrs[1..], txn, next)
  }

  lemma {:induction false} ParseOfEncoding(attrs: seq<Attr>, txn: TxnID, found: Found)
    requires WellFormed(attrs)
    ensures ParseAttrs(EncodeAttrs(attrs), txn, found) == TakeAll(attrs, txn, found)
  {
    if attrs != [] {
      var a, bs, rest := attrs[0], EncodeAttrs(attrs), EncodeAttrs(attrs[1..]);
      var n := |a.value|;
      assert bs == EncodeAttr(a) + rest;
      assert Be16(bs[0], bs[1]) == a.kind && Be16(bs[2], bs[3]) == n;
      assert bs[4..4 + n] == a.value;
      assert bs[4 + Padded(n)..] == rest;
      match TakeAttr(a.kind, a.value, txn, found) {
        case Err(_) =>
        case Ok(next) => ParseOfEncoding(attrs[1..], txn, next);
      }
    }
  }

  lemma FirstAttr(bs: seq<byte>, n: nat) returns (a: Attr)
    requires 4 + Padded(n) <= |bs| && n == Be16(bs[2], bs[3])
    ensures a == Attr(Be16(bs[0], bs[1]), bs[4..4 + n], bs[4 + n..4 + Padded(n)])
    ensures bs == EncodeAttr(a) + bs[4 + Padded(n)..]
  {
    a := Attr(Be16(bs[0], bs[1]), bs[4..4 + n], bs[4 + n..4 + Padded(n)]);
    Put16Be16(bs[0], bs[1]);
    Put16Be16(bs[2], bs[3]);
    assert bs == [bs[0], bs[1]] + [bs[2], bs[3]] + bs[4..4 + n] + bs[4 + n..4 + Padded(n)] + bs[4 + Padded(n)..];
  }

  /** Any attribute bytes that do not run out of room are the encoding of some list. */
  lemma {:induction false} BytesAreAttrs(bs: seq<byte>, txn: TxnID, found: Found) returns (attrs: seq<Attr>)
    requires ParseAttrs(bs, txn, found).Ok?
    ensures WellFormed(attrs) && bs == EncodeAttrs(attrs)
    decreases |bs|
  {
    attrs := [];
    if |bs| > 0 {
      var n := Be16(bs[2], bs[3]);
      var a := FirstAttr(bs, n);
      var tail := BytesAreAttrs(bs[4 + Padded(n)..], txn, TakeAttr(a.kind, a.value, txn, found).value);
      attrs := [a] + tail;
      assert attrs[1..] == tail;
    }
  }

  /** What the fold over a list accepts, and what it leaves behind. */
  lemma {:induction false} TakeAllMeaning(attrs: seq<Attr>, txn: TxnID, found: Found)
    ensures TakeAll(attrs, txn, found).Ok? <==>
      && Consistent(attrs, txn)
      && (found.xor.Some? ==> !Has(attrs, XOR_MAPPED_ADDRESS))
      && (found.mapped.Some? ==> !Has(attrs, MAPPED_ADDRESS))
    ensures TakeAll(attrs, txn, found).Ok? ==>
      var out := TakeAll(attrs, txn, found).value;
      && (Has(attrs, XOR_MAPPED_ADDRESS) ==>
        out.xor.Some? && HasAddress(attrs, XOR_MAPPED_ADDRESS, txn, out.xor.value))
      && (!Has(attrs, XOR_MAPPED_ADDRESS) ==> out.xor == found.xor)
      && (Has(attrs, MAPPED_ADDRESS) ==>
        out.mapped.Some? && HasAddress(attrs, MAPPED_ADDRESS, txn, out.mapped.value))
      && (!Has(attrs, MAPPED_ADDRESS) ==> out.mapped == found.mapped)
    decreases |attrs|
  {
    if attrs != [] {
      var a, rest := attrs[0], attrs[1..];
      assert attrs == [a] + rest;
      HasCons(a, rest, XOR_MAPPED_ADDRESS, txn);
      HasCons(a, rest, MAPPED_ADDRESS, txn);
      ConsistentCons(a, rest, txn);
      match TakeAttr(a.kind, a.value, txn, found) {
        case Err(_) =>
        case Ok(next) => TakeAllMeaning(rest, txn, next);
      }
    }
  }

  lemma HasCons(a: Attr, rest: seq<Attr>, kind: uint16, txn: TxnID)
    ensures Has([a] + rest, kind) <==> a.kind == kind || Has(rest, kind)
    ensures forall ep :: HasAddress([a] + rest, kind, txn, ep) <==>
      (a.kind == kind && DecodeOf(a, txn) == Ok(ep)) || HasAddress(rest, kind, txn, ep)
  {
    var all := [a] + rest;
    assert all[0] == a && forall i :: 0 <= i < |rest| ==> all[i + 1] == rest[i];
    assert forall i :: 1 <= i < |all| ==> all[i] == rest[i - 1];
  }

  lemma ConsistentCons(a: Attr, rest: seq<Attr>, txn: TxnID)
    ensures Consistent([a] + rest, txn) <==>
      && Consistent(rest, txn)
      && (IsAddressKind(a.kind) ==> DecodeOf(a, txn).Ok? && !Has(rest, a.kind))
  {
    var all := [a] + rest;
    assert all[0] == a && forall i :: 0 <= i < |rest| ==> all[i + 1] == rest[i];
    assert forall i :: 1 <= i < |all| ==> all[i] == rest[i - 1];
  }

  // ---------------------------------------------------------------- main results

  lemma ParseOfMessage(msg: seq<byte>, txn: TxnID, attrs: seq<Attr>)
    requires Encodes(msg, txn, attrs)
    ensures Parse(msg, txn) ==
      match TakeAll(attrs, txn, NOTHING_FOUND)
      case Err(e) => Err(e)
      case Ok(found) => Choose(found)
  {
    assert msg[HEADER_SIZE..] == EncodeAttrs(attrs);
    assert msg[8..20] == txn;
    ParseOfEncoding(attrs, txn, NOTHING_FOUND);
  }

  /** Acceptance, both ways: the parser returns `ep` exactly for the messages that encode a
      consistent attribute list reporting `ep`. */
  lemma AcceptedExactly(msg: seq<byte>, txn: TxnID, ep: AddrPort)
    ensures Parse(msg, txn) == Ok(ep) <==>
      exists attrs :: Encodes(msg, txn, attrs) && Consistent(attrs, txn) && Reports(attrs, txn, ep)
  {
    if Parse(msg, txn) == Ok(ep) {
      var attrs := BytesAreAttrs(msg[HEADER_SIZE..], txn, NOTHING_FOUND);
      HeaderIsEncoded(msg, txn, attrs);
      ParseOfMessage(msg, txn, attrs);
      TakeAllMeaning(attrs, txn, NOTHING_FOUND);
      assert Encodes(msg, txn, attrs) && Consistent(attrs, txn) && Reports(attrs, txn, ep);
    }
    forall attrs | Encodes(msg, txn, attrs) && Consistent(attrs, txn) && Reports(attrs, txn, ep)
      ensures Parse(msg, txn) == Ok(ep)
    {
      ParseOfMessage(msg, txn, attrs);
      TakeAllMeaning(attrs, txn, NOTHING_FOUND);
      ReportUnique(attrs, txn, ep, Choose(TakeAll(attrs, txn, NOTHING_FOUND).value).value);
    }
  }

  lemma HeaderIsEncoded(msg: seq<byte>, txn: TxnID, attrs: seq<Attr>)
    requires IsSTUN(msg) && TxnIDOf(msg) == txn && Be16(msg[0], msg[1]) == BINDING_SUCCESS
    requires WellFormed(attrs) && msg[HEADER_SIZE..] == EncodeAttrs(attrs)
    ensures Encodes(msg, txn, attrs)
  {
    Put16Be16(msg[0], msg[1]);
    Put16Be16(msg[2], msg[3]);
    MagicUnique(msg[4], msg[5], msg[6], msg[7]);
    HeaderParts(msg);
  }

  lemma HeaderParts(msg: seq<byte>)
    requires |msg| >= 20
    ensures msg == [msg[0], msg[1]] + [msg[2], msg[3]] + [msg[4], msg[5], msg[6], msg[7]] + msg[8..20] + msg[20..]
  {}

  lemma ReportUnique(attrs: seq<Attr>, txn: TxnID, ep: AddrPort, ep': AddrPort)
    requires Consistent(attrs, txn) && Reports(attrs, txn, ep) && Reports(attrs, txn, ep')
    ensures ep == ep'
  {
    var kind := if Has(attrs, XOR_MAPPED_ADDRESS) then XOR_MAPPED_ADDRESS else MAPPED_ADDRESS;
    assert HasAddress(attrs, kind, txn, ep) && HasAddress(attrs, kind, txn, ep');
    var i :| 0 <= i < |attrs| && attrs[i].kind == kind && DecodeOf(attrs[i], txn) == Ok(ep);
    var j :| 0 <= j < |attrs| && attrs[j].kind == kind && DecodeOf(attrs[j], txn) == Ok(ep');
    assert !(i < j) && !(j < i);
  }

  /** The round trip: one encoded endpoint among any other attributes, in any position. */
  lemma RoundTrip(ep: AddrPort, txn: TxnID, xored: bool, before: seq<Attr>, after: seq<Attr>, msg: seq<byte>)
    requires Acceptable(ep)
    requires forall i :: 0 <= i < |before| ==> !IsAddressKind(before[i].kind)
    requires forall i :: 0 <= i < |after| ==> !IsAddressKind(after[i].kind)
    requires Encodes(msg, txn, before
      + [Attr(if xored then XOR_MAPPED_ADDRESS else MAPPED_ADDRESS, EncodeAddress(ep, txn, xored), [])] + after)
    ensures Parse(msg, txn) == Ok(ep)
  {
    var kind := if xored then XOR_MAPPED_ADDRESS else MAPPED_ADDRESS;
    var attrs := before + [Attr(kind, EncodeAddress(ep, txn, xored), [])] + after;
    DecodeEncodeAddress(ep, txn, xored);
    assert attrs[|before|].kind == kind && DecodeOf(attrs[|before|], txn) == Ok(ep);
    assert HasAddress(attrs, kind, txn, ep);
    assert Reports(attrs, txn, ep);
    assert Consistent(attrs, txn);
    AcceptedExactly(msg, txn, ep);
  }

  /** XOR wins over plain whatever the order and whatever the plain attribute says. */
  lemma XorWins(attrs: seq<Attr>, txn: TxnID, ep: AddrPort, other: AddrPort, msg: seq<byte>)
    requires Encodes(msg, txn, attrs) && Consistent(attrs, txn)
    requires HasAddress(attrs, XOR_MAPPED_ADDRESS, txn, ep)
    requires HasAddress(attrs, MAPPED_ADDRESS, txn, other)
    ensures Parse(msg, txn) == Ok(ep)
  {
    AcceptedExactly(msg, txn, ep);
  }

  /** A repeated address attribute always rejects the message. */
  lemma DuplicatesRejected(attrs: seq<Attr>, txn: TxnID, i: nat, j: nat, msg: seq<byte>)
    requires Encodes(msg, txn, attrs)
    requires i < j < |attrs| && IsAddressKind(attrs[i].kind) && attrs[i].kind == attrs[j].kind
    ensures Parse(msg, txn).Err?
  {
    ParseOfMessage(msg, txn, attrs);
    TakeAllMeaning(attrs, txn, NOTHING_FOUND);
  }

  /** The "fewer than four bytes left" branch is unreachable. */
  lemma NeverTruncatedHeader(msg: seq<byte>, txn: TxnID)
    ensures Parse(msg, txn) != Err(TruncatedAttribute)
  {
    if IsSTUN(msg) {
      AlignedNeverTruncated(msg[HEADER_SIZE..], txn, NOTHING_FOUND);
    }
  }

  lemma {:induction false} AlignedNeverTruncated(bs: seq<byte>, txn: TxnID, found: Found)
    requires |bs| % 4 == 0
    ensures ParseAttrs(bs, txn, found) != Err(TruncatedAttribute)
    decreases |bs|
  {
    if |bs| >= 4 {
      var n := Be16(bs[2], bs[3]);
      if Padded(n) + 4 <= |bs| {
        match TakeAttr(Be16(bs[0], bs[1]), bs[4..4 + n], txn, found) {
          case Err(_) =>
          case Ok(next) =>
            PaddedKeepsAlignment(n, |bs|);
            AlignedNeverTruncated(bs[4 + Padded(n)..], txn, next);
        }
      }
    }
  }

  /** Whatever the parser returns is an endpoint a peer may be sent to. */
  lemma ParsedIsAcceptable(msg: seq<byte>, txn: TxnID)
    requires Parse(msg, txn).Ok?
    ensures Acceptable(Parse(msg, txn).value)
    ensures IsSTUN(msg) && TxnIDOf(msg) == txn
  {
    var ep := Parse(msg, txn).value;
    AcceptedExactly(msg, txn, ep);
    var attrs: seq<Attr> :| Encodes(msg, txn, attrs) && Consistent(attrs, txn) && Reports(attrs, txn, ep);
    var kind := if HasAddress(attrs, XOR_MAPPED_ADDRESS, txn, ep) then XOR_MAPPED_ADDRESS else MAPPED_ADDRESS;
    var i :| 0 <= i < |attrs| && attrs[i].kind == kind && DecodeOf(attrs[i], txn) == Ok(ep);
    EncodeDecodeAddress(attrs[i].value, txn, kind == XOR_MAPPED_ADDRESS, ep);
  }

  // ---------------------------------------------------------------- requests

  /** BuildRequest, the transaction ID given: an attribute-free binding request. */
  method BuildRequest(txn: TxnID) returns (msg: array<byte>)
    ensures fresh(msg) && msg[..] == EncodeMessage(BINDING_REQUEST, txn, [])
    ensures msg[..] == [0x00, 0x01, 0x00, 0x00, 0x21, 0x12, 0xA4, 0x42] + txn
  {
    msg := new byte[HEADER_SIZE](_ => 0);
    msg[0], msg[1] := BINDING_REQUEST / 256, BINDING_REQUEST % 256;
    var magic := MagicBytes();
    forall i | 0 <= i < 4 {
      msg[4 + i] := magic[i];
    }
    forall i | 0 <= i < 12 {
      msg[8 + i] := txn[i];
    }
    assert EncodeAttrs([]) == [];
    RequestBytes(txn);
  }

  lemma RequestBytes(txn: TxnID)
    ensures EncodeMessage(BINDING_REQUEST, txn, []) == [0x00, 0x01, 0x00, 0x00, 0x21, 0x12, 0xA4, 0x42] + txn
  {
    assert Put16(0x0001) == [0x00, 0x01] && Put16(0) == [0x00, 0x00] && MagicBytes() == [0x21, 0x12, 0xA4, 0x42];
  }

  /** A request is a STUN message of its transaction and is never mistaken for a response. */
  lemma RequestIsNoResponse(txn: TxnID, other: TxnID)
    ensures IsSTUN(EncodeMessage(BINDING_REQUEST, txn, []))
    ensures TxnIDOf(EncodeMessage(BINDING_REQUEST, txn, [])) == txn
    ensures Parse(EncodeMessage(BINDING_REQUEST, txn, []), other).Err?
  {
    var msg := EncodeMessage(BINDING_REQUEST, txn, []);
    assert msg[8..20] == txn;
  }
}
