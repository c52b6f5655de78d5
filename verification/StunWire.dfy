/** The bounded STUN binding codec, internal/stunwire/stun.go: the header of section 5 of RFC 8489,
    padded attributes (section 14), MAPPED-ADDRESS and XOR-MAPPED-ADDRESS (sections 14.1, 14.2). */
module StunWire {
  import opened NetAddr

  type TxnID = t: seq<byte> | |t| == 12 witness seq(12, _ => 0)

  const HEADER_SIZE := 20
  const MAX_SIZE := 2048
  const MAGIC_COOKIE := 0x2112A442
  const BINDING_REQUEST: uint16 := 0x0001
  const BINDING_SUCCESS: uint16 := 0x0101
  const BINDING_ERROR: uint16 := 0x0111
  const MAPPED_ADDRESS: uint16 := 0x0001
  const XOR_MAPPED_ADDRESS: uint16 := 0x0020
  const PORT_MASK: uint16 := 0x2112

  datatype StunError =
    | InvalidResponse
    | TruncatedAttribute
    | TruncatedPadding
    | DuplicateAddress
    | MissingAddress
    | ShortAddress
    | BadAddressLength
    | UnknownFamily
    | InvalidEndpoint

  // ---------------------------------------------------------------- big-endian fields

  function Be16(hi: byte, lo: byte): uint16 {
    hi * 256 + lo
  }

  function Be32(b0: byte, b1: byte, b2: byte, b3: byte): nat {
    ((b0 * 256 + b1) * 256 + b2) * 256 + b3
  }

  function Put16(v: uint16): (s: seq<byte>)
    ensures |s| == 2 && Be16(s[0], s[1]) == v
  {
    [v / 256, v % 256]
  }

  lemma Put16Be16(hi: byte, lo: byte)
    ensures Put16(Be16(hi, lo)) == [hi, lo]
  {}

  function MagicBytes(): (s: seq<byte>)
    ensures |s| == 4 && Be32(s[0], s[1], s[2], s[3]) == MAGIC_COOKIE
  {
    [0x21, 0x12, 0xA4, 0x42]
  }

  lemma MagicUnique(b0: byte, b1: byte, b2: byte, b3: byte)
    requires Be32(b0, b1, b2, b3) == MAGIC_COOKIE
    ensures [b0, b1, b2, b3] == MagicBytes()
  {}

  lemma CookieBytes(b0: byte, b1: byte, b2: byte, b3: byte)
    ensures Be32(b0, b1, b2, b3) == MAGIC_COOKIE <==> b0 == 0x21 && b1 == 0x12 && b2 == 0xA4 && b3 == 0x42
  {}

  /** An attribute's value is padded to a multiple of four bytes. */
  function Padded(n: nat): (p: nat)
    ensures n <= p < n + 4 && p % 4 == 0
  {
    (n + 3) / 4 * 4
  }

  lemma PaddedKeepsAlignment(n: nat, size: nat)
    requires size % 4 == 0 && Padded(n) + 4 <= size
    ensures (size - 4 - Padded(n)) % 4 == 0
  {
    var p := Padded(n) / 4;
    assert Padded(n) == 4 * p && size == 4 * (size / 4);
    assert size - 4 - Padded(n) == 4 * (size / 4 - 1 - p);
  }

  // ---------------------------------------------------------------- recognising a message

  predicate IsSTUN(b: seq<byte>) {
    && HEADER_SIZE <= |b| <= MAX_SIZE
    && b[0] < 0x40
    && Be32(b[4], b[5], b[6], b[7]) == MAGIC_COOKIE
    && Be16(b[2], b[3]) % 4 == 0
    && HEADER_SIZE + Be16(b[2], b[3]) == |b|
  }

  function TxnIDOf(b: seq<byte>): TxnID {
    if |b| >= HEADER_SIZE then b[8..20] else seq(12, _ => 0)
  }

  // ---------------------------------------------------------------- address values

  /** The XOR mask of section 14.2: the cookie, then the transaction ID. */
  function Mask(txn: TxnID): (m: seq<byte>)
    ensures |m| == 16
  {
    MagicBytes() + txn
  }

  function XorByte(a: byte, m: byte): (r: byte)
    ensures Xor(r, m) == a
  {
    FieldSizes();
    XorFacts(a, m, 8);
    Xor(a, m)
  }

  function XorPort(p: uint16): (r: uint16)
    ensures Xor(r, PORT_MASK) == p
  {
    FieldSizes();
    XorFacts(p, PORT_MASK, 16);
    Xor(p, PORT_MASK)
  }

  function XorWith(s: seq<byte>, mask: seq<byte>): (r: seq<byte>)
    requires |s| <= |mask|
    ensures |r| == |s|
  {
    seq(|s|, i requires 0 <= i < |s| => XorByte(s[i], mask[i]))
  }

  lemma XorInvolution(s: seq<byte>, mask: seq<byte>)
    requires |s| <= |mask|
    ensures XorWith(XorWith(s, mask), mask) == s
  {
    FieldSizes();
    forall i | 0 <= i < |s| ensures XorWith(XorWith(s, mask), mask)[i] == s[i] {
      XorFacts(s[i], mask[i], 8);
    }
  }

  /** netip.Addr.IsGlobalUnicast for an address that is not 4-in-6. */
  predicate IsGlobalUnicast(a: Addr) {
    match a
    case NoAddr => false
    case IP4(b) =>
      && |b| == 4
      && b != [0, 0, 0, 0] && b != [255, 255, 255, 255]
      && b[0] != 127 && !(0xe0 <= b[0] < 0xf0) && !(b[0] == 169 && b[1] == 254)
    case IP6(b, _) =>
      && |b| == 16
      && !((forall i :: 0 <= i < 15 ==> b[i] == 0) && b[15] <= 1)
      && b[0] != 0xff && !(b[0] == 0xfe && 0x80 <= b[1] < 0xc0)
  }

  /** The endpoints that a binding response may report. */
  predicate Acceptable(ep: AddrPort) {
    && ep.port != 0
    && IsGlobalUnicast(ep.addr)
    && !Is4In6(ep.addr)
    && (ep.addr.IP6? ==> ep.addr.zone == "")
  }

  function DecodeAddress(value: seq<byte>, txn: TxnID, xored: bool): Result<AddrPort, StunError> {
    if |value| < 8 || value[0] != 0 then Err(ShortAddress)
    else
      var wire := Be16(value[2], value[3]);
      var port := if xored then XorPort(wire) else wire;
      if value[1] == 1 then
        if |value| != 8 then Err(BadAddressLength)
        else CheckEndpoint(IP4(Unmask(value[4..8], txn, xored)), port)
      else if value[1] == 2 then
        if |value| != 20 then Err(BadAddressLength)
        else CheckEndpoint(IP6(Unmask(value[4..20], txn, xored), ""), port)
      else Err(UnknownFamily)
  }

  function Unmask(raw: seq<byte>, txn: TxnID, xored: bool): (r: seq<byte>)
    requires |raw| <= 16
    ensures |r| == |raw|
  {
    if xored then XorWith(raw, Mask(txn)) else raw
  }

  function CheckEndpoint(addr: Addr, port: uint16): Result<AddrPort, StunError> {
    if port == 0 || !IsGlobalUnicast(addr) || Is4In6(addr) then Err(InvalidEndpoint)
    else Ok(AddrPort(addr, port))
  }

  /** decodeAddress: copies the raw address and unmasks it in place, byte by byte. */
  method DecodeAddressInPlace(value: seq<byte>, txn: TxnID, xored: bool)
    returns (r: Result<AddrPort, StunError>)
    ensures r == DecodeAddress(value, txn, xored)
  {
    if |value| < 8 || value[0] != 0 {
      return Err(ShortAddress);
    }
    var family := value[1];
    var port := Be16(value[2], value[3]);
    if xored {
      port := XorPort(port);
    }
    var size := if family == 1 then 4 else 16;
    if family != 1 && family != 2 {
      return Err(UnknownFamily);
    }
    if |value| != 4 + size {
      return Err(BadAddressLength);
    }
    var raw := new byte[size](i requires 0 <= i < size => value[4 + i]);
    assert raw[..] == value[4..4 + size];
    if xored {
      var mask := Mask(txn);
      for i := 0 to size
        invariant forall k :: 0 <= k < i ==> raw[k] == XorByte(value[4 + k], mask[k])
        invariant forall k :: i <= k < size ==> raw[k] == value[4 + k]
      {
        raw[i] := XorByte(raw[i], mask[i]);
      }
      assert raw[..] == XorWith(value[4..4 + size], mask);
    }
    var addr := if family == 1 then IP4(raw[..]) else IP6(raw[..], "");
    if port == 0 || !IsGlobalUnicast(addr) || Is4In6(addr) {
      return Err(InvalidEndpoint);
    }
    return Ok(AddrPort(addr, port));
  }

  // ---------------------------------------------------------------- parsing a response

  /** The two addresses found so far. */
  datatype Found = Found(mapped: Option<AddrPort>, xor: Option<AddrPort>)

  const NOTHING_FOUND := Found(None, None)

  predicate IsAddressKind(kind: uint16) {
    kind == XOR_MAPPED_ADDRESS || kind == MAPPED_ADDRESS
  }

  /** The effect of one attribute of the given kind on what was found before. */
  function TakeAttr(kind: uint16, value: seq<byte>, txn: TxnID, found: Found): Result<Found, StunError> {
    if !IsAddressKind(kind) then Ok(found)
    else
      match DecodeAddress(value, txn, kind == XOR_MAPPED_ADDRESS)
      case Err(e) => Err(e)
      case Ok(ep) =>
        if kind == XOR_MAPPED_ADDRESS then
          if found.xor.Some? then Err(DuplicateAddress) else Ok(found.(xor := Some(ep)))
        else
          if found.mapped.Some? then Err(DuplicateAddress) else Ok(found.(mapped := Some(ep)))
  }

  function ParseAttrs(bs: seq<byte>, txn: TxnID, found: Found): Result<Found, StunError>
    decreases |bs|
  {
    if |bs| == 0 then Ok(found)
    else if |bs| < 4 then Err(TruncatedAttribute)
    else
      var length := Be16(bs[2], bs[3]);
      if Padded(length) + 4 > |bs| then Err(TruncatedPadding)
      else
        match TakeAttr(Be16(bs[0], bs[1]), bs[4..4 + length], txn, found)
        case Err(e) => Err(e)
        case Ok(next) => ParseAttrs(bs[4 + Padded(length)..], txn, next)
  }

  function Choose(found: Found): Result<AddrPort, StunError> {
    if found.xor.Some? then Ok(found.xor.value)
    else if found.mapped.Some? then Ok(found.mapped.value)
    else Err(MissingAddress)
  }

  function Parse(msg: seq<byte>, txn: TxnID): Result<AddrPort, StunError> {
    if !IsSTUN(msg) || TxnIDOf(msg) != txn || Be16(msg[0], msg[1]) != BINDING_SUCCESS then Err(InvalidResponse)
    else
      match ParseAttrs(msg[HEADER_SIZE..], txn, NOTHING_FOUND)
      case Err(e) => Err(e)
      case Ok(found) => Choose(found)
  }

  /** ParseResponse: the loop that shrinks the attribute slice. */
  method ParseResponse(msg: seq<byte>, txn: TxnID) returns (r: Result<AddrPort, StunError>)
    ensures r == Parse(msg, txn)
  {
    if !IsSTUN(msg) || TxnIDOf(msg) != txn || Be16(msg[0], msg[1]) != BINDING_SUCCESS {
      return Err(InvalidResponse);
    }
    var attrs := msg[HEADER_SIZE..];
    var mapped: Option<AddrPort>, xor: Option<AddrPort> := None, None;
    ghost var whole := ParseAttrs(attrs, txn, NOTHING_FOUND);
    while |attrs| > 0
      invariant ParseAttrs(attrs, txn, Found(mapped, xor)) == whole
      decreases |attrs|
    {
      if |attrs| < 4 {
        return Err(TruncatedAttribute);
      }
      var kind := Be16(attrs[0], attrs[1]);
      var length := Be16(attrs[2], attrs[3]);
      if Padded(length) + 4 > |attrs| {
        return Err(TruncatedPadding);
      }
      if IsAddressKind(kind) {
        var value := DecodeAddressInPlace(attrs[4..4 + length], txn, kind == XOR_MAPPED_ADDRESS);
        if value.Err? {
          return Err(value.error);
        }
        if kind == XOR_MAPPED_ADDRESS {
          if xor.Some? {
            return Err(DuplicateAddress);
          }
          xor := Some(value.value);
        } else {
          if mapped.Some? {
            return Err(DuplicateAddress);
          }
          mapped := Some(value.value);
        }
      }
      attrs := attrs[4 + Padded(length)..];
    }
    if xor.Some? {
      return Ok(xor.value);
    }
    if mapped.Some? {
      return Ok(mapped.value);
    }
    return Err(MissingAddress);
  }
}
