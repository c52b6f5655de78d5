/** Route limits of the mobile configuration: validation.ServiceRoute (internal/validation/validation.go)
    and buildUAPI (mobile/uapi.go). Text parsing is a parameter. */
module ServiceRoutes {
  import opened NetAddr
  import opened NetPrefix
  import TextSearch

  const MAX_PEERS := 32
  const MAX_ROUTES := 64

  function MinBits(f: Family): nat {
    if f == FamilyIPv4 then 24 else 64
  }

  predicate IsMapped(p: Prefix) {
    p.family == FamilyIPv6 && Shift(p.addr, 32) == 0xffff
  }

  predicate IsMulticast(p: Prefix) {
    if p.family == FamilyIPv4 then Shift(p.addr, 28) == 0xe else Shift(p.addr, 120) == 0xff
  }

  predicate IsLoopback(p: Prefix) {
    if p.family == FamilyIPv4 then Shift(p.addr, 24) == 127 else p.addr == 1
  }

  predicate IsLinkLocal(p: Prefix) {
    if p.family == FamilyIPv4 then Shift(p.addr, 16) == 0xa9fe else Shift(p.addr, 118) == 0x3fa
  }

  function Masked(p: Prefix): Prefix {
    var low := Width(p.family) - p.bits;
    if low < 0 then p else p.(addr := Shift(p.addr, low) * PowerOf2(low))
  }

  /** Prefix and ServiceRoute on a parsed text; None is the parse error. */
  function ServiceRoute(parsed: Option<Prefix>): Option<Prefix> {
    if parsed.None? || !ValidPrefix(parsed.value) then None
    else
      var p := parsed.value;
      if IsMapped(p) || IsMulticast(p) || p.addr == 0 || IsLoopback(p) || IsLinkLocal(p) then None
      else if p.bits < MinBits(p.family) then None
      else Some(Masked(p))
  }

  /** The refused prefixes by the ranges that their addresses lie in. */
  predicate Refused4(n: nat) {
    n == 0 || In(n, 0x7f00_0000, 0x7fff_ffff) || In(n, 0xa9fe_0000, 0xa9fe_ffff) || In(n, 0xe000_0000, 0xefff_ffff)
  }

  predicate Refused6(n: nat) {
    || In(n, 0, 1) || In(n, 0xffff_0000_0000, 0xffff_ffff_ffff)
    || In(n, 0xfe80_0000_0000_0000_0000_0000_0000_0000, 0xfebf_ffff_ffff_ffff_ffff_ffff_ffff_ffff)
    || In(n, 0xff00_0000_0000_0000_0000_0000_0000_0000, 0xffff_ffff_ffff_ffff_ffff_ffff_ffff_ffff)
  }

  lemma RangesOf4(n: nat)
    ensures Shift(n, 28) == 0xe <==> In(n, 0xe000_0000, 0xefff_ffff)
    ensures Shift(n, 24) == 127 <==> In(n, 0x7f00_0000, 0x7fff_ffff)
    ensures Shift(n, 16) == 0xa9fe <==> In(n, 0xa9fe_0000, 0xa9fe_ffff)
  {
    Powers();
    ShiftRange(n, 28, 0xe);
    ShiftRange(n, 24, 127);
    ShiftRange(n, 16, 0xa9fe);
  }

  lemma RangesOf6(n: nat)
    ensures Shift(n, 120) == 0xff
      <==> In(n, 0xff00_0000_0000_0000_0000_0000_0000_0000, 0xffff_ffff_ffff_ffff_ffff_ffff_ffff_ffff)
    ensures Shift(n, 118) == 0x3fa
      <==> In(n, 0xfe80_0000_0000_0000_0000_0000_0000_0000, 0xfebf_ffff_ffff_ffff_ffff_ffff_ffff_ffff)
    ensures Shift(n, 32) == 0xffff <==> In(n, 0xffff_0000_0000, 0xffff_ffff_ffff)
  {
    Powers();
    LargePowers();
    ShiftRange(n, 120, 0xff);
    ShiftRange(n, 118, 0x3fa);
    ShiftRange(n, 32, 0xffff);
  }

  /** Accepted are exactly /24 and narrower outside the refused IPv4 ranges, and /64 and narrower outside
      the refused IPv6 ranges. */
  lemma ServiceRouteExactly(p: Prefix)
    requires ValidPrefix(p)
    ensures ServiceRoute(Some(p)).Some? <==>
      if p.family == FamilyIPv4 then p.bits >= 24 && !Refused4(p.addr) else p.bits >= 64 && !Refused6(p.addr)
  {
    if p.family == FamilyIPv4 {
      RangesOf4(p.addr);
    } else {
      RangesOf6(p.addr);
    }
  }

  /** The route starts at the first address of its 2^low, the one without low bits. */
  lemma ServiceRouteIsMasked(p: Prefix, low: nat)
    requires ValidPrefix(p) && low == Width(p.family) - p.bits && ServiceRoute(Some(p)).Some?
    ensures
      var r := ServiceRoute(Some(p)).value;
      && r.family == p.family && r.bits == p.bits
      && r.addr <= p.addr < r.addr + PowerOf2(low) && r.addr == Shift(r.addr, low) * PowerOf2(low)
  {
    ShiftRange(p.addr, low, Shift(p.addr, low));
    ShiftOfMultiple(Shift(p.addr, low), low);
  }

  /** Masking changes no membership. */
  lemma MaskedContains(p: Prefix, family: Family, a: nat)
    requires ValidPrefix(p)
    ensures Contains(Masked(p), family, a) <==> Contains(p, family, a)
  {
    ShiftOfMultiple(Shift(p.addr, Width(p.family) - p.bits), Width(p.family) - p.bits);
  }

  // ---------------------------------------------------------------- buildUAPI

  type Key = seq<byte>

  /** Parsers that buildUAPI calls on configuration text. */
  datatype Parsers = Parsers(
    privateKey: string -> Option<Key>,
    publicKey: string -> Option<Key>,
    endpoint: string -> Option<AddrPort>,
    route: string -> Option<Prefix>)

  /** With validation.ServiceRoute as the parser of routes. */
  ghost predicate ServiceRoutesOnly(parse: Parsers, prefix: string -> Option<Prefix>) {
    forall text :: parse.route(text) == ServiceRoute(prefix(text))
  }

  datatype PeerConfig = PeerConfig(
    publicKey: string, presharedKey: string, endpoint: string, keepalive: int, allowedIPs: seq<string>)

  datatype TunnelConfig = TunnelConfig(privateKey: string, listenPort: int, peers: seq<PeerConfig>)

  /** What one peer section says, and the whole configuration. */
  datatype PeerSection = PeerSection(
    key: Key, presharedKey: Option<Key>, endpoint: Option<AddrPort>, keepalive: int, routes: seq<Prefix>)

  datatype Uapi = Uapi(privateKey: Key, listenPort: int, peers: seq<PeerSection>)

  predicate GoodPeer(p: PeerConfig, parse: Parsers) {
    && parse.publicKey(p.publicKey).Some?
    && 0 <= p.keepalive <= 65535 && |p.allowedIPs| <= MAX_ROUTES
    && (p.presharedKey != "" ==> parse.privateKey(p.presharedKey).Some?)
    && (p.endpoint != "" ==> parse.endpoint(p.endpoint).Some?)
    && (forall i :: 0 <= i < |p.allowedIPs| ==> parse.route(p.allowedIPs[i]).Some?)
  }

  ghost predicate DistinctKeys(peers: seq<PeerConfig>, parse: Parsers) {
    forall i, j :: 0 <= i < j < |peers| ==> parse.publicKey(peers[i].publicKey) != parse.publicKey(peers[j].publicKey)
  }

  ghost predicate Accepted(cfg: TunnelConfig, parse: Parsers) {
    && 0 <= cfg.listenPort <= 65535 && |cfg.peers| <= MAX_PEERS
    && parse.privateKey(cfg.privateKey).Some? && GoodPeers(cfg.peers, parse)
  }

  /** The limits in numbers. */
  lemma LimitsExactly(cfg: TunnelConfig, parse: Parsers)
    ensures Accepted(cfg, parse) <==>
      && 0 <= cfg.listenPort <= 65535 && |cfg.peers| <= 32 && parse.privateKey(cfg.privateKey).Some?
      && (forall i :: 0 <= i < |cfg.peers| ==> WithinLimits(cfg.peers[i]) && ParsesWell(cfg.peers[i], parse))
      && (forall i, j :: 0 <= i < j < |cfg.peers| ==>
        parse.publicKey(cfg.peers[i].publicKey) != parse.publicKey(cfg.peers[j].publicKey))
  {}

  predicate WithinLimits(p: PeerConfig) {
    0 <= p.keepalive <= 65535 && |p.allowedIPs| <= 64
  }

  predicate ParsesWell(p: PeerConfig, parse: Parsers) {
    && parse.publicKey(p.publicKey).Some?
    && (p.presharedKey == "" || parse.privateKey(p.presharedKey).Some?)
    && (p.endpoint == "" || parse.endpoint(p.endpoint).Some?)
    && (forall i :: 0 <= i < |p.allowedIPs| ==> parse.route(p.allowedIPs[i]).Some?)
  }

  function Routes(texts: seq<string>, parse: Parsers): (routes: seq<Prefix>)
    requires forall i :: 0 <= i < |texts| ==> parse.route(texts[i]).Some?
    ensures |routes| == |texts|
  {
    seq(|texts|, i requires 0 <= i < |texts| => parse.route(texts[i]).value)
  }

  function Section(p: PeerConfig, parse: Parsers): PeerSection
    requires GoodPeer(p, parse)
  {
    PeerSection(
      parse.publicKey(p.publicKey).value,
      if p.presharedKey == "" then None else parse.privateKey(p.presharedKey),
      if p.endpoint == "" then None else parse.endpoint(p.endpoint),
      p.keepalive,
      Routes(p.allowedIPs, parse))
  }

  // ---------------------------------------------------------------- the text

  /** One line of the configuration protocol. */
  datatype Setting =
    | PrivateKey(key: Key)
    | ListenPort(port: int)
    | ReplacePeers
    | PublicKey(key: Key)
    | PresharedKey(key: Key)
    | Endpoint(endpoint: AddrPort)
    | Keepalive(seconds: int)
    | ReplaceAllowedIPs
    | AllowedIP(route: Prefix)

  function RouteSettings(routes: seq<Prefix>): (b: seq<Setting>)
    ensures |b| == |routes|
  {
    seq(|routes|, i requires 0 <= i < |routes| => AllowedIP(routes[i]))
  }

  function SectionSettings(p: PeerSection): seq<Setting> {
    [PublicKey(p.key)]
    + (if p.presharedKey.Some? then [PresharedKey(p.presharedKey.value)] else [])
    + (if p.endpoint.Some? then [Endpoint(p.endpoint.value)] else [])
    + (if p.keepalive > 0 then [Keepalive(p.keepalive)] else [])
    + [ReplaceAllowedIPs]
    + RouteSettings(p.routes)
  }

  function PeerSettings(peers: seq<PeerSection>): seq<Setting> {
    if peers == [] then [] else PeerSettings(peers[..|peers| - 1]) + SectionSettings(peers[|peers| - 1])
  }

  function Settings(u: Uapi): seq<Setting> {
    [PrivateKey(u.privateKey)] + (if u.listenPort > 0 then [ListenPort(u.listenPort)] else []) + [ReplacePeers]
    + PeerSettings(u.peers)
  }

  /** Formatting of keys, numbers, endpoints and prefixes. */
  datatype Formats = Formats(
    hex: Key -> string, number: int -> string, endpoint: AddrPort -> string, prefix: Prefix -> string)

  function Line(x: Setting, format: Formats): string {
    match x
    case PrivateKey(key) => "private_key=" + format.hex(key)
    case ListenPort(port) => "listen_port=" + format.number(port)
    case ReplacePeers => "replace_peers=true"
    case PublicKey(key) => "public_key=" + format.hex(key)
    case PresharedKey(key) => "preshared_key=" + format.hex(key)
    case Endpoint(ep) => "endpoint=" + format.endpoint(ep)
    case Keepalive(seconds) => "persistent_keepalive_interval=" + format.number(seconds)
    case ReplaceAllowedIPs => "replace_allowed_ips=true"
    case AllowedIP(route) => "allowed_ip=" + format.prefix(route)
  }

  function LinesFor(b: seq<Setting>, format: Formats): seq<string> {
    if b == [] then [] else [Line(b[0], format)] + LinesFor(b[1..], format)
  }

  function Text(b: seq<Setting>, format: Formats): string {
    TextSearch.Join(LinesFor(b, format))
  }

  // ---------------------------------------------------------------- the builder

  /** The route lines of one peer, or None at the first route refused. */
  method BuildRoutes(texts: seq<string>, parse: Parsers) returns (r: Option<seq<Setting>>)
    ensures r.Some? <==> forall i :: 0 <= i < |texts| ==> parse.route(texts[i]).Some?
    ensures r.Some? ==> r.value == RouteSettings(Routes(texts, parse))
  {
    var b: seq<Setting> := [];
    for i := 0 to |texts|
      invariant |b| == i
      invariant forall k :: 0 <= k < i ==> parse.route(texts[k]).Some?
      invariant forall k :: 0 <= k < i ==> b[k] == AllowedIP(parse.route(texts[k]).value)
    {
      var route := parse.route(texts[i]);
      if route.None? {
        return None;
      }
      b := b + [AllowedIP(route.value)];
    }
    return Some(b);
  }

  /** The lines of one peer's section. */
  method BuildPeer(p: PeerConfig, parse: Parsers) returns (r: Option<seq<Setting>>)
    ensures r.Some? <==> GoodPeer(p, parse)
    ensures r.Some? ==> r.value == SectionSettings(Section(p, parse))
  {
    var pub := parse.publicKey(p.publicKey);
    if pub.None? || p.keepalive < 0 || p.keepalive > 65535 || |p.allowedIPs| > MAX_ROUTES {
      return None;
    }
    var b := [PublicKey(pub.value)];
    if p.presharedKey != "" {
      var psk := parse.privateKey(p.presharedKey);
      if psk.None? {
        return None;
      }
      b := b + [PresharedKey(psk.value)];
    }
    if p.endpoint != "" {
      var ep := parse.endpoint(p.endpoint);
      if ep.None? {
        return None;
      }
      b := b + [Endpoint(ep.value)];
    }
    if p.keepalive > 0 {
      b := b + [Keepalive(p.keepalive)];
    }
    b := b + [ReplaceAllowedIPs];
    var routes := BuildRoutes(p.allowedIPs, parse);
    if routes.None? {
      return None;
    }
    return Some(b + routes.value);
  }

  ghost predicate GoodPeers(peers: seq<PeerConfig>, parse: Parsers) {
    (forall i :: 0 <= i < |peers| ==> GoodPeer(peers[i], parse)) && DistinctKeys(peers, parse)
  }

  ghost function Sections(peers: seq<PeerConfig>, parse: Parsers): (sections: seq<PeerSection>)
    requires forall i :: 0 <= i < |peers| ==> GoodPeer(peers[i], parse)
    ensures |sections| == |peers| && forall i :: 0 <= i < |peers| ==> sections[i] == Section(peers[i], parse)
  {
    seq(|peers|, i requires 0 <= i < |peers| => Section(peers[i], parse))
  }

  /** The sections of all peers, with the set of keys seen. */
  method BuildPeers(peers: seq<PeerConfig>, parse: Parsers) returns (r: Option<seq<Setting>>)
    ensures r.Some? <==> GoodPeers(peers, parse)
    ensures r.Some? ==> r.value == PeerSettings(Sections(peers, parse))
  {
    var b: seq<Setting> := [];
    var seen: set<Key> := {};
    for i := 0 to |peers|
      invariant forall k :: 0 <= k < i ==> GoodPeer(peers[k], parse)
      invariant DistinctKeys(peers[..i], parse)
      invariant b == PeerSettings(Sections(peers[..i], parse))
      invariant forall key :: key in seen <==> Some(key) in KeysOf(peers[..i], parse)
    {
      var pub := parse.publicKey(peers[i].publicKey);
      if pub.None? {
        return None;
      }
      if pub.value in seen {
        Repeated(peers, i, parse);
        return None;
      }
      var section := BuildPeer(peers[i], parse);
      if section.None? {
        return None;
      }
      seen := seen + {pub.value};
      b := b + section.value;
      OneMorePeer(peers, i, parse);
    }
    assert peers[..|peers|] == peers;
    return Some(b);
  }

  function KeysOf(peers: seq<PeerConfig>, parse: Parsers): set<Option<Key>> {
    if peers == [] then {}
    else KeysOf(peers[..|peers| - 1], parse) + {parse.publicKey(peers[|peers| - 1].publicKey)}
  }

  lemma {:induction false} KeysOfPeer(peers: seq<PeerConfig>, parse: Parsers, key: Option<Key>)
    ensures key in KeysOf(peers, parse) <==> exists k :: 0 <= k < |peers| && parse.publicKey(peers[k].publicKey) == key
    decreases |peers|
  {
    if peers != [] {
      var front := peers[..|peers| - 1];
      KeysOfPeer(front, parse, key);
      assert forall k :: 0 <= k < |front| ==> front[k] == peers[k];
    }
  }

  lemma Repeated(peers: seq<PeerConfig>, i: nat, parse: Parsers)
    requires i < |peers| && parse.publicKey(peers[i].publicKey) in KeysOf(peers[..i], parse)
    ensures !DistinctKeys(peers, parse)
  {
    KeysOfPeer(peers[..i], parse, parse.publicKey(peers[i].publicKey));
    var k :| 0 <= k < i && parse.publicKey(peers[..i][k].publicKey) == parse.publicKey(peers[i].publicKey);
    assert peers[..i][k] == peers[k];
  }

  lemma OneMorePeer(peers: seq<PeerConfig>, i: nat, parse: Parsers)
    requires i < |peers| && (forall k :: 0 <= k <= i ==> GoodPeer(peers[k], parse)) && DistinctKeys(peers[..i], parse)
    requires parse.publicKey(peers[i].publicKey) !in KeysOf(peers[..i], parse)
    ensures DistinctKeys(peers[..i + 1], parse)
    ensures KeysOf(peers[..i + 1], parse) == KeysOf(peers[..i], parse) + {parse.publicKey(peers[i].publicKey)}
    ensures PeerSettings(Sections(peers[..i + 1], parse))
         == PeerSettings(Sections(peers[..i], parse)) + SectionSettings(Section(peers[i], parse))
  {
    assert peers[..i + 1][..i] == peers[..i];
    assert Sections(peers[..i + 1], parse)[..i] == Sections(peers[..i], parse);
    KeysOfPeer(peers[..i], parse, parse.publicKey(peers[i].publicKey));
    var p, q := peers[..i], peers[..i + 1];
    forall k, j | 0 <= k < j < |q| ensures parse.publicKey(q[k].publicKey) != parse.publicKey(q[j].publicKey) {
      assert p[k] == q[k];
      if j < i {
        assert p[j] == q[j];
      }
    }
  }

  /** buildUAPI: renders exactly the accepted configurations. The builder is the list of lines written,
      and each write is one line. */
  method BuildUAPI(cfg: TunnelConfig, parse: Parsers, format: Formats) returns (r: Option<string>)
    ensures r.Some? <==> Accepted(cfg, parse)
    ensures r.Some? ==> r.value == Text(Settings(Rendered(cfg, parse)), format)
  {
    if cfg.listenPort < 0 || cfg.listenPort > 65535 || |cfg.peers| > MAX_PEERS {
      return None;
    }
    var priv := parse.privateKey(cfg.privateKey);
    if priv.None? {
      return None;
    }
    var b := [PrivateKey(priv.value)];
    if cfg.listenPort > 0 {
      b := b + [ListenPort(cfg.listenPort)];
    }
    b := b + [ReplacePeers];
    var peers := BuildPeers(cfg.peers, parse);
    if peers.None? {
      return None;
    }
    assert b + peers.value == Settings(Rendered(cfg, parse));
    return Some(Text(b + peers.value, format));
  }

  ghost function Rendered(cfg: TunnelConfig, parse: Parsers): Uapi
    requires Accepted(cfg, parse)
  {
    Uapi(parse.privateKey(cfg.privateKey).value, cfg.listenPort, Sections(cfg.peers, parse))
  }

  // ---------------------------------------------------------------- reading the text back

  /** Readers of the four kinds of values. */
  datatype Readers = Readers(
    hex: string -> Key, number: string -> int, endpoint: string -> AddrPort, prefix: string -> Prefix)

  /** The readers undo the formats, and no formatted value holds a line end. */
  ghost predicate Undoes(read: Readers, format: Formats) {
    && (forall k :: TextSearch.OneLine(format.hex(k)) && read.hex(format.hex(k)) == k)
    && (forall n :: TextSearch.OneLine(format.number(n)) && read.number(format.number(n)) == n)
    && (forall e :: TextSearch.OneLine(format.endpoint(e)) && read.endpoint(format.endpoint(e)) == e)
    && (forall p :: TextSearch.OneLine(format.prefix(p)) && read.prefix(format.prefix(p)) == p)
  }

  /** The device's side: a name, an equals sign, a value. */
  function Understand(line: string, read: Readers): Option<Setting> {
    match TextSearch.Cut(line, '=')
    case None => None
    case Some((name, value)) => Assigned(name, value, read)
  }

  function Assigned(name: string, value: string, read: Readers): Option<Setting> {
    if name == "private_key" then Some(PrivateKey(read.hex(value)))
    else if name == "listen_port" then Some(ListenPort(read.number(value)))
    else if name == "replace_peers" then (if value == "true" then Some(ReplacePeers) else None)
    else if name == "public_key" then Some(PublicKey(read.hex(value)))
    else if name == "preshared_key" then Some(PresharedKey(read.hex(value)))
    else if name == "endpoint" then Some(Endpoint(read.endpoint(value)))
    else if name == "persistent_keepalive_interval" then Some(Keepalive(read.number(value)))
    else if name == "replace_allowed_ips" then (if value == "true" then Some(ReplaceAllowedIPs) else None)
    else if name == "allowed_ip" then Some(AllowedIP(read.prefix(value)))
    else None
  }

  function UnderstandAll(lines: seq<string>, read: Readers): seq<Option<Setting>> {
    if lines == [] then [] else [Understand(lines[0], read)] + UnderstandAll(lines[1..], read)
  }

  function AllSome(b: seq<Setting>): seq<Option<Setting>> {
    if b == [] then [] else [Some(b[0])] + AllSome(b[1..])
  }

  lemma Named(name: string, value: string)
    requires '=' !in name
    ensures TextSearch.Cut(name + "=" + value, '=') == Some((name, value))
  {
    TextSearch.CutAt(name, '=', value);
    assert name + "=" + value == name + ['='] + value;
  }

  function NameOf(x: Setting): string {
    match x
    case PrivateKey(_) => "private_key"
    case ListenPort(_) => "listen_port"
    case ReplacePeers => "replace_peers"
    case PublicKey(_) => "public_key"
    case PresharedKey(_) => "preshared_key"
    case Endpoint(_) => "endpoint"
    case Keepalive(_) => "persistent_keepalive_interval"
    case ReplaceAllowedIPs => "replace_allowed_ips"
    case AllowedIP(_) => "allowed_ip"
  }

  function ValueOf(x: Setting, format: Formats): string {
    match x
    case PrivateKey(key) => format.hex(key)
    case ListenPort(port) => format.number(port)
    case ReplacePeers => "true"
    case PublicKey(key) => format.hex(key)
    case PresharedKey(key) => format.hex(key)
    case Endpoint(ep) => format.endpoint(ep)
    case Keepalive(seconds) => format.number(seconds)
    case ReplaceAllowedIPs => "true"
    case AllowedIP(route) => format.prefix(route)
  }

  lemma LineParts(x: Setting, format: Formats)
    ensures Line(x, format) == NameOf(x) + "=" + ValueOf(x, format)
  {}

  lemma PlainName(x: Setting)
    ensures '=' !in NameOf(x)
  {}

  lemma NameIsOneLine(x: Setting)
    ensures TextSearch.OneLine(NameOf(x))
  {}

  lemma ValueIsOneLine(x: Setting, format: Formats, read: Readers)
    requires Undoes(read, format)
    ensures TextSearch.OneLine(ValueOf(x, format))
  {}

  /** A name of one kind is not a name of another. */
  lemma KeyNames(value: string, read: Readers)
    ensures Assigned("private_key", value, read) == Some(PrivateKey(read.hex(value)))
    ensures Assigned("public_key", value, read) == Some(PublicKey(read.hex(value)))
    ensures Assigned("preshared_key", value, read) == Some(PresharedKey(read.hex(value)))
  {}

  lemma OtherNames(value: string, read: Readers)
    ensures Assigned("listen_port", value, read) == Some(ListenPort(read.number(value)))
    ensures Assigned("endpoint", value, read) == Some(Endpoint(read.endpoint(value)))
    ensures Assigned("persistent_keepalive_interval", value, read) == Some(Keepalive(read.number(value)))
  {}

  lemma RouteNames(value: string, read: Readers)
    ensures Assigned("replace_peers", "true", read) == Some(ReplacePeers)
    ensures Assigned("replace_allowed_ips", "true", read) == Some(ReplaceAllowedIPs)
    ensures Assigned("allowed_ip", value, read) == Some(AllowedIP(read.prefix(value)))
  {}

  lemma PartsAreUnderstood(x: Setting, format: Formats, read: Readers)
    requires Undoes(read, format)
    ensures Assigned(NameOf(x), ValueOf(x, format), read) == Some(x)
  {
    KeyNames(ValueOf(x, format), read);
    OtherNames(ValueOf(x, format), read);
    RouteNames(ValueOf(x, format), read);
  }

  lemma LineIsUnderstood(x: Setting, format: Formats, read: Readers)
    requires Undoes(read, format)
    ensures TextSearch.OneLine(Line(x, format)) && Understand(Line(x, format), read) == Some(x)
  {
    LineParts(x, format);
    PlainName(x);
    NameIsOneLine(x);
    ValueIsOneLine(x, format, read);
    PartsAreUnderstood(x, format, read);
    OneLineParts(NameOf(x), ValueOf(x, format));
    Named(NameOf(x), ValueOf(x, format));
  }

  lemma OneLineParts(name: string, value: string)
    requires TextSearch.OneLine(name) && TextSearch.OneLine(value)
    ensures TextSearch.OneLine(name + "=" + value)
  {}

  lemma {:induction false} LinesAreUnderstood(b: seq<Setting>, format: Formats, read: Readers)
    requires Undoes(read, format)
    ensures forall k :: 0 <= k < |LinesFor(b, format)| ==> TextSearch.OneLine(LinesFor(b, format)[k])
    ensures UnderstandAll(LinesFor(b, format), read) == AllSome(b)
    decreases |b|
  {
    if b != [] {
      LineIsUnderstood(b[0], format, read);
      LinesAreUnderstood(b[1..], format, read);
      assert LinesFor(b, format)[1..] == LinesFor(b[1..], format);
    }
  }

  /** Whatever the configuration holds, the device reads back exactly its settings, line by line: no
      value can add a line or change what another line says. */
  lemma TextReadsBack(b: seq<Setting>, format: Formats, read: Readers)
    requires Undoes(read, format)
    ensures UnderstandAll(TextSearch.LinesOf(Text(b, format)), read) == AllSome(b)
  {
    LinesAreUnderstood(b, format, read);
    TextSearch.LinesOfJoin(LinesFor(b, format), "");
    assert Text(b, format) + "" == Text(b, format);
    assert LinesFor(b, format) + TextSearch.LinesOf("") == LinesFor(b, format);
  }

  // ---------------------------------------------------------------- no assembled catch-all

  /** All routes that a rendered configuration installs. */
  function AllRoutes(sections: seq<PeerSection>): seq<Prefix> {
    if sections == [] then [] else AllRoutes(sections[..|sections| - 1]) + sections[|sections| - 1].routes
  }

  /** The routes among the settings of a text. */
  function RoutesOf(b: seq<Setting>): seq<Prefix> {
    if b == [] then []
    else RoutesOf(b[..|b| - 1]) + if b[|b| - 1].AllowedIP? then [b[|b| - 1].route] else []
  }

  lemma {:induction false} RoutesOfParts(a: seq<Setting>, b: seq<Setting>)
    ensures RoutesOf(a + b) == RoutesOf(a) + RoutesOf(b)
    decreases |b|
  {
    if b == [] {
      assert a + b == a;
    } else {
      assert (a + b)[..|a + b| - 1] == a + b[..|b| - 1];
      RoutesOfParts(a, b[..|b| - 1]);
    }
  }

  lemma {:induction false} RoutesOfRoutes(routes: seq<Prefix>)
    ensures RoutesOf(RouteSettings(routes)) == routes
    decreases |routes|
  {
    if routes != [] {
      var front := routes[..|routes| - 1];
      RoutesOfRoutes(front);
      assert RouteSettings(routes)[..|routes| - 1] == RouteSettings(front);
      assert routes == front + [routes[|routes| - 1]];
    }
  }

  lemma {:induction false} NoRoutes(b: seq<Setting>)
    requires forall k :: 0 <= k < |b| ==> !b[k].AllowedIP?
    ensures RoutesOf(b) == []
    decreases |b|
  {
    if b != [] {
      NoRoutes(b[..|b| - 1]);
    }
  }

  lemma SectionRoutes(p: PeerSection)
    ensures RoutesOf(SectionSettings(p)) == p.routes
  {
    var head := SectionSettings(p)[..|SectionSettings(p)| - |p.routes|];
    assert SectionSettings(p) == head + RouteSettings(p.routes);
    RoutesOfParts(head, RouteSettings(p.routes));
    NoRoutes(head);
    RoutesOfRoutes(p.routes);
  }

  lemma {:induction false} PeerRoutes(peers: seq<PeerSection>)
    ensures RoutesOf(PeerSettings(peers)) == AllRoutes(peers)
    decreases |peers|
  {
    if peers != [] {
      var front, last := peers[..|peers| - 1], peers[|peers| - 1];
      PeerRoutes(front);
      SectionRoutes(last);
      RoutesOfParts(PeerSettings(front), SectionSettings(last));
    }
  }

  /** The routes that the text installs are those of its sections, in order. */
  lemma TextInstallsRoutes(u: Uapi)
    ensures RoutesOf(Settings(u)) == AllRoutes(u.peers)
  {
    var head := Settings(u)[..|Settings(u)| - |PeerSettings(u.peers)|];
    assert Settings(u) == head + PeerSettings(u.peers);
    NoRoutes(head);
    PeerRoutes(u.peers);
    RoutesOfParts(head, PeerSettings(u.peers));
  }

  ghost predicate Narrow(routes: seq<Prefix>) {
    forall i :: 0 <= i < |routes| ==> routes[i].bits >= MinBits(routes[i].family)
  }

  /** Sections with narrow routes, not too many each, add up to narrow routes, not too many. */
  lemma {:induction false} AllRoutesNarrow(sections: seq<PeerSection>)
    requires forall i :: 0 <= i < |sections| ==> Narrow(sections[i].routes) && |sections[i].routes| <= MAX_ROUTES
    ensures Narrow(AllRoutes(sections)) && |AllRoutes(sections)| <= MAX_ROUTES * |sections|
    decreases |sections|
  {
    if sections != [] {
      AllRoutesNarrow(sections[..|sections| - 1]);
    }
  }

  /** The /24 or /64 blocks that routes of a family touch. */
  function Blocks(routes: seq<Prefix>, family: Family): (s: set<nat>)
    ensures |s| <= |routes|
  {
    if routes == [] then {}
    else
      var rest := Blocks(routes[..|routes| - 1], family);
      var r := routes[|routes| - 1];
      if r.family == family then rest + {Shift(r.addr, Width(family) - MinBits(family))} else rest
  }

  /** Whatever a narrow route contains lies in the block of its own address. */
  lemma {:induction false} ContainedInBlocks(routes: seq<Prefix>, i: nat, family: Family, a: nat)
    requires Narrow(routes) && i < |routes| && Contains(routes[i], family, a)
    ensures Shift(a, Width(family) - MinBits(family)) in Blocks(routes, family)
    decreases |routes|
  {
    if i == |routes| - 1 {
      ShiftAgrees(a, routes[i].addr, Width(family) - routes[i].bits, Width(family) - MinBits(family));
    } else {
      ContainedInBlocks(routes[..|routes| - 1], i, family, a);
    }
  }

  /** Among the first |s| + 1 numbers, one is missing from s. */
  lemma {:induction false} SomeNumberMissing(s: set<nat>, n: nat) returns (missing: nat)
    requires n > |s|
    ensures missing < n && missing !in s
    decreases n
  {
    if n - 1 !in s {
      missing := n - 1;
    } else {
      missing := SomeNumberMissing(s - {n - 1}, n - 1);
    }
  }

  /** The routes of any accepted configuration touch at most 32 * 64 blocks of a family, so whole
      blocks of existing addresses are left uncovered: no catch-all can be assembled. */
  lemma NoAssembledCatchAll(cfg: TunnelConfig, parse: Parsers, prefix: string -> Option<Prefix>, family: Family)
    returns (block: nat)
    requires Accepted(cfg, parse) && ServiceRoutesOnly(parse, prefix)
    ensures |Blocks(AllRoutes(Rendered(cfg, parse).peers), family)| <= 2048
    ensures block < PowerOf2(MinBits(family))
    ensures Uncovered(AllRoutes(Rendered(cfg, parse).peers), family, block)
  {
    var sections := Rendered(cfg, parse).peers;
    var routes := AllRoutes(sections);
    forall i | 0 <= i < |sections| ensures Narrow(sections[i].routes) && |sections[i].routes| <= MAX_ROUTES {
      assert sections[i] == Section(cfg.peers[i], parse) && GoodPeer(cfg.peers[i], parse);
      RoutesAreNarrow(cfg.peers[i].allowedIPs, parse, prefix);
    }
    AllRoutesNarrow(sections);
    block := SomeNumberMissing(Blocks(routes, family), MAX_PEERS * MAX_ROUTES + 1);
    EnoughBlocks(family);
    forall a, i | InBlock(family, a, block) && 0 <= i < |routes| ensures !Contains(routes[i], family, a) {
      if Contains(routes[i], family, a) {
        ContainedInBlocks(routes, i, family, a);
      }
    }
  }

  lemma RoutesAreNarrow(texts: seq<string>, parse: Parsers, prefix: string -> Option<Prefix>)
    requires ServiceRoutesOnly(parse, prefix) && forall i :: 0 <= i < |texts| ==> parse.route(texts[i]).Some?
    ensures Narrow(Routes(texts, parse))
  {
    forall i | 0 <= i < |texts| ensures Routes(texts, parse)[i].bits >= MinBits(Routes(texts, parse)[i].family) {
      assert parse.route(texts[i]) == ServiceRoute(prefix(texts[i]));
    }
  }

  predicate InBlock(family: Family, a: nat, block: nat) {
    Shift(a, Width(family) - MinBits(family)) == block
  }

  /** No route contains any address of the block. */
  ghost predicate Uncovered(routes: seq<Prefix>, family: Family, block: nat) {
    forall a, i :: InBlock(family, a, block) && 0 <= i < |routes| ==> !Contains(routes[i], family, a)
  }

  /** Such a block is not empty: it holds an address of the family. */
  lemma BlockHoldsAddress(family: Family, block: nat) returns (a: nat)
    requires block < PowerOf2(MinBits(family))
    ensures a < PowerOf2(Width(family)) && InBlock(family, a, block)
  {
    var low := Width(family) - MinBits(family);
    a := block * PowerOf2(low);
    ShiftOfMultiple(block, low);
    PowerSum(MinBits(family), low);
    ProductBelow(block, PowerOf2(MinBits(family)), PowerOf2(low));
  }

  lemma ProductBelow(x: nat, m: nat, q: nat)
    requires x < m && q > 0
    ensures x * q < m * q
  {}

  lemma EnoughBlocks(family: Family)
    ensures MAX_PEERS * MAX_ROUTES < PowerOf2(MinBits(family))
  {
    FieldSizes();
    PowerSum(16, MinBits(family) - 16);
    PowerSum(8, MinBits(family) - 24);
    assert PowerOf2(MinBits(family) - 24) >= 1;
  }
}
