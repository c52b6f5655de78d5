/** Server.Edited (internal/linuxprofile/server.go): enrolment and revocation of a profile as an edit
    of the WireGuard configuration text and of the discovery peers map. */
module ServerEdit {
  import opened NetAddr
  import opened NetPrefix
  import opened TextSearch
  import opened RouteText

  /** netip.ParsePrefix. */
  type Parser = string -> Option<Prefix>

  /** `ip` is the parsed address; `policyOk` stands for the checks of Profile.Validate on fields that an
      edit does not use. */
  datatype Profile = Profile(
    name: string, publicKey: string, presharedKey: string, address: string, ip: nat,
    serverPublicKey: string, policyOk: bool)

  /** A decoded YAML value: a mapping with text values, or anything else. */
  datatype Yaml = Mapping(fields: map<string, string>) | Other

  type Peers = map<string, Yaml>

  datatype Error = InvalidProfile | OtherServer | Inconsistent | OtherIdentity | AddressCollision | KnownIdentity

  // ---------------------------------------------------------------- profiles

  predicate IsLower(c: char) {
    'a' <= c <= 'z'
  }

  predicate IsDigit(c: char) {
    '0' <= c <= '9'
  }

  /** ^[a-z][a-z0-9-]{0,31}$ */
  predicate IsLabel(name: string) {
    && 1 <= |name| <= 32 && IsLower(name[0])
    && forall k :: 0 <= k < |name| ==> IsLower(name[k]) || IsDigit(name[k]) || name[k] == '-'
  }

  /** Base64 of 32 bytes. */
  predicate IsKeyText(key: string) {
    && |key| == 44
    && forall k :: 0 <= k < |key| ==>
      IsLower(key[k]) || 'A' <= key[k] <= 'Z' || IsDigit(key[k]) || key[k] == '+' || key[k] == '/' || key[k] == '='
  }

  /** The only characters ParsePrefix accepts in an IPv4 prefix. */
  predicate IsAddressText(text: string) {
    text != "" && forall k :: 0 <= k < |text| ==> IsDigit(text[k]) || text[k] == '.' || text[k] == '/'
  }

  predicate Validate(p: Profile, parse: Parser) {
    && p.policyOk && IsLabel(p.name) && IsKeyText(p.publicKey) && IsKeyText(p.presharedKey)
    && IsAddressText(p.address) && parse(p.address) == Some(Prefix(FamilyIPv4, p.ip, 32))
  }

  // ---------------------------------------------------------------- the managed block

  const BEGIN := "# BEGIN LINUX "
  const END := "# END LINUX "

  function Begin(name: string): string {
    BEGIN + name + "\n"
  }

  function End(name: string): string {
    END + name + "\n"
  }

  function KeyLine(p: Profile): string {
    "PublicKey = " + p.publicKey + "\n"
  }

  function SecretLine(p: Profile): string {
    "PresharedKey = " + p.presharedKey + "\n"
  }

  function AddressLine(p: Profile): string {
    KEYWORD + " = " + p.address + "\n"
  }

  function Body(p: Profile): string {
    "[Peer]\n" + KeyLine(p) + SecretLine(p) + AddressLine(p) + "PersistentKeepalive = 25\n"
  }

  function Block(p: Profile): string {
    Begin(p.name) + Body(p) + End(p.name)
  }

  function PeerName(p: Profile): string {
    "linux-" + p.name
  }

  function Entry(p: Profile): Yaml {
    Mapping(map["public_key" := p.publicKey, "plugin" := "dht", "protocol" := "ipv4"])
  }

  // ---------------------------------------------------------------- the edit

  /** A route text that does not parse, or that contains the address. */
  predicate Blocks(text: string, ip: nat, parse: Parser) {
    var prefix := parse(TrimSpace(text));
    prefix.None? || NetPrefix.Contains(prefix.value, FamilyIPv4, ip)
  }

  ghost predicate Collides(wg: string, ip: nat, parse: Parser) {
    exists i, j :: 0 <= i < |Captures(wg)| && 0 <= j < |SplitComma(Captures(wg)[i])|
      && Blocks(SplitComma(Captures(wg)[i])[j], ip, parse)
  }

  predicate Managed(wg: string, peers: Peers, p: Profile) {
    Index(wg, Begin(p.name)) >= 0 || Index(wg, End(p.name)) >= 0 || PeerName(p) in peers
  }

  predicate Consistent(wg: string, peers: Peers, p: Profile) {
    var start, finish := Index(wg, Begin(p.name)), Index(wg, End(p.name));
    0 <= start <= finish && PeerName(p) in peers && Count(wg, Begin(p.name)) == 1 && Count(wg, End(p.name)) == 1
  }

  /** Both records of the managed peer carry the profile's identity. */
  predicate SameIdentity(wg: string, peers: Peers, p: Profile)
    requires Consistent(wg, peers, p)
  {
    var start, finish := Index(wg, Begin(p.name)), Index(wg, End(p.name));
    var entry := peers[PeerName(p)];
    && entry.Mapping? && "public_key" in entry.fields && entry.fields["public_key"] == p.publicKey
    && TextSearch.Contains(wg[start..finish], KeyLine(p))
  }

  /** The configuration without the profile's own block. */
  function Withdrawn(wg: string, peers: Peers, p: Profile): Result<string, Error> {
    if !Managed(wg, peers, p) then Ok(wg)
    else if !Consistent(wg, peers, p) then Err(Inconsistent)
    else if !SameIdentity(wg, peers, p) then Err(OtherIdentity)
    else Ok(wg[..Index(wg, Begin(p.name))] + wg[Index(wg, End(p.name)) + |End(p.name)|..])
  }

  /** Result and discovery map of one edit. The map is shared with the caller, so it may have lost the
      peer's entry even when the edit fails. */
  ghost function Edited(wg: string, peers: Peers, serverKey: string, p: Profile, revoke: bool, parse: Parser)
    : (Result<string, Error>, Peers)
  {
    if !Validate(p, parse) then (Err(InvalidProfile), peers)
    else if p.serverPublicKey != serverKey then (Err(OtherServer), peers)
    else
      match Withdrawn(wg, peers, p)
      case Err(e) => (Err(e), peers)
      case Ok(rest) =>
        var others := peers - {PeerName(p)};
        if revoke then (Ok(rest), others)
        else if Collides(rest, p.ip, parse) then (Err(AddressCollision), others)
        else if TextSearch.Contains(rest, p.publicKey) then (Err(KnownIdentity), others)
        else (Ok(TrimRight(rest) + "\n\n" + Block(p)), others[PeerName(p) := Entry(p)])
  }

  /** The route lines, one by one, and the routes on each. */
  method CollisionCheck(wg: string, ip: nat, parse: Parser) returns (collides: bool)
    ensures collides <==> Collides(wg, ip, parse)
  {
    var lines := Captures(wg);
    for i := 0 to |lines|
      invariant forall k, j :: 0 <= k < i && 0 <= j < |SplitComma(lines[k])| ==> !Blocks(SplitComma(lines[k])[j], ip, parse)
    {
      var parts := SplitComma(lines[i]);
      for j := 0 to |parts|
        invariant forall m :: 0 <= m < j ==> !Blocks(parts[m], ip, parse)
      {
        if Blocks(parts[j], ip, parse) {
          return true;
        }
      }
    }
    return false;
  }

  /** The server value: its text is copied into each edit, its peers map is shared. */
  class Server {
    const wg: string
    const publicKey: string
    var peers: Peers

    constructor (wg: string, publicKey: string, peers: Peers)
      ensures this.wg == wg && this.publicKey == publicKey && this.peers == peers
    {
      this.wg, this.publicKey, this.peers := wg, publicKey, peers;
    }

    method Edit(p: Profile, revoke: bool, parse: Parser) returns (r: Result<string, Error>)
      modifies this
      ensures (r, peers) == Edited(wg, old(peers), publicKey, p, revoke, parse)
    {
      if !Validate(p, parse) {
        return Err(InvalidProfile);
      }
      if p.serverPublicKey != publicKey {
        return Err(OtherServer);
      }
      var text := wg;
      var start, finish := Index(text, Begin(p.name)), Index(text, End(p.name));
      var known := PeerName(p) in peers;
      if start >= 0 || finish >= 0 || known {
        if start < 0 || finish < start || !known || Count(text, Begin(p.name)) != 1 || Count(text, End(p.name)) != 1 {
          return Err(Inconsistent);
        }
        var entry := peers[PeerName(p)];
        if !entry.Mapping? || "public_key" !in entry.fields || entry.fields["public_key"] != p.publicKey
           || !TextSearch.Contains(text[start..finish], KeyLine(p)) {
          return Err(OtherIdentity);
        }
        text := text[..start] + text[finish + |End(p.name)|..];
        peers := peers - {PeerName(p)};
      } else {
        assert peers - {PeerName(p)} == peers;
      }
      if !revoke {
        var collides := CollisionCheck(text, p.ip, parse);
        if collides {
          return Err(AddressCollision);
        }
        if TextSearch.Contains(text, p.publicKey) {
          return Err(KnownIdentity);
        }
        text := TrimRight(text) + "\n\n" + Block(p);
        peers := peers[PeerName(p) := Entry(p)];
      }
      return Ok(text);
    }
  }
}
