/** What a reader of the edited files finds (internal/linuxprofile/server.go): the configuration, line by
    line and setting by setting, and the discovery entries field by field. */
module ServerReadBack {
  import opened NetAddr
  import opened TextSearch
  import opened RouteText
  import opened ServerEdit
  import opened ManagedBlocks
  import EnrolRevoke
  import opened ServerRuns

  // ---------------------------------------------------------------- a reader of its own

  datatype Item = Comment(text: string) | Section(title: string) | Setting(key: string, value: string) | Unknown

  function ReadLine(line: string): Item {
    if |line| > 0 && line[0] == '#' then Comment(line[1..])
    else if |line| > 1 && line[0] == '[' && line[|line| - 1] == ']' then Section(line[1..|line| - 1])
    else
      match Cut(line, '=')
      case None => Unknown
      case Some((key, value)) => Setting(TrimSpace(key), TrimSpace(value))
  }

  function BeginItem(name: string): Item {
    Comment(" BEGIN LINUX " + name)
  }

  function EndItem(name: string): Item {
    Comment(" END LINUX " + name)
  }

  /** From line i on: the markers of the name and between them one peer with exactly these settings. */
  predicate ShowsPeer(lines: seq<string>, i: nat, name: string, key: string, secret: string, address: string) {
    && i + 7 <= |lines|
    && ReadLine(lines[i]) == BeginItem(name)
    && ReadLine(lines[i + 1]) == Section("Peer")
    && ReadLine(lines[i + 2]) == Setting("PublicKey", key)
    && ReadLine(lines[i + 3]) == Setting("PresharedKey", secret)
    && ReadLine(lines[i + 4]) == Setting("AllowedIPs", address)
    && ReadLine(lines[i + 5]) == Setting("PersistentKeepalive", "25")
    && ReadLine(lines[i + 6]) == EndItem(name)
  }

  /** The discovery entry: three fields and no more. */
  predicate ShowsEntry(entry: Yaml, key: string) {
    && entry.Mapping? && entry.fields.Keys == {"public_key", "plugin", "protocol"}
    && entry.fields["public_key"] == key && entry.fields["plugin"] == "dht" && entry.fields["protocol"] == "ipv4"
  }

  // ---------------------------------------------------------------- the lines of a block

  function BlockLines(p: Profile): (lines: seq<string>)
    ensures |lines| == 7
  {
    ["# BEGIN LINUX " + p.name, "[Peer]", "PublicKey = " + p.publicKey, "PresharedKey = " + p.presharedKey,
     "AllowedIPs = " + p.address, "PersistentKeepalive = 25", "# END LINUX " + p.name]
  }

  lemma JoinSeven(a: string, b: string, c: string, d: string, e: string, f: string, g: string)
    ensures Join([a, b, c, d, e, f, g])
      == (a + "\n") + ((b + "\n") + (c + "\n") + (d + "\n") + (e + "\n") + (f + "\n")) + (g + "\n")
  {
    assert [g][1..] == [] && [f, g][1..] == [g] && [e, f, g][1..] == [f, g] && [d, e, f, g][1..] == [e, f, g];
    assert [c, d, e, f, g][1..] == [d, e, f, g] && [b, c, d, e, f, g][1..] == [c, d, e, f, g];
    assert [a, b, c, d, e, f, g][1..] == [b, c, d, e, f, g];
    assert Join([g]) == g + "\n";
    assert Join([f, g]) == f + "\n" + (g + "\n");
    assert Join([e, f, g]) == e + "\n" + Join([f, g]);
    assert Join([d, e, f, g]) == d + "\n" + Join([e, f, g]);
    assert Join([c, d, e, f, g]) == c + "\n" + Join([d, e, f, g]);
    assert Join([b, c, d, e, f, g]) == b + "\n" + Join([c, d, e, f, g]);
  }

  lemma BlockIsItsLines(p: Profile)
    ensures Block(p) == Join(BlockLines(p))
  {
    JoinSeven("# BEGIN LINUX " + p.name, "[Peer]", "PublicKey = " + p.publicKey, "PresharedKey = " + p.presharedKey,
      "AllowedIPs = " + p.address, "PersistentKeepalive = 25", "# END LINUX " + p.name);
    assert Begin(p.name) == "# BEGIN LINUX " + p.name + "\n";
    assert End(p.name) == "# END LINUX " + p.name + "\n";
    assert "[Peer]\n" == "[Peer]" + "\n";
    assert "PersistentKeepalive = 25\n" == "PersistentKeepalive = 25" + "\n";
    assert AddressLine(p) == "AllowedIPs = " + p.address + "\n";
  }

  lemma LinesWithin(before: string, lines: seq<string>, behind: string)
    requires (before == "" || before[|before| - 1] == '\n') && forall k :: 0 <= k < |lines| ==> OneLine(lines[k])
    ensures LinesOf(before + Join(lines) + behind) == LinesOf(before) + lines + LinesOf(behind)
  {
    assert before + Join(lines) + behind == before + (Join(lines) + behind);
    LinesOfParts(before, Join(lines) + behind);
    LinesOfJoin(lines, behind);
  }

  lemma BlockLinesAreLines(p: Profile)
    requires WellFormed(p)
    ensures forall k :: 0 <= k < |BlockLines(p)| ==> OneLine(BlockLines(p)[k])
  {
    assert OneLine(p.name) && OneLine(p.publicKey) && OneLine(p.presharedKey) && OneLine(p.address);
    OneLineSum("# BEGIN LINUX ", p.name);
    OneLineSum("PublicKey = ", p.publicKey);
    OneLineSum("PresharedKey = ", p.presharedKey);
    OneLineSum("AllowedIPs = ", p.address);
    OneLineSum("# END LINUX ", p.name);
  }

  lemma OneLineSum(a: string, b: string)
    requires OneLine(a) && OneLine(b)
    ensures OneLine(a + b)
  {}

  // ---------------------------------------------------------------- reading the settings

  /** No white space and no '=' at all, or no white space at the ends. */
  predicate Trim(s: string) {
    s != "" && !IsTrimSpace(s[0]) && !IsTrimSpace(s[|s| - 1])
  }

  lemma SettingLine(key: string, value: string)
    requires Trim(key) && '=' !in key && key[0] != '#' && key[0] != '[' && Trim(value)
    ensures ReadLine(key + " = " + value) == Setting(key, value)
  {
    var line := key + " = " + value;
    assert line == (key + " ") + ['='] + (" " + value);
    assert line[0] == key[0];
    CutAt(key + " ", '=', " " + value);
    assert TrimSpace(key + " ") == key by {
      assert (key + " ")[..|key|] == key && (key + " ")[0] == key[0];
    }
    assert TrimSpace(" " + value) == value by {
      assert (" " + value)[1..] == value;
    }
  }

  lemma NamedSetting(line: string, key: string, value: string)
    requires line == key + " = " + value && Trim(key) && '=' !in key && key[0] != '#' && key[0] != '[' && Trim(value)
    ensures ReadLine(line) == Setting(key, value)
  {
    SettingLine(key, value);
  }

  lemma KeySetting(p: Profile)
    requires WellFormed(p)
    ensures ReadLine("PublicKey = " + p.publicKey) == Setting("PublicKey", p.publicKey)
  {
    NamedSetting("PublicKey = " + p.publicKey, "PublicKey", p.publicKey);
  }

  lemma SecretSetting(p: Profile)
    requires WellFormed(p)
    ensures ReadLine("PresharedKey = " + p.presharedKey) == Setting("PresharedKey", p.presharedKey)
  {
    NamedSetting("PresharedKey = " + p.presharedKey, "PresharedKey", p.presharedKey);
  }

  lemma AddressSetting(p: Profile)
    requires WellFormed(p)
    ensures ReadLine("AllowedIPs = " + p.address) == Setting("AllowedIPs", p.address)
  {
    NamedSetting("AllowedIPs = " + p.address, "AllowedIPs", p.address);
  }

  lemma KeepaliveSetting()
    ensures ReadLine("PersistentKeepalive = 25") == Setting("PersistentKeepalive", "25")
  {
    NamedSetting("PersistentKeepalive = 25", "PersistentKeepalive", "25");
  }

  lemma MarkerItems(name: string)
    ensures ReadLine("# BEGIN LINUX " + name) == BeginItem(name)
    ensures ReadLine("# END LINUX " + name) == EndItem(name)
    ensures ReadLine("[Peer]") == Section("Peer")
  {
    assert ("# BEGIN LINUX " + name)[1..] == " BEGIN LINUX " + name;
    assert ("# END LINUX " + name)[1..] == " END LINUX " + name;
    assert "[Peer]"[1..5] == "Peer";
  }

  lemma SevenShow(a: string, b: string, c: string, d: string, e: string, f: string, g: string, p: Profile)
    requires ReadLine(a) == BeginItem(p.name) && ReadLine(b) == Section("Peer") && ReadLine(g) == EndItem(p.name)
    requires ReadLine(c) == Setting("PublicKey", p.publicKey) && ReadLine(d) == Setting("PresharedKey", p.presharedKey)
    requires ReadLine(e) == Setting("AllowedIPs", p.address) && ReadLine(f) == Setting("PersistentKeepalive", "25")
    ensures ShowsPeer([a, b, c, d, e, f, g], 0, p.name, p.publicKey, p.presharedKey, p.address)
  {}

  lemma BlockShowsPeer(p: Profile)
    requires WellFormed(p)
    ensures ShowsPeer(BlockLines(p), 0, p.name, p.publicKey, p.presharedKey, p.address)
  {
    KeySetting(p);
    SecretSetting(p);
    AddressSetting(p);
    KeepaliveSetting();
    MarkerItems(p.name);
    SevenShow("# BEGIN LINUX " + p.name, "[Peer]", "PublicKey = " + p.publicKey, "PresharedKey = " + p.presharedKey,
      "AllowedIPs = " + p.address, "PersistentKeepalive = 25", "# END LINUX " + p.name, p);
  }

  lemma ShownWithin(before: seq<string>, lines: seq<string>, behind: seq<string>, p: Profile)
    requires |lines| == 7 && ShowsPeer(lines, 0, p.name, p.publicKey, p.presharedKey, p.address)
    ensures ShowsPeer(before + lines + behind, |before|, p.name, p.publicKey, p.presharedKey, p.address)
  {
    var all := before + lines + behind;
    assert forall k :: 0 <= k < 7 ==> all[|before| + k] == lines[k];
  }

  /** A block that starts on a line of its own is read as its peer. */
  lemma BlockIsRead(before: string, p: Profile, behind: string)
    requires WellFormed(p) && (before == "" || before[|before| - 1] == '\n')
    ensures LinesOf(before + Block(p) + behind) == LinesOf(before) + BlockLines(p) + LinesOf(behind)
    ensures ShowsPeer(LinesOf(before + Block(p) + behind), |LinesOf(before)|, p.name, p.publicKey, p.presharedKey, p.address)
  {
    BlockIsItsLines(p);
    BlockLinesAreLines(p);
    LinesWithin(before, BlockLines(p), behind);
    BlockShowsPeer(p);
    ShownWithin(LinesOf(before), BlockLines(p), LinesOf(behind), p);
  }

  // ---------------------------------------------------------------- after one activation

  lemma EntryShows(p: Profile)
    ensures ShowsEntry(Entry(p), p.publicKey)
  {}

  lemma LastBlockIsRead(before: string, p: Profile)
    requires WellFormed(p) && before != "" && before[|before| - 1] == '\n'
    ensures |LinesOf(before + Block(p))| == |LinesOf(before)| + 7
    ensures ShowsPeer(LinesOf(before + Block(p)), |LinesOf(before)|, p.name, p.publicKey, p.presharedKey, p.address)
  {
    NothingBehind(before, Block(p));
    BlockIsRead(before, p, "");
  }

  lemma NothingBehind(a: string, b: string)
    ensures a + b + "" == a + b && LinesOf("") == []
  {}

  /** The file of any successful activation ends in the profile's peer, read setting by setting, and the
      map holds its three fields. Only the profile's own server is edited. */
  lemma ActivationReadsBack(wg: string, peers: Peers, key: string, p: Profile, parse: Parser, text: string, after: Peers)
    requires Edited(wg, peers, key, p, false, parse) == (Ok(text), after)
    ensures
      var lines := LinesOf(text);
      |lines| >= 7 && ShowsPeer(lines, |lines| - 7, p.name, p.publicKey, p.presharedKey, p.address)
    ensures EntryName(p.name) in after && ShowsEntry(after[EntryName(p.name)], p.publicKey)
    ensures p.serverPublicKey == key
  {
    EnrolRevoke.Activated(wg, peers, key, p, parse, text, after);
    LastBlockIsRead(TrimRight(Withdrawn(wg, peers, p).value) + "\n\n", p);
    EntryShows(p);
  }

  // ---------------------------------------------------------------- over runs

  /** The one line that reads as the begin marker of x. */
  ghost predicate OnlyMarker(lines: seq<string>, x: string, i: nat) {
    forall j :: 0 <= j < |lines| && ReadLine(lines[j]) == BeginItem(x) ==> j == i
  }

  ghost predicate NoMarker(lines: seq<string>, x: string) {
    forall j :: 0 <= j < |lines| ==> ReadLine(lines[j]) != BeginItem(x)
  }

  lemma MarkerLineIs(line: string, x: string)
    requires ReadLine(line) == BeginItem(x)
    ensures line + "\n" == Begin(x)
  {
    assert line == [line[0]] + line[1..];
    assert line == "#" + (" BEGIN LINUX " + x);
  }

  lemma UnmarkedHasNoMarker(s: string, x: string)
    requires Unmarked(s, Begin(x))
    ensures NoMarker(LinesOf(s), x)
  {
    forall j | 0 <= j < |LinesOf(s)| ensures ReadLine(LinesOf(s)[j]) != BeginItem(x) {
      if ReadLine(LinesOf(s)[j]) == BeginItem(x) {
        MarkerWouldOccur(s, LinesOf(s)[j], x);
      }
    }
  }

  lemma MarkerWouldOccur(s: string, line: string, x: string)
    requires line in LinesOf(s) && ReadLine(line) == BeginItem(x)
    ensures !Unmarked(s, Begin(x))
  {
    MarkerLineIs(line, x);
    var i := LineOccurs(s, line);
  }

  lemma OnlyFirstIsMarker(lines: seq<string>, p: Profile)
    requires |lines| == 7 && ShowsPeer(lines, 0, p.name, p.publicKey, p.presharedKey, p.address)
    ensures OnlyMarker(lines, p.name, 0)
  {
    assert EndItem(p.name).text[1] == 'E' && BeginItem(p.name).text[1] == 'B';
  }

  lemma OnlyHere(before: seq<string>, lines: seq<string>, behind: seq<string>, x: string)
    requires NoMarker(before, x) && OnlyMarker(lines, x, 0) && NoMarker(behind, x)
    ensures OnlyMarker(before + lines + behind, x, |before|)
  {
    var all := before + lines + behind;
    forall j | 0 <= j < |all| && j != |before| ensures ReadLine(all[j]) != BeginItem(x) {
      if j < |before| {
        assert all[j] == before[j];
      } else if j < |before| + |lines| {
        assert all[j] == lines[j - |before|];
      } else {
        assert all[j] == behind[j - |before| - |lines|];
      }
    }
  }

  ghost predicate ShownOnce(lines: seq<string>, x: string, p: Profile) {
    exists i :: 0 <= i < |lines| && OnlyMarker(lines, x, i) && ShowsPeer(lines, i, x, p.publicKey, p.presharedKey, p.address)
  }

  /** What the two files say about a label. */
  ghost predicate ReadsAs(f: Files, active: map<string, Profile>, x: string) {
    var lines := LinesOf(f.wg);
    if x in active then
      && ShownOnce(lines, x, active[x])
      && EntryName(x) in f.peers && ShowsEntry(f.peers[EntryName(x)], active[x].publicKey)
    else NoMarker(lines, x) && EntryName(x) !in f.peers
  }

  lemma LayoutReads(f: Files, first: Files, l: Layout, parse: Parser, x: string)
    requires Clean(first) && Represents(f, first, l, parse) && IsLabel(x)
    ensures ReadsAs(f, Profiles(l), x)
  {
    var a := TrimRight(first.wg);
    if x in Profiles(l) {
      ProfileOf(l, parse, x);
      var before, behind := Locate(a, l, x, parse);
      LocatedReads(f.wg, before, Profiles(l)[x], behind, x);
      EntryShows(Profiles(l)[x]);
    } else {
      NoneOf(a, l, x, parse);
      UnmarkedHasNoMarker(f.wg, x);
      NoEntry(f.peers, first.peers, Profiles(l), x);
    }
  }

  lemma LocatedReads(wg: string, before: string, q: Profile, behind: string, x: string)
    requires WellFormed(q) && q.name == x && wg == before + "\n" + Block(q) + behind && Framed(before, behind, x)
    ensures ShownOnce(LinesOf(wg), x, q)
  {
    BlockIsRead(before + "\n", q, behind);
    BlockShowsPeer(q);
    OnlyFirstIsMarker(BlockLines(q), q);
    UnmarkedHasNoMarker(behind, x);
    LineEnded(before, x);
    OnlyHere(LinesOf(before + "\n"), BlockLines(q), LinesOf(behind), x);
  }

  lemma LineEnded(before: string, x: string)
    requires Unmarked(before, Begin(x))
    ensures NoMarker(LinesOf(before + "\n"), x)
  {
    var s := before + "\n";
    forall j | 0 <= j < |LinesOf(s)| ensures ReadLine(LinesOf(s)[j]) != BeginItem(x) {
      if ReadLine(LinesOf(s)[j]) == BeginItem(x) {
        EndedMarkerWouldOccur(s, LinesOf(s)[j], x);
      }
    }
  }

  lemma EndedMarkerWouldOccur(s: string, line: string, x: string)
    requires s != "" && s[|s| - 1] == '\n' && line in LinesOf(s) && ReadLine(line) == BeginItem(x)
    ensures !Nowhere(s, Begin(x))
  {
    MarkerLineIs(line, x);
    var i := EndedLineOccurs(s, line);
  }

  /** Over any run of successful edits from a clean file: for every label, the file reads as one peer
      with the active profile's keys and address between the only markers of that label, and the map
      holds its entry; or there is neither. */
  lemma RunsReadBack(run: seq<Files>, edits: seq<Edit>, key: string, parse: Parser)
    requires IsRun(run, edits, key, parse) && Clean(run[0])
    ensures forall x :: IsLabel(x) ==> ReadsAs(run[|edits|], Active(edits), x)
  {
    var l := RunLayout(run, edits, key, parse);
    forall x | IsLabel(x) ensures ReadsAs(run[|edits|], Active(edits), x) {
      LayoutReads(run[|edits|], run[0], l, parse, x);
    }
  }
}
