/** Runs of successful edits (internal/linuxprofile/server.go): the managed blocks of the configuration
    are exactly the active profiles. */
module ServerRuns {
  import opened NetAddr
  import opened TextSearch
  import opened RouteText
  import NetPrefix
  import opened ServerEdit
  import opened ManagedBlocks

  // ---------------------------------------------------------------- layouts

  /** What follows the operator's own text: blocks, each after some newlines, then more newlines. */
  datatype Layout = Done(newlines: nat) | Peer(gap: nat, profile: Profile, block: string, rest: Layout)

  /** Every block is the one that its profile is rendered to. */
  ghost predicate Rendered(l: Layout) {
    l.Peer? ==> l.block == Block(l.profile) && Rendered(l.rest)
  }

  function Text(l: Layout): string {
    match l
    case Done(n) => Newlines(n)
    case Peer(g, _, b, rest) => Newlines(g) + b + Text(rest)
  }

  function Profiles(l: Layout): map<string, Profile> {
    match l
    case Done(_) => map[]
    case Peer(_, p, _, rest) => Profiles(rest)[p.name := p]
  }

  /** Different name, address and identity from every profile in the map. */
  ghost predicate Apart(p: Profile, others: map<string, Profile>) {
    && p.name !in others
    && forall x :: x in others ==> others[x].ip != p.ip && others[x].publicKey != p.publicKey
  }

  ghost predicate Sound(l: Layout, parse: Parser) {
    match l
    case Done(_) => true
    case Peer(g, p, b, rest) =>
      g >= 1 && Validate(p, parse) && b == Block(p) && Apart(p, Profiles(rest)) && Sound(rest, parse)
  }

  lemma {:induction false} SoundIsRendered(l: Layout, parse: Parser)
    requires Sound(l, parse)
    ensures Rendered(l)
  {
    if l.Peer? {
      SoundIsRendered(l.rest, parse);
    }
  }

  /** More newlines in front. */
  function Pad(g: nat, l: Layout): Layout {
    match l
    case Done(n) => Done(g + n)
    case Peer(h, p, b, rest) => Peer(g + h, p, b, rest)
  }

  function Remove(l: Layout, x: string): Layout {
    match l
    case Done(_) => l
    case Peer(g, p, b, rest) => if p.name == x then Pad(g, rest) else Peer(g, p, b, Remove(rest, x))
  }

  /** A new last block. Only a block right after the operator's text needs two newlines: a block ends
      its own last line. */
  function Append(l: Layout, p: Profile, block: string, gap: nat): Layout {
    match l
    case Done(_) => Peer(gap, p, block, Done(0))
    case Peer(g, q, b, rest) => Peer(g, q, b, Append(rest, p, block, 1))
  }

  lemma {:induction false} PadText(g: nat, l: Layout)
    ensures Text(Pad(g, l)) == Newlines(g) + Text(l)
  {
    match l
    case Done(n) => NewlinesSum(g, n);
    case Peer(h, _, b, rest) => PadBlock(g, h, b, Text(rest));
  }

  lemma {:induction false} PadKeeps(g: nat, l: Layout, parse: Parser)
    ensures Profiles(Pad(g, l)) == Profiles(l)
    ensures Sound(l, parse) ==> Sound(Pad(g, l), parse)
  {}

  lemma PadBlock(g: nat, h: nat, b: string, r: string)
    ensures Newlines(g + h) + b + r == Newlines(g) + (Newlines(h) + b + r)
  {
    NewlinesSum(g, h);
    Associate(Newlines(g), Newlines(h), b, r);
  }

  lemma Associate(a: string, b: string, c: string, d: string)
    ensures a + b + c + d == a + (b + c + d)
    ensures a + b + c + d == (a + b + c) + d
  {}

  lemma {:induction false} RemoveNone(l: Layout, x: string)
    requires x !in Profiles(l)
    ensures Remove(l, x) == l
  {
    match l
    case Done(_) =>
    case Peer(_, _, _, rest) => RemoveNone(rest, x);
  }

  lemma ApartFromFewer(p: Profile, others: map<string, Profile>, x: string)
    requires Apart(p, others)
    ensures Apart(p, others - {x})
  {}

  lemma RemoveFromMap(others: map<string, Profile>, p: Profile, x: string)
    requires p.name !in others
    ensures others[p.name := p] - {x} == if p.name == x then others else (others - {x})[p.name := p]
  {}

  lemma {:induction false} RemoveProfiles(l: Layout, x: string, parse: Parser)
    requires Sound(l, parse)
    ensures Profiles(Remove(l, x)) == Profiles(l) - {x}
  {
    match l
    case Done(_) =>
    case Peer(g, p, _, rest) =>
      if p.name == x {
        PadKeeps(g, rest, parse);
      } else {
        RemoveProfiles(rest, x, parse);
      }
      RemoveFromMap(Profiles(rest), p, x);
  }

  lemma {:induction false} RemoveKeeps(l: Layout, x: string, parse: Parser)
    requires Sound(l, parse)
    ensures Sound(Remove(l, x), parse)
  {
    match l
    case Done(_) =>
    case Peer(g, p, _, rest) =>
      if p.name == x {
        PadKeeps(g, rest, parse);
      } else {
        RemoveKeeps(rest, x, parse);
        RemoveProfiles(rest, x, parse);
        ApartFromFewer(p, Profiles(rest), x);
      }
  }

  lemma {:induction false} AppendKeeps(l: Layout, p: Profile, gap: nat, parse: Parser)
    requires Sound(l, parse) && gap >= 1 && Validate(p, parse) && Apart(p, Profiles(l))
    ensures Sound(Append(l, p, Block(p), gap), parse)
    ensures Profiles(Append(l, p, Block(p), gap)) == Profiles(l)[p.name := p]
  {
    match l
    case Done(_) =>
    case Peer(g, q, _, rest) =>
      ApartFromRest(p, q, Profiles(rest));
      AppendKeeps(rest, p, 1, parse);
      PutOrder(Profiles(rest), q, p);
  }

  lemma ApartFromRest(p: Profile, q: Profile, others: map<string, Profile>)
    requires Apart(q, others) && Apart(p, others[q.name := q])
    ensures Apart(p, others) && Apart(q, others[p.name := p])
  {
    var all := others[q.name := q];
    assert all[q.name] == q;
    forall x | x in others ensures others[x].ip != p.ip && others[x].publicKey != p.publicKey {
      assert x in all && all[x] == others[x];
    }
  }

  lemma PutOrder(others: map<string, Profile>, q: Profile, p: Profile)
    requires p.name != q.name
    ensures others[p.name := p][q.name := q] == others[q.name := q][p.name := p]
  {}

  /** No two blocks share name, address or identity. */
  lemma {:induction false} SoundIsDistinct(l: Layout, parse: Parser, x: string, y: string)
    requires Sound(l, parse) && x in Profiles(l) && y in Profiles(l) && x != y
    ensures Profiles(l)[x].ip != Profiles(l)[y].ip && Profiles(l)[x].publicKey != Profiles(l)[y].publicKey
  {
    if l.profile.name != x && l.profile.name != y {
      SoundIsDistinct(l.rest, parse, x, y);
    }
  }

  lemma {:induction false} ProfileOf(l: Layout, parse: Parser, x: string)
    requires Sound(l, parse) && x in Profiles(l)
    ensures Profiles(l)[x].name == x && Validate(Profiles(l)[x], parse)
  {
    if l.profile.name != x {
      ProfileOf(l.rest, parse, x);
    }
  }

  // ---------------------------------------------------------------- markers in a layout

  lemma {:induction false} NoMarkers(a: string, l: Layout, m: string, parse: Parser)
    requires Sound(l, parse) && IsMarker(m) && Unmarked(a, m)
    requires forall x :: x in Profiles(l) ==> m != Begin(x) && m != End(x)
    ensures Nowhere(a + Text(l), m) && Unmarked(a + Text(l), m)
    decreases l
  {
    match l
    case Done(n) =>
      UnmarkedThenNewlines(a, n, m);
      UnmarkedThenNewlines(a, n + 1, m);
      OneMoreNewline(a, n);
    case Peer(g, p, _, rest) =>
      assert p.name in Profiles(l);
      assert forall x :: x in Profiles(rest) ==> x in Profiles(l);
      UnmarkedThenBlock(a, g, p, m);
      NoMarkers(a + Newlines(g) + Block(p), rest, m, parse);
      Associate(a, Newlines(g), Block(p), Text(rest));
  }

  lemma OneMoreNewline(a: string, n: nat)
    ensures a + Newlines(n) + "\n" == a + Newlines(n + 1)
  {}

  /** Neither marker of x in front, none behind. */
  ghost predicate Framed(a: string, r: string, x: string) {
    && Unmarked(a, Begin(x)) && Unmarked(a, End(x)) && Nowhere(r, Begin(x)) && Nowhere(r, End(x))
    && Unmarked(r, Begin(x)) && Unmarked(r, End(x))
  }

  lemma OthersDiffer(l: Layout, x: string)
    requires x !in Profiles(l)
    ensures forall y :: y in Profiles(l) ==> Begin(x) != Begin(y) && Begin(x) != End(y) && End(x) != Begin(y) && End(x) != End(y)
  {
    forall y | y in Profiles(l)
      ensures Begin(x) != Begin(y) && Begin(x) != End(y) && End(x) != Begin(y) && End(x) != End(y)
    {
      MarkersDiffer(x, y);
      MarkersDiffer(y, x);
    }
  }

  lemma NoneOf(a: string, l: Layout, x: string, parse: Parser)
    requires Sound(l, parse) && IsLabel(x) && x !in Profiles(l)
    requires Unmarked(a, Begin(x)) && Unmarked(a, End(x))
    ensures Nowhere(a + Text(l), Begin(x)) && Nowhere(a + Text(l), End(x))
    ensures Unmarked(a + Text(l), Begin(x)) && Unmarked(a + Text(l), End(x))
  {
    OthersDiffer(l, x);
    MarkersOf(x);
    NoMarkers(a, l, Begin(x), parse);
    NoMarkers(a, l, End(x), parse);
  }

  /** The block of an active profile: where it is, and what is left without it. */
  lemma {:induction false} Locate(a: string, l: Layout, x: string, parse: Parser) returns (before: string, behind: string)
    requires Sound(l, parse) && x in Profiles(l) && IsLabel(x)
    requires Unmarked(a, Begin(x)) && Unmarked(a, End(x))
    ensures a + Text(l) == before + "\n" + Block(Profiles(l)[x]) + behind
    ensures before + "\n" + behind == a + Text(Remove(l, x))
    ensures Framed(before, behind, x)
    decreases l
  {
    var Peer(g, p, _, rest) := l;
    if p.name == x {
      before, behind := LocateFirst(a, l, parse);
    } else {
      StillUnmarked(a, g, p, x);
      before, behind := Locate(a + Newlines(g) + Block(p), rest, x, parse);
      Associate(a, Newlines(g), Block(p), Text(rest));
      Associate(a, Newlines(g), Block(p), Text(Remove(rest, x)));
    }
  }

  lemma StillUnmarked(a: string, g: nat, p: Profile, x: string)
    requires g >= 1 && WellFormed(p) && IsLabel(x) && p.name != x && Unmarked(a, Begin(x)) && Unmarked(a, End(x))
    ensures Unmarked(a + Newlines(g) + Block(p), Begin(x)) && Unmarked(a + Newlines(g) + Block(p), End(x))
  {
    MarkersOf(x);
    MarkersDiffer(x, p.name);
    MarkersDiffer(p.name, x);
    UnmarkedThenBlock(a, g, p, Begin(x));
    UnmarkedThenBlock(a, g, p, End(x));
  }

  lemma LocateFirst(a: string, l: Layout, parse: Parser) returns (before: string, behind: string)
    requires l.Peer? && Sound(l, parse)
    requires Unmarked(a, Begin(l.profile.name)) && Unmarked(a, End(l.profile.name))
    ensures a + Text(l) == before + "\n" + Block(l.profile) + behind
    ensures before + "\n" + behind == a + Text(Remove(l, l.profile.name))
    ensures Framed(before, behind, l.profile.name)
  {
    var Peer(g, p, _, rest) := l;
    before, behind := a + Newlines(g - 1), Text(rest);
    assert Newlines(g) == Newlines(g - 1) + "\n";
    LineEndInGap(a, Newlines(g - 1), Newlines(g), Block(p), Text(rest));
    PadText(g, rest);
    FrontIsFree(a, g, p.name);
    BehindIsFree(rest, p.name, parse);
  }

  lemma LineEndInGap(a: string, g: string, h: string, b: string, r: string)
    requires h == g + "\n"
    ensures a + (h + b + r) == a + g + "\n" + b + r
    ensures a + g + "\n" + r == a + (h + r)
  {}

  lemma FrontIsFree(a: string, g: nat, x: string)
    requires g >= 1 && IsLabel(x) && Unmarked(a, Begin(x)) && Unmarked(a, End(x))
    ensures Unmarked(a + Newlines(g - 1), Begin(x)) && Unmarked(a + Newlines(g - 1), End(x))
  {
    MarkersOf(x);
    UnmarkedThenNewlines(a, g, Begin(x));
    UnmarkedThenNewlines(a, g, End(x));
    assert a + Newlines(g - 1) + "\n" == a + Newlines(g) by {
      assert Newlines(g) == Newlines(g - 1) + "\n";
    }
  }

  lemma BehindIsFree(l: Layout, x: string, parse: Parser)
    requires Sound(l, parse) && IsLabel(x) && x !in Profiles(l)
    ensures Nowhere(Text(l), Begin(x)) && Nowhere(Text(l), End(x))
    ensures Unmarked(Text(l), Begin(x)) && Unmarked(Text(l), End(x))
  {
    MarkersOf(x);
    UnmarkedEmpty(Begin(x));
    UnmarkedEmpty(End(x));
    NoneOf("", l, x, parse);
    assert "" + Text(l) == Text(l);
  }

  // ---------------------------------------------------------------- appending a block

  /** Everything up to the last block, */
  function Front(l: Layout): string {
    match l
    case Done(_) => ""
    case Peer(g, _, b, rest) => Newlines(g) + b + Front(rest)
  }

  /** and the newlines behind it. */
  function Behind(l: Layout): nat {
    match l
    case Done(n) => n
    case Peer(_, _, _, rest) => Behind(rest)
  }

  lemma {:induction false} FrontText(l: Layout)
    ensures Text(l) == Front(l) + Newlines(Behind(l))
  {
    match l
    case Done(_) =>
    case Peer(g, _, b, rest) =>
      FrontText(rest);
      Longer(Newlines(g) + b, Front(rest), Newlines(Behind(rest)));
  }

  lemma Longer(a: string, b: string, c: string)
    ensures a + (b + c) == a + b + c
  {}

  lemma {:induction false} AppendFront(l: Layout, p: Profile, block: string, gap: nat)
    ensures Text(Append(l, p, block, gap)) == Front(l) + (Newlines(if l.Done? then gap else 1) + block)
  {
    match l
    case Done(_) =>
      assert Newlines(0) == "";
      assert Text(Peer(gap, p, block, Done(0))) == Newlines(gap) + block;
    case Peer(g, _, b, rest) =>
      AppendFront(rest, p, block, 1);
      Longer(Newlines(g) + b, Front(rest), Newlines(1) + block);
  }

  /** Text that ends in exactly one newline. */
  predicate EndsLine(b: string) {
    |b| >= 2 && b[|b| - 1] == '\n' && b[|b| - 2] != '\n'
  }

  predicate BlocksEndLines(l: Layout) {
    l.Peer? ==> EndsLine(l.block) && BlocksEndLines(l.rest)
  }

  lemma {:induction false} SoundBlocksEndLines(l: Layout, parse: Parser)
    requires Sound(l, parse)
    ensures BlocksEndLines(l)
  {
    if l.Peer? {
      BlockEndsLine(l.profile);
      SoundBlocksEndLines(l.rest, parse);
    }
  }

  lemma BlockEndsLine(q: Profile)
    requires IsLabel(q.name)
    ensures EndsLine(Block(q))
  {
    var s := Begin(q.name) + Body(q) + (END + q.name);
    assert s[|s| - 1] == q.name[|q.name| - 1];
    assert Block(q) == s + "\n";
  }

  lemma {:induction false} FrontEndsLine(l: Layout)
    requires l.Peer? && BlocksEndLines(l)
    ensures EndsLine(Front(l))
  {
    if l.rest.Peer? {
      FrontEndsLine(l.rest);
    }
  }

  /** Trimming, one blank line and a block: the text with the block appended to its layout. */
  lemma AppendText(a: string, l: Layout, p: Profile, block: string)
    requires Trimmed(a) && BlocksEndLines(l)
    ensures TrimRight(a + Text(l)) + "\n\n" + block == a + Text(Append(l, p, block, 2))
  {
    var front, text, after := Front(l), Text(l), Text(Append(l, p, block, 2));
    FrontText(l);
    AppendFront(l, p, block, 2);
    if l.Done? {
      AppendToEmpty(a, Behind(l), block);
    } else {
      FrontEndsLine(l);
      AppendToLine(a, front[..|front| - 1], Behind(l), block, front, text, after);
    }
  }

  lemma AppendToEmpty(a: string, n: nat, block: string)
    requires Trimmed(a)
    ensures TrimRight(a + ("" + Newlines(n))) + "\n\n" + block == a + ("" + (Newlines(2) + block))
  {
    assert "" + Newlines(n) == Newlines(n);
    TrimOf(a, n);
    assert Newlines(2) == "\n\n";
    Longer(a, Newlines(2), block);
    assert "" + (Newlines(2) + block) == Newlines(2) + block;
  }

  lemma AppendToLine(a: string, s: string, n: nat, block: string, front: string, text: string, after: string)
    requires EndsLine(front) && s == front[..|front| - 1]
    requires text == front + Newlines(n) && after == front + (Newlines(1) + block)
    ensures TrimRight(a + text) + "\n\n" + block == a + after
  {
    assert front == s + Newlines(1);
    Joined(a, s, 1, n, block, front);
    TrimOf(a + s, 1 + n);
  }

  lemma Joined(a: string, s: string, c: nat, n: nat, b: string, front: string)
    requires front == s + Newlines(c) && c <= 1
    ensures a + (front + Newlines(n)) == a + s + Newlines(c + n)
    ensures a + (front + (Newlines(2 - c) + b)) == a + s + "\n\n" + b
  {
    NewlinesSum(c, n);
    NewlinesSum(c, 2 - c);
    assert Newlines(2) == "\n\n";
    Grouped(a, s, Newlines(c), Newlines(n), "");
    Grouped(a, s, Newlines(c), Newlines(2 - c), b);
  }

  lemma Grouped(a: string, s: string, c: string, d: string, b: string)
    ensures a + (s + c + (d + b)) == a + s + (c + d) + b
    ensures a + (s + c + d) == a + s + (c + d)
  {}

  // ---------------------------------------------------------------- runs

  datatype Files = Files(wg: string, peers: Peers)

  datatype Edit = Edit(profile: Profile, revoke: bool)

  /** Every edit succeeds on the files the one before has written. */
  ghost predicate IsRun(run: seq<Files>, edits: seq<Edit>, key: string, parse: Parser) {
    && |run| == |edits| + 1
    && forall i :: 0 <= i < |edits| ==> Succeeds(run[i], edits[i], run[i + 1], key, parse)
  }

  ghost predicate Succeeds(f: Files, e: Edit, g: Files, key: string, parse: Parser) {
    Edited(f.wg, f.peers, key, e.profile, e.revoke, parse) == (Ok(g.wg), g.peers)
  }

  /** The profiles activated and not revoked since, as last activated. */
  function Active(edits: seq<Edit>): map<string, Profile> {
    if edits == [] then map[]
    else
      var e := edits[|edits| - 1];
      After(Active(edits[..|edits| - 1]), e)
  }

  function After(active: map<string, Profile>, e: Edit): map<string, Profile> {
    if e.revoke then active - {e.profile.name} else active[e.profile.name := e.profile]
  }

  function EntryName(x: string): string {
    "linux-" + x
  }

  /** No marker line and no entry of any managed profile. */
  ghost predicate Clean(f: Files) {
    forall x :: IsLabel(x) ==>
      && Unmarked(TrimRight(f.wg), Begin(x)) && Unmarked(TrimRight(f.wg), End(x)) && EntryName(x) !in f.peers
  }

  ghost predicate EntriesFor(peers: Peers, active: map<string, Profile>) {
    forall x :: x in active ==> EntryName(x) in peers && peers[EntryName(x)] == Entry(active[x])
  }

  ghost predicate Keeps(peers: Peers, own: Peers) {
    forall k :: k in own ==> k in peers && peers[k] == own[k]
  }

  ghost predicate NoOthers(peers: Peers, own: Peers, active: map<string, Profile>) {
    forall k :: k in peers && k !in own ==> exists x :: x in active && k == EntryName(x)
  }

  /** The operator's entries, and one for each active profile. */
  ghost predicate PeersAre(peers: Peers, own: Peers, active: map<string, Profile>) {
    EntriesFor(peers, active) && Keeps(peers, own) && NoOthers(peers, own, active)
  }

  lemma EntryNamesDiffer(x: string, y: string)
    requires EntryName(x) == EntryName(y)
    ensures x == y
  {
    assert EntryName(x)[6..] == x && EntryName(y)[6..] == y;
  }

  ghost predicate Represents(f: Files, first: Files, l: Layout, parse: Parser) {
    f.wg == TrimRight(first.wg) + Text(l) && Sound(l, parse) && PeersAre(f.peers, first.peers, Profiles(l))
  }

  /** Another identity is active under the profile's name. */
  predicate Rival(active: map<string, Profile>, p: Profile) {
    p.name in active && active[p.name].publicKey != p.publicKey
  }

  /** Taking a profile out of such a file takes out its block and nothing else, or nothing at all, and is
      refused exactly for another identity. */
  lemma WithdrawnLayout(f: Files, first: Files, l: Layout, parse: Parser, p: Profile)
    requires Clean(first) && Represents(f, first, l, parse) && IsLabel(p.name)
    ensures Withdrawn(f.wg, f.peers, p)
         == if Rival(Profiles(l), p) then Err(OtherIdentity) else Ok(TrimRight(first.wg) + Text(Remove(l, p.name)))
  {
    var a, x := TrimRight(first.wg), p.name;
    if x in Profiles(l) {
      ProfileOf(l, parse, x);
      var before, behind := Locate(a, l, x, parse);
      var q := Profiles(l)[x];
      assert PeerName(q) == EntryName(x) == PeerName(p);
      WithdrawBlock(before, q, behind, f.peers, p);
    } else {
      NoneOf(a, l, x, parse);
      RemoveNone(l, x);
      NoEntry(f.peers, first.peers, Profiles(l), x);
      assert !Managed(f.wg, f.peers, p);
    }
  }

  lemma NoEntry(peers: Peers, own: Peers, active: map<string, Profile>, x: string)
    requires NoOthers(peers, own, active) && EntryName(x) !in own && x !in active
    ensures EntryName(x) !in peers
  {
    forall y | EntryName(x) == EntryName(y) ensures x == y {
      EntryNamesDiffer(x, y);
    }
  }

  lemma PeersAfterRemove(peers: Peers, own: Peers, active: map<string, Profile>, x: string)
    requires PeersAre(peers, own, active) && EntryName(x) !in own
    ensures PeersAre(peers - {EntryName(x)}, own, active - {x})
  {
    forall y | EntryName(x) == EntryName(y) ensures x == y {
      EntryNamesDiffer(x, y);
    }
    var fewer := peers - {EntryName(x)};
    assert EntriesFor(fewer, active - {x});
    assert Keeps(fewer, own);
    forall k | k in fewer && k !in own ensures exists y :: y in active - {x} && k == EntryName(y) {
      assert k in peers && k != EntryName(x);
      var y :| y in active && k == EntryName(y);
      assert y in active - {x};
    }
  }

  lemma EntriesAfterAdd(peers: Peers, active: map<string, Profile>, x: string, p: Profile)
    requires EntriesFor(peers, active) && x !in active
    ensures EntriesFor(peers[EntryName(x) := Entry(p)], active[x := p])
  {
    forall y | y in active ensures EntryName(y) != EntryName(x) {
      if EntryName(y) == EntryName(x) {
        EntryNamesDiffer(x, y);
      }
    }
  }

  lemma NoOthersAfterAdd(peers: Peers, own: Peers, active: map<string, Profile>, x: string, p: Profile, entry: Yaml)
    requires NoOthers(peers, own, active)
    ensures NoOthers(peers[EntryName(x) := entry], own, active[x := p])
  {
    var more := active[x := p];
    forall k | k in peers[EntryName(x) := entry] && k !in own ensures exists y :: y in more && k == EntryName(y) {
      if k == EntryName(x) {
        assert x in more;
      } else {
        var y :| y in active && k == EntryName(y);
        assert y in more;
      }
    }
  }

  lemma PeersAfterAdd(peers: Peers, own: Peers, active: map<string, Profile>, p: Profile)
    requires PeersAre(peers, own, active) && EntryName(p.name) !in own && p.name !in active
    ensures PeersAre(peers[EntryName(p.name) := Entry(p)], own, active[p.name := p])
  {
    EntriesAfterAdd(peers, active, p.name, p);
    NoOthersAfterAdd(peers, own, active, p.name, p, Entry(p));
  }

  /** An admitted profile is apart from every block in the file. */
  lemma AdmittedIsApart(a: string, l: Layout, parse: Parser, p: Profile)
    requires Sound(l, parse) && p.name !in Profiles(l)
    requires forall x :: IsLabel(x) ==> Unmarked(a, Begin(x)) && Unmarked(a, End(x))
    requires !Collides(a + Text(l), p.ip, parse) && !TextSearch.Contains(a + Text(l), p.publicKey)
    ensures Apart(p, Profiles(l))
  {
    forall x | x in Profiles(l)
      ensures Profiles(l)[x].ip != p.ip && Profiles(l)[x].publicKey != p.publicKey
    {
      ProfileOf(l, parse, x);
      var before, behind := Locate(a, l, x, parse);
      BlockIsSeen(before + "\n", Profiles(l)[x], behind);
      SeenBlockIsExclusive(a + Text(l), Profiles(l)[x], p, parse);
    }
  }

  /** Files with the profile's block and entry put in. */
  function Enrolled(f: Files, p: Profile): Files {
    Files(TrimRight(f.wg) + "\n\n" + Block(p), f.peers[EntryName(p.name) := Entry(p)])
  }

  /** The two halves of an edit: to g by way of the files h without the profile. */
  ghost predicate ByWayOf(f: Files, e: Edit, h: Files, g: Files, parse: Parser) {
    && Validate(e.profile, parse) && Withdrawn(f.wg, f.peers, e.profile) == Ok(h.wg)
    && h.peers == f.peers - {EntryName(e.profile.name)}
    && if e.revoke then g == h
       else
         && !Collides(h.wg, e.profile.ip, parse) && !TextSearch.Contains(h.wg, e.profile.publicKey)
         && g == Enrolled(h, e.profile)
  }

  lemma EditParts(f: Files, e: Edit, g: Files, key: string, parse: Parser) returns (h: Files)
    requires Succeeds(f, e, g, key, parse)
    ensures ByWayOf(f, e, h, g, parse)
  {
    h := Files(Withdrawn(f.wg, f.peers, e.profile).value, f.peers - {EntryName(e.profile.name)});
  }

  lemma Step(f: Files, e: Edit, h: Files, g: Files, parse: Parser, first: Files, l: Layout) returns (m: Layout)
    requires Clean(first) && Represents(f, first, l, parse) && ByWayOf(f, e, h, g, parse)
    ensures Represents(g, first, m, parse) && Profiles(m) == After(Profiles(l), e)
  {
    var p := e.profile;
    var n := RemoveStep(f, h, first, l, parse, p);
    if e.revoke {
      m := n;
    } else {
      m := AppendStep(h, first, n, parse, p);
      RemovedThenPut(Profiles(l), p.name, p);
    }
  }

  lemma RemovedThenPut(active: map<string, Profile>, x: string, p: Profile)
    ensures (active - {x})[x := p] == active[x := p]
  {}

  lemma RemoveStep(f: Files, h: Files, first: Files, l: Layout, parse: Parser, p: Profile) returns (m: Layout)
    requires Clean(first) && Represents(f, first, l, parse) && IsLabel(p.name)
    requires Withdrawn(f.wg, f.peers, p) == Ok(h.wg) && h.peers == f.peers - {EntryName(p.name)}
    ensures Represents(h, first, m, parse) && Profiles(m) == Profiles(l) - {p.name}
  {
    m := Remove(l, p.name);
    WithdrawnLayout(f, first, l, parse, p);
    RemoveKeeps(l, p.name, parse);
    RemoveProfiles(l, p.name, parse);
    PeersAfterRemove(f.peers, first.peers, Profiles(l), p.name);
  }

  lemma AppendStep(f: Files, first: Files, l: Layout, parse: Parser, p: Profile) returns (m: Layout)
    requires Clean(first) && Represents(f, first, l, parse)
    requires !Collides(f.wg, p.ip, parse) && !TextSearch.Contains(f.wg, p.publicKey)
    requires p.name !in Profiles(l) && Validate(p, parse)
    ensures Represents(Enrolled(f, p), first, m, parse) && Profiles(m) == Profiles(l)[p.name := p]
  {
    var a := TrimRight(first.wg);
    m := Append(l, p, Block(p), 2);
    AdmittedIsApart(a, l, parse, p);
    AppendKeeps(l, p, 2, parse);
    SoundBlocksEndLines(l, parse);
    AppendText(a, l, p, Block(p));
    PeersAfterAdd(f.peers, first.peers, Profiles(l), p);
  }

  /** After any run the file is the operator's text followed by the blocks of the active profiles. */
  lemma {:induction false} RunLayout(run: seq<Files>, edits: seq<Edit>, key: string, parse: Parser) returns (l: Layout)
    requires IsRun(run, edits, key, parse) && Clean(run[0])
    ensures Represents(run[|edits|], run[0], l, parse) && Profiles(l) == Active(edits)
    decreases |edits|
  {
    if edits == [] {
      var w := run[0].wg;
      l := Done(|w| - |TrimRight(w)|);
    } else {
      var n := |edits| - 1;
      var prior := RunLayout(run[..n + 1], edits[..n], key, parse);
      var between := EditParts(run[n], edits[n], run[n + 1], key, parse);
      l := Step(run[n], edits[n], between, run[n + 1], parse, run[0], prior);
    }
  }

  /** What a reader of the files finds about one label. */
  ghost predicate ShownExactly(f: Files, active: map<string, Profile>, x: string) {
    if x in active then
      && Count(f.wg, Begin(x)) == 1 && Count(f.wg, End(x)) == 1 && At(f.wg, Index(f.wg, Begin(x)), Block(active[x]))
      && EntryName(x) in f.peers && f.peers[EntryName(x)] == Entry(active[x])
    else
      Count(f.wg, Begin(x)) == 0 && Count(f.wg, End(x)) == 0 && EntryName(x) !in f.peers
  }

  lemma LayoutShows(f: Files, first: Files, l: Layout, parse: Parser, x: string)
    requires Clean(first) && Represents(f, first, l, parse) && IsLabel(x)
    ensures ShownExactly(f, Profiles(l), x)
  {
    var a := TrimRight(first.wg);
    if x in Profiles(l) {
      ProfileOf(l, parse, x);
      var before, behind := Locate(a, l, x, parse);
      BlockCounts(before, Profiles(l)[x], behind);
      Inside(before + "\n", Block(Profiles(l)[x]), behind);
    } else {
      NoneOf(a, l, x, parse);
      NowhereCounts(f.wg, Begin(x));
      NowhereCounts(f.wg, End(x));
      NoEntry(f.peers, first.peers, Profiles(l), x);
    }
  }

  /** Over any run of successful edits from a clean file, the managed blocks are exactly the active
      profiles, one each, with distinct addresses and identities, and the operator's text and entries stay. */
  lemma BlocksAreActiveProfiles(run: seq<Files>, edits: seq<Edit>, key: string, parse: Parser)
    requires IsRun(run, edits, key, parse) && Clean(run[0])
    ensures var last, active := run[|edits|], Active(edits);
      && (forall x :: IsLabel(x) ==> ShownExactly(last, active, x))
      && (forall x, y :: x in active && y in active && x != y ==>
        active[x].ip != active[y].ip && active[x].publicKey != active[y].publicKey)
      && (exists l :: Rendered(l) && last.wg == TrimRight(run[0].wg) + Text(l) && Profiles(l) == active)
      && PeersAre(last.peers, run[0].peers, active)
  {
    var l := RunLayout(run, edits, key, parse);
    SoundIsRendered(l, parse);
    forall x | IsLabel(x) ensures ShownExactly(run[|edits|], Active(edits), x) {
      LayoutShows(run[|edits|], run[0], l, parse, x);
    }
    forall x, y | x in Profiles(l) && y in Profiles(l) && x != y
      ensures Profiles(l)[x].ip != Profiles(l)[y].ip && Profiles(l)[x].publicKey != Profiles(l)[y].publicKey
    {
      SoundIsDistinct(l, parse, x, y);
    }
  }

  // ---------------------------------------------------------------- which edits succeed

  /** Valid, for this server, and not under another identity's name. */
  predicate Admissible(p: Profile, key: string, parse: Parser, active: map<string, Profile>) {
    Validate(p, parse) && p.serverPublicKey == key && !Rival(active, p)
  }

  /** Every route on every captured line parses and leaves the address alone. */
  ghost predicate Unclaimed(text: string, ip: nat, parse: Parser) {
    forall i, j :: 0 <= i < |Captures(text)| && 0 <= j < |SplitComma(Captures(text)[i])| ==>
      LeavesAlone(parse(TrimSpace(SplitComma(Captures(text)[i])[j])), ip)
  }

  predicate LeavesAlone(route: Option<NetPrefix.Prefix>, ip: nat) {
    route.Some? && !NetPrefix.Contains(route.value, FamilyIPv4, ip)
  }

  lemma UnclaimedExactly(text: string, ip: nat, parse: Parser)
    ensures Unclaimed(text, ip, parse) <==> !Collides(text, ip, parse)
  {}

  /** Over any run from a clean file, what the next edit answers: it is never inconsistent; an admissible
      profile can always be revoked; and it can be activated exactly when no route of the rest of the file
      claims its address and its key does not occur there. */
  lemma OutcomeExactly(run: seq<Files>, edits: seq<Edit>, key: string, parse: Parser, p: Profile, revoke: bool)
    returns (rest: string)
    requires IsRun(run, edits, key, parse) && Clean(run[0])
    ensures
      var f, active := run[|edits|], Active(edits);
      var r := Edited(f.wg, f.peers, key, p, revoke, parse).0;
      && (r == Err(InvalidProfile) <==> !Validate(p, parse))
      && (r == Err(OtherServer) <==> Validate(p, parse) && p.serverPublicKey != key)
      && (r == Err(OtherIdentity) <==> Validate(p, parse) && p.serverPublicKey == key && Rival(active, p))
      && r != Err(Inconsistent)
      && (revoke ==> (r.Ok? <==> Admissible(p, key, parse, active)))
      && (!revoke ==> (r.Ok? <==>
        Admissible(p, key, parse, active) && Unclaimed(rest, p.ip, parse) && !TextSearch.Contains(rest, p.publicKey)))
      && (Admissible(p, key, parse, active) ==> IsRest(rest, run[0], active, p.name))
  {
    var f := run[|edits|];
    var l := RunLayout(run, edits, key, parse);
    rest := TrimRight(run[0].wg) + Text(Remove(l, p.name));
    UnclaimedExactly(rest, p.ip, parse);
    if Validate(p, parse) {
      WithdrawnLayout(f, run[0], l, parse, p);
      RestIs(l, run[0], parse, p.name);
    }
  }

  /** The operator's text with the blocks of all active profiles but x. */
  ghost predicate IsRest(rest: string, first: Files, active: map<string, Profile>, x: string) {
    exists l :: Rendered(l) && rest == TrimRight(first.wg) + Text(l) && Profiles(l) == active - {x}
  }

  lemma RestIs(l: Layout, first: Files, parse: Parser, x: string)
    requires Sound(l, parse)
    ensures IsRest(TrimRight(first.wg) + Text(Remove(l, x)), first, Profiles(l), x)
  {
    RemoveKeeps(l, x, parse);
    RemoveProfiles(l, x, parse);
    SoundIsRendered(Remove(l, x), parse);
  }
}
