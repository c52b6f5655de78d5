/** Where the marker lines of managed blocks can occur in a configuration (internal/linuxprofile/server.go). */
module ManagedBlocks {
  import opened NetAddr
  import opened TextSearch
  import opened RouteText
  import opened ServerEdit

  // ---------------------------------------------------------------- markers

  /** A line that starts with the only '#' in it. */
  ghost predicate IsMarker(m: string) {
    && |m| >= 2 && m[0] == '#' && m[|m| - 1] == '\n'
    && (forall k :: 0 <= k < |m| - 1 ==> m[k] != '\n') && (forall k :: 1 <= k < |m| ==> m[k] != '#')
  }

  /** Every key, label and address is plain: no '#', no newline. */
  predicate Plain(s: string) {
    forall k :: 0 <= k < |s| ==> s[k] != '#' && s[k] != '\n'
  }

  lemma MarkersOf(name: string)
    requires IsLabel(name)
    ensures IsMarker(Begin(name)) && IsMarker(End(name))
  {
    assert Plain(name);
    MarkerLine(" BEGIN LINUX ", name);
    MarkerLine(" END LINUX ", name);
    assert Begin(name) == "#" + " BEGIN LINUX " + name + "\n";
    assert End(name) == "#" + " END LINUX " + name + "\n";
  }

  lemma MarkerLine(words: string, name: string)
    requires Plain(words) && Plain(name)
    ensures IsMarker("#" + words + name + "\n")
  {}

  lemma MarkersDiffer(x: string, y: string)
    ensures Begin(x) != End(y)
    ensures Begin(x) == Begin(y) ==> x == y
    ensures End(x) == End(y) ==> x == y
  {
    assert Begin(x)[2] == 'B' && End(y)[2] == 'E';
    assert Begin(x)[14..|Begin(x)| - 1] == x && Begin(y)[14..|Begin(y)| - 1] == y;
    assert End(x)[12..|End(x)| - 1] == x && End(y)[12..|End(y)| - 1] == y;
  }

  /** Two markers at one place are one marker. */
  lemma SamePlaceSameMarker(s: string, i: int, m: string, n: string)
    requires IsMarker(m) && IsMarker(n) && At(s, i, m) && At(s, i, n)
    ensures m == n
  {
    assert forall k :: 0 <= k < |m| && k < |n| ==> m[k] == s[i + k] == n[k];
    assert |m| == |n|;
  }

  // ---------------------------------------------------------------- occurrences in joined texts

  lemma AtJoined(a: string, b: string, i: int, p: string)
    ensures At(a, i, p) ==> At(a + b, i, p)
    ensures At(b, i, p) ==> At(a + b, |a| + i, p)
    ensures At(a + b, i, p) && i + |p| <= |a| ==> At(a, i, p)
    ensures At(a + b, i, p) && i >= |a| ==> At(b, i - |a|, p)
  {
    var s := a + b;
    if At(b, i, p) {
      forall k | 0 <= k < |p| ensures s[|a| + i + k] == p[k] {
        assert b[i + k] == p[k];
      }
    }
    if At(s, i, p) && i >= |a| {
      forall k | 0 <= k < |p| ensures b[i - |a| + k] == p[k] {
        assert s[i + k] == p[k];
      }
    }
  }

  /** A marker that starts before the end of a line also ends there at the latest. */
  lemma MarkerStaysOnLine(a: string, b: string, i: int, m: string)
    requires IsMarker(m) && At(a + "\n" + b, i, m) && i <= |a|
    ensures At(a + "\n", i, m)
  {
    var s := a + "\n" + b;
    assert s == (a + "\n") + b;
    assert s[|a|] == '\n';
    assert i < |a| by {
      assert s[i + 0] == m[0];
    }
    forall j | i <= j < i + |m| - 1 ensures s[j] != '\n' {
      assert s[i + (j - i)] == m[j - i];
    }
    assert i + |m| - 1 <= |a|;
    AtJoined(a + "\n", b, i, m);
  }

  /** No marker line m in the text once its last line is ended. */
  ghost predicate Unmarked(a: string, m: string) {
    Nowhere(a + "\n", m)
  }

  lemma UnmarkedEmpty(m: string)
    requires IsMarker(m)
    ensures Unmarked("", m)
  {}

  lemma UnmarkedThenNewlines(a: string, n: nat, m: string)
    requires IsMarker(m) && Unmarked(a, m)
    ensures Nowhere(a + Newlines(n), m)
  {
    var s := a + Newlines(n);
    forall i ensures !At(s, i, m) {
      if At(s, i, m) {
        if n == 0 {
          assert s == a;
          AtJoined(a, "\n", i, m);
        } else {
          assert s == a + "\n" + Newlines(n - 1);
          assert s[i + 0] == m[0];
          MarkerStaysOnLine(a, Newlines(n - 1), i, m);
        }
      }
    }
  }

  // ---------------------------------------------------------------- markers in a block

  lemma BodyIsPlain(p: Profile)
    requires IsKeyText(p.publicKey) && IsKeyText(p.presharedKey) && IsAddressText(p.address)
    ensures '#' !in Body(p)
  {
    assert '#' !in p.publicKey && '#' !in p.presharedKey && '#' !in p.address;
    assert '#' !in KeyLine(p);
    assert '#' !in SecretLine(p);
    assert '#' !in AddressLine(p) by {
      assert '#' !in KEYWORD && '#' !in " = ";
    }
  }

  /** The shape every managed block has. */
  predicate WellFormed(p: Profile) {
    IsLabel(p.name) && IsKeyText(p.publicKey) && IsKeyText(p.presharedKey) && IsAddressText(p.address)
  }

  /** Occurrences of a marker in a frame: marker line b, body y without '#', marker line e. */
  lemma MarkersInFrame(b: string, y: string, e: string, tail: string, i: int, m: string)
    requires IsMarker(b) && IsMarker(e) && IsMarker(m) && '#' !in y
    requires At(b + y + e + tail, i, m) && i < |b + y + e|
    ensures (i == 0 && m == b) || (i == |b + y| && m == e)
  {
    var s := b + y + e + tail;
    FrameMarkersAt("", b, y, e, tail);
    assert "" + b + y + e + tail == s;
    assert s[i + 0] == '#';
    HashesInFrame(b, y, e, tail, i);
    if i == 0 {
      SamePlaceSameMarker(s, 0, m, b);
    } else {
      SamePlaceSameMarker(s, i, m, e);
    }
  }

  lemma HashesInFrame(b: string, y: string, e: string, tail: string, i: nat)
    requires IsMarker(b) && IsMarker(e) && '#' !in y
    requires i < |b + y + e| && (b + y + e + tail)[i] == '#'
    ensures i == 0 || i == |b + y|
  {
    assert (b + y + e + tail)[i] == (b + y + e)[i];
    assert i < |b| ==> (b + y + e)[i] == b[i];
    assert i >= |b + y| ==> (b + y + e)[i] == e[i - |b + y|];
    assert forall k :: |b| <= k < |b + y| ==> (b + y + e)[k] == y[k - |b|];
  }

  lemma FrameMarkersAt(a: string, b: string, y: string, e: string, r: string)
    ensures At(a + b + y + e + r, |a|, b)
    ensures At(a + b + y + e + r, |a + b + y|, e)
  {
    FrameParts(a, b, y, e, r);
    Inside(a, b, y + e + r);
    Inside(a + b + y, e, r);
  }

  lemma FrameParts(a: string, b: string, y: string, e: string, r: string)
    ensures a + b + y + e + r == a + b + (y + e + r)
  {}

  /** After a line end, a frame adds its own two markers and no other. */
  lemma OccurrencesAround(a: string, b: string, y: string, e: string, r: string, i: int, m: string)
    requires IsMarker(b) && IsMarker(e) && IsMarker(m) && '#' !in y
    requires At(a + "\n" + (b + y + e) + r, i, m)
    ensures
      || At(a + "\n", i, m)
      || (i == |a| + 1 && m == b)
      || (i == |a| + 1 + |b + y| && m == e)
      || At(r, i - |a| - 1 - |b + y + e|, m)
  {
    var f := b + y + e;
    var s := a + "\n" + f + r;
    if i <= |a| {
      assert s == a + "\n" + (f + r);
      MarkerStaysOnLine(a, f + r, i, m);
    } else {
      assert s == (a + "\n") + (f + r);
      AtJoined(a + "\n", f + r, i, m);
      var k := i - |a| - 1;
      if k < |f| {
        MarkersInFrame(b, y, e, r, k, m);
      } else {
        AtJoined(f, r, k, m);
      }
    }
  }

  /** A frame of another name keeps the text free of the marker. */
  lemma UnmarkedThenFrame(a: string, g: nat, b: string, y: string, e: string, m: string)
    requires IsMarker(b) && IsMarker(e) && IsMarker(m) && '#' !in y
    requires g >= 1 && m != b && m != e && Unmarked(a, m)
    ensures Unmarked(a + Newlines(g) + (b + y + e), m)
  {
    var c := a + Newlines(g - 1);
    var s := a + Newlines(g) + (b + y + e) + "\n";
    assert c + "\n" == a + Newlines(g) by {
      assert Newlines(g) == Newlines(g - 1) + "\n";
    }
    UnmarkedThenNewlines(a, g, m);
    forall i ensures !At(s, i, m) {
      if At(s, i, m) {
        OccurrencesAround(c, b, y, e, "\n", i, m);
      }
    }
  }

  /** A frame after unmarked text, with unmarked text behind it, holds the only occurrences of its markers. */
  lemma MarkersOnlyHere(a: string, b: string, y: string, e: string, r: string)
    requires IsMarker(b) && IsMarker(e) && '#' !in y && b != e
    requires Unmarked(a, b) && Unmarked(a, e) && Nowhere(r, b) && Nowhere(r, e)
    ensures OnlyAt(a + "\n" + (b + y + e) + r, |a| + 1, b)
    ensures OnlyAt(a + "\n" + (b + y + e) + r, |a| + 1 + |b + y|, e)
  {
    var s := a + "\n" + (b + y + e) + r;
    FrameMarkersAt(a + "\n", b, y, e, r);
    assert s == (a + "\n") + b + y + e + r;
    forall i | At(s, i, b) ensures i == |a| + 1 {
      OccurrencesAround(a, b, y, e, r, i, b);
    }
    forall i | At(s, i, e) ensures i == |a| + 1 + |b + y| {
      OccurrencesAround(a, b, y, e, r, i, e);
    }
  }

  // ---------------------------------------------------------------- a managed block is such a frame

  lemma BlockIsFrame(p: Profile)
    requires WellFormed(p)
    ensures IsMarker(Begin(p.name)) && IsMarker(End(p.name)) && Begin(p.name) != End(p.name) && '#' !in Body(p)
  {
    MarkersOf(p.name);
    MarkersDiffer(p.name, p.name);
    BodyIsPlain(p);
  }

  lemma UnmarkedThenBlock(a: string, g: nat, p: Profile, m: string)
    requires g >= 1 && WellFormed(p) && IsMarker(m) && m != Begin(p.name) && m != End(p.name) && Unmarked(a, m)
    ensures Unmarked(a + Newlines(g) + Block(p), m)
  {
    BlockIsFrame(p);
    UnmarkedThenFrame(a, g, Begin(p.name), Body(p), End(p.name), m);
  }

  lemma BlockCounts(a: string, p: Profile, r: string)
    requires WellFormed(p)
    requires Unmarked(a, Begin(p.name)) && Unmarked(a, End(p.name))
    requires Nowhere(r, Begin(p.name)) && Nowhere(r, End(p.name))
    ensures var s := a + "\n" + Block(p) + r;
      && Index(s, Begin(p.name)) == |a| + 1 && Count(s, Begin(p.name)) == 1
      && Index(s, End(p.name)) == |a| + 1 + |Begin(p.name) + Body(p)| && Count(s, End(p.name)) == 1
  {
    var s := a + "\n" + Block(p) + r;
    BlockIsFrame(p);
    MarkersOnlyHere(a, Begin(p.name), Body(p), End(p.name), r);
    OnlyAtCounts(s, |a| + 1, Begin(p.name));
    OnlyAtCounts(s, |a| + 1 + |Begin(p.name) + Body(p)|, End(p.name));
  }

  // ---------------------------------------------------------------- taking a block out

  lemma KeyInBlock(p: Profile)
    ensures TextSearch.Contains(Begin(p.name) + Body(p), KeyLine(p))
  {
    SecondLine(Begin(p.name), "[Peer]\n", KeyLine(p), SecretLine(p), AddressLine(p), "PersistentKeepalive = 25\n");
  }

  lemma SecondLine(b: string, h: string, k: string, l: string, d: string, t: string)
    ensures TextSearch.Contains(b + (h + k + l + d + t), k)
  {
    assert b + (h + k + l + d + t) == b + h + k + (l + d + t);
    Inside(b + h, k, l + d + t);
  }

  lemma Inside(a: string, p: string, b: string)
    ensures At(a + p + b, |a|, p) && TextSearch.Contains(a + p + b, p)
  {
    assert a + p + b == a + (p + b);
    AtJoined(p, b, 0, p);
    AtJoined(a, p + b, 0, p);
    ContainsAt(a + p + b, p, |a|);
  }

  /** Cutting a frame out of a text. */
  lemma CutFrame(a: string, b: string, y: string, e: string, r: string)
    ensures var s := a + (b + y + e) + r;
      && s[|a|..|a| + |b + y|] == b + y
      && s[..|a|] + s[|a| + |b + y| + |e|..] == a + r
  {
    var s := a + (b + y + e) + r;
    assert s == a + (b + y) + (e + r);
    assert s == (a + (b + y + e)) + r;
  }

  /** Withdrawn, with its two positions known: `inner` lies between them, `rest` around them. */
  lemma WithdrawAt(s: string, peers: Peers, p: Profile, start: nat, finish: nat, key: string, inner: string, rest: string)
    requires Index(s, Begin(p.name)) == start <= Index(s, End(p.name)) == finish
    requires Count(s, Begin(p.name)) == 1 == Count(s, End(p.name))
    requires s[start..finish] == inner && s[..start] + s[finish + |End(p.name)|..] == rest
    requires PeerName(p) in peers && peers[PeerName(p)].Mapping?
    requires "public_key" in peers[PeerName(p)].fields && peers[PeerName(p)].fields["public_key"] == key
    requires p.publicKey == key ==> TextSearch.Contains(inner, KeyLine(p))
    ensures Withdrawn(s, peers, p) == if p.publicKey == key then Ok(rest) else Err(OtherIdentity)
  {
    assert Consistent(s, peers, p);
  }

  /** The edit takes out exactly the block, for the same identity, and refuses another one. */
  lemma WithdrawBlock(a: string, q: Profile, r: string, peers: Peers, p: Profile)
    requires WellFormed(q) && p.name == q.name && PeerName(q) in peers && peers[PeerName(q)] == Entry(q)
    requires Unmarked(a, Begin(q.name)) && Unmarked(a, End(q.name))
    requires Nowhere(r, Begin(q.name)) && Nowhere(r, End(q.name))
    ensures Withdrawn(a + "\n" + Block(q) + r, peers, p)
         == if p.publicKey == q.publicKey then Ok(a + "\n" + r) else Err(OtherIdentity)
  {
    BlockCounts(a, q, r);
    KeyInBlock(q);
    assert p.publicKey == q.publicKey ==> KeyLine(p) == KeyLine(q);
    WithdrawFrame(a + "\n", Begin(p.name), Body(q), End(p.name), r, peers, p, q.publicKey);
  }

  lemma WithdrawFrame(a: string, b: string, y: string, e: string, r: string, peers: Peers, p: Profile, key: string)
    requires b == Begin(p.name) && e == End(p.name)
    requires var s := a + (b + y + e) + r;
      && Index(s, b) == |a| && Index(s, e) == |a| + |b + y| && Count(s, b) == 1 == Count(s, e)
    requires PeerName(p) in peers && peers[PeerName(p)].Mapping?
    requires "public_key" in peers[PeerName(p)].fields && peers[PeerName(p)].fields["public_key"] == key
    requires p.publicKey == key ==> TextSearch.Contains(b + y, KeyLine(p))
    ensures Withdrawn(a + (b + y + e) + r, peers, p) == if p.publicKey == key then Ok(a + r) else Err(OtherIdentity)
  {
    CutFrame(a, b, y, e, r);
    WithdrawAt(a + (b + y + e) + r, peers, p, |a|, |a| + |b + y|, key, b + y, a + r);
  }

  // ---------------------------------------------------------------- what a block claims

  lemma Regroup(a: string, b: string, h: string, k: string, l: string, d: string, t: string, e: string, r: string)
    ensures a + (b + (h + k + l + d + t) + e) + r == (a + b + h) + k + (l + d + t + e + r)
    ensures a + (b + (h + k + l + d + t) + e) + r == (a + b + h + k) + l + d + (t + e + r)
  {}

  /** The key and the address of a block are seen by the checks of every later edit. */
  lemma BlockIsSeen(a: string, q: Profile, r: string)
    requires WellFormed(q)
    ensures q.address in Captures(a + Block(q) + r)
    ensures TextSearch.Contains(a + Block(q) + r, q.publicKey)
  {
    var b, h, k, l, d, t, e := Begin(q.name), "[Peer]\n", KeyLine(q), SecretLine(q), AddressLine(q),
      "PersistentKeepalive = 25\n", End(q.name);
    Regroup(a, b, h, k, l, d, t, e, r);
    KeyIsSeen(a + b + h, q, l + d + t + e + r);
    SecretLineShape(q);
    AddressIsSeen(a + b + h + k, l, q.address, t + e + r);
  }

  lemma KeyIsSeen(head: string, q: Profile, tail: string)
    ensures TextSearch.Contains(head + KeyLine(q) + tail, q.publicKey)
  {
    assert head + KeyLine(q) + tail == (head + "PublicKey = ") + q.publicKey + ("\n" + tail);
    Inside(head + "PublicKey = ", q.publicKey, "\n" + tail);
  }

  /** A line that starts with a 'P'. */
  ghost predicate IsLineBefore(l: string) {
    |l| > 2 && l[0] == 'P' && l[|l| - 1] == '\n' && forall k :: 0 <= k < |l| - 1 ==> l[k] != '\n'
  }

  lemma AddressIsSeen(head: string, l: string, address: string, tail: string)
    requires IsLineBefore(l) && IsAddressText(address) && |head| > 0 && head[|head| - 1] == '\n'
    ensures address in Captures(head + l + (KEYWORD + " = " + address + "\n") + tail)
  {
    var line := KEYWORD + " = " + address + "\n";
    var s := head + l + line + tail;
    LinesAt(head, l, line, tail);
    assert OwnLine(s, |head|, |head + l|, address);
    OwnLineIsCaptured(s, |head|, |head + l|, address);
  }

  lemma LinesAt(head: string, l: string, line: string, tail: string)
    requires IsLineBefore(l) && |head| > 0 && head[|head| - 1] == '\n'
    ensures var s := head + l + line + tail;
      && At(s, |head + l|, line) && s[|head| - 1] == '\n' && s[|head|] == 'P' && s[|head + l| - 1] == '\n'
      && (forall k :: |head| <= k < |head + l| - 1 ==> s[k] != '\n')
  {
    Inside(head + l, line, tail);
    Inside(head, l, line + tail);
    assert head + l + line + tail == head + l + (line + tail);
    forall k | |head| <= k < |head + l| - 1 ensures (head + l + line + tail)[k] != '\n' {
      assert (head + l)[k] == l[k - |head|];
    }
  }

  lemma SecretLineShape(q: Profile)
    requires WellFormed(q)
    ensures IsLineBefore(SecretLine(q))
  {
    assert '\n' !in "PresharedKey = ";
    assert '\n' !in q.presharedKey;
    assert '\n' !in "PresharedKey = " + q.presharedKey;
    assert SecretLine(q) == ("PresharedKey = " + q.presharedKey) + "\n";
  }

  /** A captured address collides with itself. */
  lemma SeenAddressCollides(s: string, q: Profile, parse: Parser)
    requires Validate(q, parse) && q.address in Captures(s)
    ensures Collides(s, q.ip, parse)
  {
    var i :| 0 <= i < |Captures(s)| && Captures(s)[i] == q.address;
    SplitWithoutComma(q.address);
    assert TrimSpace(q.address) == q.address by {
      assert !IsTrimSpace(q.address[0]) && !IsTrimSpace(q.address[|q.address| - 1]);
    }
    assert SplitComma(Captures(s)[i])[0] == q.address;
    assert Blocks(SplitComma(Captures(s)[i])[0], q.ip, parse);
  }

  /** A configuration that shows a profile's block admits neither its address nor its key again. */
  lemma SeenBlockIsExclusive(s: string, q: Profile, p: Profile, parse: Parser)
    requires Validate(q, parse) && q.address in Captures(s) && TextSearch.Contains(s, q.publicKey)
    requires !Collides(s, p.ip, parse) && !TextSearch.Contains(s, p.publicKey)
    ensures p.ip != q.ip && p.publicKey != q.publicKey
  {
    SeenAddressCollides(s, q, parse);
  }
}
