/** What an activation is undone by and repeated by (internal/linuxprofile/server.go). */
module EnrolRevoke {
  import opened NetAddr
  import opened TextSearch
  import opened RouteText
  import opened ServerEdit
  import opened ManagedBlocks

  /** Once its last line is ended, the text holds none of the profile's marker lines. */
  ghost predicate Free(text: string, p: Profile) {
    Unmarked(TrimRight(text), Begin(p.name)) && Unmarked(TrimRight(text), End(p.name))
  }

  /** The text stops right before the line end of one of the profile's marker lines. */
  predicate EndsInMarker(text: string, p: Profile) {
    || At(text, |text| + 1 - |Begin(p.name)|, BEGIN + p.name)
    || At(text, |text| + 1 - |End(p.name)|, END + p.name)
  }

  lemma NewlinesTwo(t: string)
    ensures t + "\n\n" == t + Newlines(2) == t + "\n" + "\n"
  {}

  lemma FreeThenTwoNewlines(t: string, m: string)
    requires IsMarker(m) && Unmarked(t, m)
    ensures Unmarked(t + "\n", m)
  {
    UnmarkedThenNewlines(t, 2, m);
    NewlinesTwo(t);
  }

  lemma BlankLineBefore(t: string, b: string, y: string, e: string)
    ensures t + "\n\n" + (b + y + e) == t + "\n\n" + b + y + e + ""
    ensures t + "\n\n" + (b + y + e) == (t + "\n") + ("\n" + (b + y + e))
  {}

  /** A marker left in the text is a second occurrence next to the new block's own. */
  lemma SecondMarker(t: string, b: string, y: string, e: string, j: int, m: string)
    requires m != "" && (m == b || m == e) && At(t + "\n", j, m)
    ensures Count(t + "\n\n" + (b + y + e), m) >= 2
  {
    var a := t + "\n\n";
    FrameMarkersAt(a, b, y, e, "");
    AtJoined(t + "\n", "\n" + (b + y + e), j, m);
    BlankLineBefore(t, b, y, e);
    TwiceCounts(a + (b + y + e), j, if m == b then |a| else |a + b + y|, m);
  }

  /** The block an activation appended is found again exactly when the text before it was free. */
  lemma WithdrawAppended(rest: string, peers: Peers, p: Profile)
    requires WellFormed(p) && PeerName(p) in peers && peers[PeerName(p)] == Entry(p)
    ensures Withdrawn(TrimRight(rest) + "\n\n" + Block(p), peers, p)
         == if Free(rest, p) then Ok(TrimRight(rest) + "\n\n") else Err(Inconsistent)
  {
    var t := TrimRight(rest);
    var s := t + "\n\n" + Block(p);
    var b, e := Begin(p.name), End(p.name);
    BlockIsFrame(p);
    if Free(rest, p) {
      FreeThenTwoNewlines(t, b);
      FreeThenTwoNewlines(t, e);
      NewlinesTwo(t);
      assert s == t + "\n" + "\n" + Block(p) + "";
      assert t + "\n" + "\n" + "" == t + "\n\n";
      WithdrawBlock(t + "\n", p, "", peers, p);
    } else {
      var m := if Unmarked(t, b) then e else b;
      var j :| At(t + "\n", j, m);
      SecondMarker(t, b, Body(p), e, j, m);
      assert !Consistent(s, peers, p);
    }
  }

  /** What a successful activation leaves behind. */
  lemma Activated(wg: string, peers: Peers, key: string, p: Profile, parse: Parser, text: string, after: Peers)
    requires Edited(wg, peers, key, p, false, parse) == (Ok(text), after)
    ensures WellFormed(p) && Withdrawn(wg, peers, p).Ok?
    ensures var rest := Withdrawn(wg, peers, p).value;
      && text == TrimRight(rest) + "\n\n" + Block(p)
      && !Collides(rest, p.ip, parse) && !TextSearch.Contains(rest, p.publicKey)
    ensures after == (peers - {PeerName(p)})[PeerName(p) := Entry(p)]
  {}

  /** Revoking what was just activated gives back the text without the profile, its trailing newlines
      replaced by one blank line, and the map without it; unless a left-over marker makes it ambiguous. */
  lemma ActivateThenRevoke(wg: string, peers: Peers, key: string, p: Profile, parse: Parser, text: string, after: Peers)
    requires Edited(wg, peers, key, p, false, parse) == (Ok(text), after)
    ensures Withdrawn(wg, peers, p).Ok?
    ensures var rest := Withdrawn(wg, peers, p).value;
      Edited(text, after, key, p, true, parse)
      == if Free(rest, p) then (Ok(TrimRight(rest) + "\n\n"), peers - {PeerName(p)}) else (Err(Inconsistent), after)
  {
    Activated(wg, peers, key, p, parse, text, after);
    WithdrawAppended(Withdrawn(wg, peers, p).value, after, p);
    assert after - {PeerName(p)} == peers - {PeerName(p)};
  }

  /** The checks of an activation do not see trailing newlines. */
  lemma ChecksIgnoreTrailingNewlines(rest: string, p: Profile, parse: Parser)
    requires IsKeyText(p.publicKey)
    ensures Collides(TrimRight(rest) + "\n\n", p.ip, parse) <==> Collides(rest, p.ip, parse)
    ensures TextSearch.Contains(TrimRight(rest) + "\n\n", p.publicKey) <==> TextSearch.Contains(rest, p.publicKey)
    ensures TrimRight(TrimRight(rest) + "\n\n") == TrimRight(rest)
  {
    CollisionsIgnoreTrailingNewlines(rest, p.ip, parse);
    var t := TrimRight(rest);
    NewlinesTwo(t);
    TrimOf(t, 2);
    KeyBeforeNewlines(t, |rest| - |t|, p.publicKey);
    KeyBeforeNewlines(t, 2, p.publicKey);
  }

  lemma CollisionsIgnoreTrailingNewlines(rest: string, ip: nat, parse: Parser)
    ensures Collides(TrimRight(rest) + "\n\n", ip, parse) <==> Collides(rest, ip, parse)
  {
    var t := TrimRight(rest);
    NewlinesTwo(t);
    CapturesIgnoreTrailingNewlines(t, |rest| - |t|);
    CapturesIgnoreTrailingNewlines(t, 2);
    SameCapturesCollideAlike(t + "\n\n", rest, ip, parse);
  }

  lemma SameCapturesCollideAlike(s: string, t: string, ip: nat, parse: Parser)
    requires Captures(s) == Captures(t)
    ensures Collides(s, ip, parse) <==> Collides(t, ip, parse)
  {}

  lemma KeyBeforeNewlines(t: string, n: nat, key: string)
    requires IsKeyText(key)
    ensures TextSearch.Contains(t + Newlines(n), key) <==> TextSearch.Contains(t, key)
  {
    var s := t + Newlines(n);
    forall i ensures At(s, i, key) <==> At(t, i, key) {
      AtJoined(t, Newlines(n), i, key);
      if At(s, i, key) {
        assert s[i + 43] == key[43];
      }
    }
  }

  /** Activating a second time changes nothing, under the same condition. */
  lemma ActivateTwice(wg: string, peers: Peers, key: string, p: Profile, parse: Parser, text: string, after: Peers)
    requires Edited(wg, peers, key, p, false, parse) == (Ok(text), after)
    ensures Withdrawn(wg, peers, p).Ok?
    ensures Edited(text, after, key, p, false, parse)
         == if Free(Withdrawn(wg, peers, p).value, p) then (Ok(text), after) else (Err(Inconsistent), after)
  {
    Activated(wg, peers, key, p, parse, text, after);
    var rest := Withdrawn(wg, peers, p).value;
    WithdrawAppended(rest, after, p);
    ChecksIgnoreTrailingNewlines(rest, p, parse);
    assert (after - {PeerName(p)})[PeerName(p) := Entry(p)] == after;
  }

  // ---------------------------------------------------------------- the condition, on the file itself

  /** Ending the last line can only make a marker line out of its text w at the very end, */
  lemma EndingMakesMarker(t: string, w: string)
    requires IsMarker(w + "\n") && At(t, |t| - |w|, w)
    ensures !Unmarked(t, w + "\n")
  {
    var i := |t| - |w|;
    assert At(t + "\n", i, w + "\n") by {
      forall k | 0 <= k < |w + "\n"| ensures (t + "\n")[i + k] == (w + "\n")[k] {
        assert k < |w| ==> t[i + k] == w[k];
      }
    }
  }

  /** and there it does. */
  lemma OnlyEndingMakesMarker(t: string, w: string)
    requires IsMarker(w + "\n") && Nowhere(t, w + "\n") && !Unmarked(t, w + "\n")
    ensures At(t, |t| - |w|, w)
  {
    var m := w + "\n";
    var j :| At(t + "\n", j, m);
    AtJoined(t, "\n", j, m);
    assert j == |t| - |w|;
    forall k | 0 <= k < |w| ensures t[j + k] == w[k] {
      assert (t + "\n")[j + k] == m[k];
    }
  }

  lemma UnmarkedPrefix(t: string, n: nat, m: string)
    requires n > 0 && Nowhere(t + Newlines(n), m)
    ensures Unmarked(t, m)
  {
    assert t + Newlines(n) == t + "\n" + Newlines(n - 1);
    forall j ensures !At(t + "\n", j, m) {
      AtJoined(t + "\n", Newlines(n - 1), j, m);
    }
  }

  lemma UnmarkedExactly(text: string, w: string, m: string)
    requires m == w + "\n" && IsMarker(m) && Nowhere(text, m)
    ensures Unmarked(TrimRight(text), m) <==> !At(text, |text| - |w|, w)
  {
    var t := TrimRight(text);
    var n := |text| - |t|;
    if n > 0 {
      NewlineEndsNoMarker(text, w);
      UnmarkedPrefix(t, n, m);
    } else {
      assert text == t;
      TrimmedUnmarkedExactly(t, w, m);
    }
  }

  lemma TrimmedUnmarkedExactly(t: string, w: string, m: string)
    requires m == w + "\n" && IsMarker(m) && Nowhere(t, m)
    ensures Unmarked(t, m) <==> !At(t, |t| - |w|, w)
  {
    if At(t, |t| - |w|, w) {
      EndingMakesMarker(t, w);
    } else if !Unmarked(t, m) {
      OnlyEndingMakesMarker(t, w);
    }
  }

  lemma NewlineEndsNoMarker(text: string, w: string)
    requires IsMarker(w + "\n") && text != "" && text[|text| - 1] == '\n'
    ensures !At(text, |text| - |w|, w)
  {
    var last := |w| - 1;
    assert (w + "\n")[last] == w[last] != '\n';
    assert |w| <= |text| ==> text[|text| - |w| + last] == '\n';
  }

  lemma FreeExactly(wg: string, p: Profile)
    requires IsLabel(p.name) && Index(wg, Begin(p.name)) < 0 && Index(wg, End(p.name)) < 0
    ensures Free(wg, p) <==> !EndsInMarker(wg, p)
    ensures wg != "" && wg[|wg| - 1] == '\n' ==> !EndsInMarker(wg, p)
  {
    MarkersOf(p.name);
    UnmarkedExactly(wg, BEGIN + p.name, Begin(p.name));
    UnmarkedExactly(wg, END + p.name, End(p.name));
    if wg != "" && wg[|wg| - 1] == '\n' {
      NewlineEndsNoMarker(wg, BEGIN + p.name);
      NewlineEndsNoMarker(wg, END + p.name);
    }
  }

  /** Enrolment is undone by revocation, for a profile the server does not have: exactly when the file
      does not stop right before the line end of one of the profile's markers. */
  lemma EnrolThenRevoke(wg: string, peers: Peers, key: string, p: Profile, parse: Parser, text: string, after: Peers)
    requires !Managed(wg, peers, p) && Edited(wg, peers, key, p, false, parse) == (Ok(text), after)
    ensures Edited(text, after, key, p, true, parse)
         == if EndsInMarker(wg, p) then (Err(Inconsistent), after) else (Ok(TrimRight(wg) + "\n\n"), peers)
    ensures Edited(text, after, key, p, false, parse)
         == if EndsInMarker(wg, p) then (Err(Inconsistent), after) else (Ok(text), after)
    ensures wg != "" && wg[|wg| - 1] == '\n' ==> !EndsInMarker(wg, p)
  {
    ActivateThenRevoke(wg, peers, key, p, parse, text, after);
    ActivateTwice(wg, peers, key, p, parse, text, after);
    Unmanaged(wg, peers, key, p, parse);
  }

  lemma Unmanaged(wg: string, peers: Peers, key: string, p: Profile, parse: Parser)
    requires !Managed(wg, peers, p) && Edited(wg, peers, key, p, false, parse).0.Ok?
    ensures Withdrawn(wg, peers, p) == Ok(wg) && peers - {PeerName(p)} == peers
    ensures Free(wg, p) <==> !EndsInMarker(wg, p)
    ensures wg != "" && wg[|wg| - 1] == '\n' ==> !EndsInMarker(wg, p)
  {
    FreeExactly(wg, p);
  }

  // ---------------------------------------------------------------- a file that breaks it

  lemma NoKeywordNoCaptures(s: string)
    requires forall i: nat :: !KeywordAt(s, i)
    ensures Captures(s) == []
  {
    forall i | 0 <= i < |s| ensures Matches(s)[i] == None {
      assert !KeywordAt(s, i);
    }
    NothingCollected(s, Matches(s), 0);
  }

  /** The one-line file that is the profile's begin marker without its line end: it enrols, and then
      neither revocation nor a second enrolment is possible. */
  lemma UnterminatedMarkerBlocksRevoke(p: Profile, parse: Parser)
    requires Validate(p, parse)
    ensures var file := BEGIN + p.name;
      var (r, after) := Edited(file, map[], p.serverPublicKey, p, false, parse);
      && r.Ok? && Edited(r.value, after, p.serverPublicKey, p, true, parse) == (Err(Inconsistent), after)
      && Edited(r.value, after, p.serverPublicKey, p, false, parse) == (Err(Inconsistent), after)
  {
    var file := BEGIN + p.name;
    MarkerLineAlone(p);
    var (r, after) := Edited(file, map[], p.serverPublicKey, p, false, parse);
    assert !Managed(file, map[], p);
    assert r.Ok?;
    assert At(file, |file| + 1 - |Begin(p.name)|, file);
    EnrolThenRevoke(file, map[], p.serverPublicKey, p, parse, r.value, after);
  }

  /** One character that differs. */
  lemma NotAt(s: string, i: int, p: string, k: nat)
    requires k < |p| && (0 <= i + k < |s| ==> s[i + k] != p[k])
    ensures !At(s, i, p)
  {}

  lemma MarkerLineAlone(p: Profile)
    requires IsLabel(p.name) && IsKeyText(p.publicKey)
    ensures var file := BEGIN + p.name;
      && Index(file, Begin(p.name)) < 0 && Index(file, End(p.name)) < 0
      && Captures(file) == [] && !TextSearch.Contains(file, p.publicKey)
  {
    var file := BEGIN + p.name;
    assert forall k :: 0 <= k < |file| ==> file[k] != '\n';
    assert forall k :: 1 <= k < |file| ==> file[k] != '#';
    assert file[0] == '#' && file[2] == 'B' && file[7] == ' ';
    NoKeywordNoCaptures(file) by {
      forall i: nat ensures !KeywordAt(file, i) {
        assert KEYWORD[0] == 'A';
        assert At(file, i, KEYWORD) ==> file[i + 0] == 'A';
      }
    }
    forall i ensures !At(file, i, p.publicKey) {
      if 0 <= i <= 2 {
        NotAt(file, i, p.publicKey, 7 - i);
      }
    }
    forall i ensures !At(file, i, End(p.name)) {
      assert End(p.name)[0] == '#' && End(p.name)[2] == 'E';
      NotAt(file, i, End(p.name), if i == 0 then 2 else 0);
    }
  }

  /** An edit that fails leaves the shared map alone, except that a refused replacement has already
      taken the peer's entry out. */
  lemma FailedEditKeepsPeers(wg: string, peers: Peers, key: string, p: Profile, revoke: bool, parse: Parser)
    requires Edited(wg, peers, key, p, revoke, parse).0.Err?
    ensures Edited(wg, peers, key, p, revoke, parse).1 == peers
      <==> !(Validate(p, parse) && p.serverPublicKey == key && PeerName(p) in peers && Withdrawn(wg, peers, p).Ok?)
    ensures Edited(wg, peers, key, p, revoke, parse).1 != peers
      ==> !revoke && Edited(wg, peers, key, p, revoke, parse).1 == peers - {PeerName(p)}
  {
    assert PeerName(p) in peers ==> peers - {PeerName(p)} != peers;
    assert PeerName(p) !in peers ==> peers - {PeerName(p)} == peers;
  }

  /** A peer section that somebody wrote by hand. */
  function HandWritten(o: Profile): string {
    "[Peer]\n" + KeyLine(o) + SecretLine(o) + AddressLine(o)
  }

  lemma HandWrittenIsUnmarked(o: Profile, m: string)
    requires WellFormed(o) && IsMarker(m)
    ensures Unmarked(HandWritten(o), m)
  {
    var a := HandWritten(o);
    assert '#' !in a by {
      assert Body(o) == a + "PersistentKeepalive = 25\n";
      BodyIsPlain(o);
    }
    HashlessIsUnmarked(a, m);
  }

  lemma HashlessIsUnmarked(a: string, m: string)
    requires '#' !in a && IsMarker(m)
    ensures Unmarked(a, m)
  {
    assert '#' !in a + "\n";
    forall i ensures !At(a + "\n", i, m) {
      NotAt(a + "\n", i, m, 0);
    }
  }

  lemma HandWrittenIsSeen(o: Profile, parse: Parser)
    requires Validate(o, parse)
    ensures Collides(HandWritten(o) + "\n", o.ip, parse)
  {
    SecretLineShape(o);
    AddressIsSeen("[Peer]\n" + KeyLine(o), SecretLine(o), o.address, "\n");
    SeenAddressCollides(HandWritten(o) + "\n", o, parse);
  }

  /** The losing case is real: p is enrolled, somebody has given its address to a peer of their own, and
      enrolling p again is refused with p's entry gone from the shared map. */
  lemma RefusedReplacementDropsEntry(p: Profile, o: Profile, parse: Parser)
    requires Validate(p, parse) && Validate(o, parse) && o.ip == p.ip
    ensures Edited(HandWritten(o) + "\n" + Block(p), map[PeerName(p) := Entry(p)], p.serverPublicKey, p, false, parse)
         == (Err(AddressCollision), map[])
  {
    var a, peers := HandWritten(o), map[PeerName(p) := Entry(p)];
    MarkersOf(p.name);
    HandWrittenIsUnmarked(o, Begin(p.name));
    HandWrittenIsUnmarked(o, End(p.name));
    WithdrawBlock(a, p, "", peers, p);
    assert a + "\n" + Block(p) + "" == a + "\n" + Block(p) && a + "\n" + "" == a + "\n";
    HandWrittenIsSeen(o, parse);
    assert peers - {PeerName(p)} == map[];
  }
}
