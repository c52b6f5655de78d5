/** Endpoint selection: the use-evidence-once health test and the bounded rotation of
    internal/discovery/selection.go, and the candidates of mobile/controller.go. */
module Selection {
  import opened NetAddr

  const FRESH_WINDOW := 300  // seconds
  const MAX_CANDIDATES := 4
  const WRAP := 0x1_0000_0000_0000_0000

  type uint64 = x: int | 0 <= x < WRAP

  /** discovery.Health; a zero handshake time is None. */
  datatype Health = Health(endpoint: string, handshake: Option<int>, received: uint64)

  datatype Memory = Memory(received: uint64, handshake: Option<int>, observed: bool, next: uint64)

  const NEW := Memory(0, None, false, 0)

  /** h.Handshake.After(previous), the zero time lying before every other. */
  predicate After(h: Option<int>, previous: Option<int>) {
    h.Some? && (previous.None? || h.value > previous.value)
  }

  predicate IsWorking(m: Memory, h: Health, now: int) {
    var past := h.handshake.Some? && h.handshake.value <= now;
    var recent := past && now - h.handshake.value < FRESH_WINDOW;
    var handshook := recent && (!m.observed || After(h.handshake, m.handshake));
    var advanced := m.observed && h.received > m.received;
    h.endpoint != "" && past && (handshook || advanced)
  }

  function Observe(m: Memory, h: Health): Memory {
    m.(received := h.received, handshake := h.handshake, observed := true)
  }

  /** The list that Next rotates over. */
  function Bounded(endpoints: seq<string>): (r: seq<string>)
    ensures |r| <= MAX_CANDIDATES && r <= endpoints
  {
    if |endpoints| > MAX_CANDIDATES then endpoints[..MAX_CANDIDATES] else endpoints
  }

  class Selector {
    var received: uint64
    var handshake: Option<int>
    var observed: bool
    var next: uint64

    ghost function View(): Memory
      reads this
    {
      Memory(received, handshake, observed, next)
    }

    constructor ()
      ensures View() == NEW
    {
      received, handshake, observed, next := 0, None, false, 0;
    }

    method Working(h: Health, now: int) returns (working: bool)
      modifies this
      ensures working <==> IsWorking(old(View()), h, now)
      ensures View() == Observe(old(View()), h)
    {
      var past := h.handshake.Some? && h.handshake.value <= now;
      var recent := past && now - h.handshake.value < FRESH_WINDOW;
      var handshook := recent && (!observed || After(h.handshake, handshake));
      var advanced := observed && h.received > received;
      received := h.received;
      handshake := h.handshake;
      observed := true;
      return h.endpoint != "" && past && (handshook || advanced);
    }

    method Next(endpoints: seq<string>) returns (ep: string)
      modifies this
      ensures endpoints == [] ==> ep == "" && View() == old(View())
      ensures endpoints != [] ==>
        && ep == Bounded(endpoints)[old(next) % |Bounded(endpoints)|]
        && View() == old(View()).(next := (old(next) + 1) % WRAP)
    {
      if |endpoints| == 0 {
        return "";
      }
      var list := endpoints;
      if |list| > MAX_CANDIDATES {
        list := list[..MAX_CANDIDATES];
      }
      ep := list[next % |list|];
      next := (next + 1) % WRAP;
    }

    method Reset(h: Health)
      modifies this
      ensures View() == Observe(old(View()), h).(next := 0)
    {
      next := 0;
      received := h.received;
      handshake := h.handshake;
      observed := true;
    }
  }

  // ---------------------------------------------------------------- evidence is used once

  /** A call of Working or of Reset. */
  datatype Event = Sample(health: Health, now: int) | ResetTo(health: Health)

  function AfterEvent(m: Memory, e: Event): Memory {
    match e
    case Sample(h, _) => Observe(m, h)
    case ResetTo(h) => Observe(m, h).(next := 0)
  }

  predicate SaysWorking(m: Memory, e: Event) {
    e.Sample? && IsWorking(m, e.health, e.now)
  }

  /** How many calls of Working return true. */
  function WorkingCount(m: Memory, events: seq<Event>): nat
    decreases |events|
  {
    if events == [] then 0
    else (if SaysWorking(m, events[0]) then 1 else 0) + WorkingCount(AfterEvent(m, events[0]), events[1..])
  }

  /** How often the handshake time, or the received count, is larger than one event earlier. */
  function HandshakeAdvances(events: seq<Event>): nat {
    if |events| < 2 then 0
    else (if After(events[1].health.handshake, events[0].health.handshake) then 1 else 0) + HandshakeAdvances(events[1..])
  }

  function ReceiveAdvances(events: seq<Event>): nat {
    if |events| < 2 then 0
    else (if events[1].health.received > events[0].health.received then 1 else 0) + ReceiveAdvances(events[1..])
  }

  /** After the first observation, a true result needs new evidence relative to the event before. */
  lemma WorkingNeedsNewEvidence(m: Memory, previous: Event, h: Health, now: int)
    requires IsWorking(AfterEvent(m, previous), h, now)
    ensures After(h.handshake, previous.health.handshake) || h.received > previous.health.received
  {}

  lemma {:induction false} EvidenceAfter(m: Memory, previous: Event, events: seq<Event>)
    ensures WorkingCount(AfterEvent(m, previous), events)
      <= HandshakeAdvances([previous] + events) + ReceiveAdvances([previous] + events)
    decreases |events|
  {
    if events != [] {
      var all := [previous] + events;
      assert all[1..] == events && events == [events[0]] + events[1..];
      EvidenceAfter(AfterEvent(m, previous), events[0], events[1..]);
      if SaysWorking(AfterEvent(m, previous), events[0]) {
        WorkingNeedsNewEvidence(m, previous, events[0].health, events[0].now);
      }
    }
  }

  /** Over any run of samples and resets, the true results are paid for by advances, but for one. */
  lemma EvidenceIsUsedOnce(events: seq<Event>)
    ensures WorkingCount(NEW, events) <= 1 + HandshakeAdvances(events) + ReceiveAdvances(events)
  {
    if events != [] {
      EvidenceAfter(NEW, events[0], events[1..]);
      assert [events[0]] + events[1..] == events;
    }
  }

  /** Evidence from before a reset never counts again. */
  lemma ResetForgets(m: Memory, h: Health, now: int)
    ensures !IsWorking(AfterEvent(m, ResetTo(h)), h, now)
  {}

  function MemoryAfter(events: seq<Event>): Memory {
    if events == [] then NEW else AfterEvent(MemoryAfter(events[..|events| - 1]), events[|events| - 1])
  }

  lemma MemoryIsLastEvent(events: seq<Event>)
    requires events != []
    ensures
      var m, h := MemoryAfter(events), events[|events| - 1].health;
      m.observed && m.handshake == h.handshake && m.received == h.received
  {}

  /** What the i-th event of any list says, if it is a sample: the peer has an endpoint and a handshake
      that is not in the future, and either the handshake is less than 300 seconds old and newer than
      the event before reported, or more was received than the event before reported. The first
      event has nothing before it, so only a recent handshake counts. */
  lemma SampleExactly(events: seq<Event>, i: nat)
    requires i < |events| && events[i].Sample?
    ensures
      var h, now := events[i].health, events[i].now;
      IsWorking(MemoryAfter(events[..i]), h, now) <==>
        && h.endpoint != "" && h.handshake.Some? && h.handshake.value <= now
        && (if i == 0 then now - h.handshake.value < 300
            else
              var before := events[i - 1].health;
              || (now - h.handshake.value < 300 && (before.handshake.None? || h.handshake.value > before.handshake.value))
              || h.received > before.received)
  {
    if i > 0 {
      MemoryIsLastEvent(events[..i]);
      assert events[..i][i - 1] == events[i - 1];
    }
  }

  // ---------------------------------------------------------------- fair rotation

  /** The counter after k calls of Next on a non-empty list. */
  function CounterAfter(next: uint64, k: nat): uint64 {
    (next + k) % WRAP
  }

  /** The index that the k-th of several calls on a list of n candidates picks. */
  function Pick(next: uint64, k: nat, n: nat): nat
    requires n > 0
  {
    CounterAfter(next, k) % n
  }

  ghost predicate Picked(next: uint64, n: nat, c: nat)
    requires n > 0
  {
    exists k :: 0 <= k < n && Pick(next, k, n) == c
  }

  /** n consecutive calls pick every one of the n candidates, each exactly once. */
  ghost predicate Fair(next: uint64, n: nat)
    requires n > 0
  {
    && (forall k, k' :: 0 <= k < k' < n ==> Pick(next, k, n) != Pick(next, k', n))
    && (forall c :: 0 <= c < n ==> Picked(next, n, c))
  }

  lemma PickWithoutWrap(next: uint64, k: nat, n: nat)
    requires 0 < n <= MAX_CANDIDATES && k < n && next + k < WRAP
    ensures Pick(next, k, n) == (if next % n + k < n then next % n + k else next % n + k - n)
  {
    assert CounterAfter(next, k) == next + k;
    RemainderSteps(next, k, n);
  }

  lemma RemainderSteps(x: nat, k: nat, n: nat)
    requires 0 < n <= MAX_CANDIDATES && k < n
    ensures (x + k) % n == (if x % n + k < n then x % n + k else x % n + k - n)
  {
    if n == 1 {
    } else if n == 2 {
    } else if n == 3 {
    } else {
      assert n == 4;
    }
  }

  lemma PickAcrossWrap(next: uint64, k: nat, n: nat)
    requires 0 < n <= MAX_CANDIDATES && k < n && next + k >= WRAP
    ensures Pick(next, k, n) == (next + k - WRAP) % n
  {}

  /** Rotation is fair for every counter value, except that three candidates lose fairness in the
      window that crosses the 64-bit wrap. */
  lemma FairExactly(next: uint64, n: nat)
    requires 0 < n <= MAX_CANDIDATES
    ensures Fair(next, n) <==> n != 3 || next + n <= WRAP
  {
    if n == 3 && next + n > WRAP {
      assert WRAP % 3 == 1;
      if next == WRAP - 1 {
        assert Pick(next, 0, 3) == 0 && Pick(next, 1, 3) == 0;
      } else {
        assert Pick(next, 1, 3) == 0 && Pick(next, 2, 3) == 0;
      }
    } else {
      FairWhen(next, n);
    }
  }

  lemma FairWhen(next: uint64, n: nat)
    requires 0 < n <= MAX_CANDIDATES && (n != 3 || next + n <= WRAP)
    ensures Fair(next, n)
  {
    var r := next % n;
    forall k | 0 <= k < n ensures Pick(next, k, n) == (if r + k < n then r + k else r + k - n) {
      if next + k < WRAP {
        PickWithoutWrap(next, k, n);
      } else {
        PickAcrossWrap(next, k, n);
      }
    }
    forall c | 0 <= c < n ensures Picked(next, n, c) {
      var k := if c >= r then c - r else c - r + n;
      assert Pick(next, k, n) == c;
    }
  }

  // ---------------------------------------------------------------- recovery candidates

  /** The endpoint a stored record yields, if it decodes, matches the protocol and is allowed. */
  type Hints = seq<Option<string>>

  /** The first candidates of a list, without empty ones and repeats, four at most. */
  function FirstDistinct(eps: seq<string>, chosen: seq<string>): (r: seq<string>)
    requires |chosen| <= MAX_CANDIDATES
    ensures |r| <= MAX_CANDIDATES && chosen <= r
    decreases |eps|
  {
    if eps == [] then chosen else FirstDistinct(eps[1..], Add(chosen, eps[0]))
  }

  /** One more candidate, unless it is empty, known or one too many. */
  function Add(chosen: seq<string>, ep: string): seq<string> {
    if ep != "" && ep !in chosen && |chosen| < MAX_CANDIDATES then chosen + [ep] else chosen
  }

  function Usable(hints: Hints): seq<string> {
    if hints == [] then [] else (if hints[0].Some? then [hints[0].value] else []) + Usable(hints[1..])
  }

  ghost predicate Distinct(eps: seq<string>) {
    forall i, j :: 0 <= i < j < |eps| ==> eps[i] != eps[j]
  }

  /** What one more hint adds. */
  lemma NextHint(hints: Hints, i: nat, endpoints: seq<string>)
    requires i < |hints| && |endpoints| <= MAX_CANDIDATES
    ensures FirstDistinct(Usable(hints[i..]), endpoints)
         == FirstDistinct(Usable(hints[i + 1..]), if hints[i].Some? then Add(endpoints, hints[i].value) else endpoints)
  {
    assert hints[i..][1..] == hints[i + 1..];
    if hints[i].Some? {
      FirstOf(hints[i].value, Usable(hints[i + 1..]), endpoints);
    } else {
      assert Usable(hints[i..]) == Usable(hints[i + 1..]);
    }
  }

  lemma FirstOf(ep: string, rest: seq<string>, chosen: seq<string>)
    requires |chosen| <= MAX_CANDIDATES
    ensures FirstDistinct([ep] + rest, chosen) == FirstDistinct(rest, Add(chosen, ep))
  {
    assert ([ep] + rest)[1..] == rest;
  }

  /** recoveryCandidates: the bootstrap, then the usable hints. */
  method RecoveryCandidates(bootstrap: string, hints: Hints) returns (endpoints: seq<string>)
    ensures endpoints == Candidates(bootstrap, hints)
  {
    endpoints := [];
    var seen := {};
    if bootstrap != "" {
      endpoints := [bootstrap];
      seen := {bootstrap};
    }
    var i := 0;
    ghost var all := FirstDistinct([bootstrap] + Usable(hints), []);
    FirstOf(bootstrap, Usable(hints), []);
    assert [] + [bootstrap] == [bootstrap] && hints[0..] == hints;
    while i < |hints|
      invariant 0 <= i <= |hints| && |endpoints| <= MAX_CANDIDATES
      invariant forall ep :: ep in seen <==> ep in endpoints
      invariant FirstDistinct(Usable(hints[i..]), endpoints) == all
    {
      if |endpoints| == MAX_CANDIDATES {
        FullStays(Usable(hints[i..]), endpoints);
        return;
      }
      NextHint(hints, i, endpoints);
      if hints[i].Some? {
        if hints[i].value != "" && hints[i].value !in seen && |endpoints| < MAX_CANDIDATES {
          endpoints := endpoints + [hints[i].value];
          seen := seen + {hints[i].value};
        }
      }
      i := i + 1;
    }
  }

  lemma {:induction false} FullStays(eps: seq<string>, chosen: seq<string>)
    requires |chosen| == MAX_CANDIDATES
    ensures FirstDistinct(eps, chosen) == chosen
    decreases |eps|
  {
    if eps != [] {
      FullStays(eps[1..], chosen);
    }
  }

  /** What the candidate list is: distinct, non-empty, drawn from the input, and short of four it
      misses nothing. */
  lemma {:induction false} CandidatesMeaning(eps: seq<string>, chosen: seq<string>)
    requires |chosen| <= MAX_CANDIDATES && Distinct(chosen) && "" !in chosen
    ensures
      var r := FirstDistinct(eps, chosen);
      && Distinct(r) && "" !in r
      && (forall ep :: ep in r ==> ep in chosen || ep in eps)
      && |r| <= 4 && (|r| < 4 ==> forall ep :: ep in eps && ep != "" ==> ep in r)
    decreases |eps|
  {
    if eps != [] {
      var next := Add(chosen, eps[0]);
      AddMeaning(chosen, eps[0]);
      CandidatesMeaning(eps[1..], next);
      assert forall ep :: ep in eps <==> ep == eps[0] || ep in eps[1..];
      assert forall ep :: ep in next ==> ep in FirstDistinct(eps, chosen);
    }
  }

  lemma AddMeaning(chosen: seq<string>, ep: string)
    requires Distinct(chosen) && "" !in chosen
    ensures Distinct(Add(chosen, ep)) && "" !in Add(chosen, ep)
    ensures forall e :: e in Add(chosen, ep) ==> e in chosen || e == ep
    ensures ep != "" && |chosen| < MAX_CANDIDATES ==> ep in Add(chosen, ep)
  {}

  /** The first place of an endpoint in a list, or its length. */
  function FirstAt(eps: seq<string>, ep: string): nat {
    if eps == [] || eps[0] == ep then 0 else 1 + FirstAt(eps[1..], ep)
  }

  lemma {:induction false} FirstAtIs(eps: seq<string>, ep: string)
    ensures ep in eps <==> FirstAt(eps, ep) < |eps|
    ensures ep in eps ==> eps[FirstAt(eps, ep)] == ep
    decreases |eps|
  {
    if eps != [] && eps[0] != ep {
      FirstAtIs(eps[1..], ep);
    }
  }

  /** Candidates come in the order in which they first occur, and what is left out of a full list comes
      after all of it. */
  ghost predicate InOrder(eps: seq<string>, r: seq<string>) {
    && (forall i, j :: 0 <= i < j < |r| ==> FirstAt(eps, r[i]) < FirstAt(eps, r[j]))
    && (forall ep, i :: ep in eps && ep != "" && ep !in r && 0 <= i < |r| ==> FirstAt(eps, r[i]) < FirstAt(eps, ep))
  }

  lemma {:induction false} FirstAtLast(eps: seq<string>, e: string, ep: string)
    ensures FirstAt(eps + [e], ep) == if ep in eps then FirstAt(eps, ep) else if ep == e then |eps| else |eps| + 1
    decreases |eps|
  {
    if eps != [] && eps[0] != ep {
      assert (eps + [e])[1..] == eps[1..] + [e];
      FirstAtLast(eps[1..], e, ep);
    }
  }

  lemma {:induction false} FirstDistinctLast(eps: seq<string>, e: string, chosen: seq<string>)
    requires |chosen| <= MAX_CANDIDATES
    ensures FirstDistinct(eps + [e], chosen) == Add(FirstDistinct(eps, chosen), e)
    decreases |eps|
  {
    if eps == [] {
      FirstOf(e, [], chosen);
      assert [] + [e] == [e] + [];
    } else {
      assert (eps + [e])[1..] == eps[1..] + [e];
      FirstDistinctLast(eps[1..], e, Add(chosen, eps[0]));
    }
  }

  lemma {:induction false} CandidatesInOrder(eps: seq<string>)
    ensures InOrder(eps, FirstDistinct(eps, []))
    decreases |eps|
  {
    if eps != [] {
      var front, e := eps[..|eps| - 1], eps[|eps| - 1];
      var r := FirstDistinct(front, []);
      assert eps == front + [e];
      CandidatesInOrder(front);
      CandidatesMeaning(front, []);
      FirstDistinctLast(front, e, []);
      OrderKept(front, e, r);
    }
  }

  lemma OrderKept(eps: seq<string>, e: string, r: seq<string>)
    requires InOrder(eps, r) && (forall ep :: ep in r ==> ep in eps)
    requires |r| < MAX_CANDIDATES ==> forall ep :: ep in eps && ep != "" ==> ep in r
    ensures InOrder(eps + [e], Add(r, e))
  {
    forall ep | ep in eps ensures FirstAt(eps + [e], ep) == FirstAt(eps, ep) < |eps| {
      FirstAtLast(eps, e, ep);
      FirstAtIs(eps, ep);
    }
    if Add(r, e) == r {
      if e !in eps {
        FirstAtLast(eps, e, e);
      }
    } else {
      assert e !in eps by {
        assert e in eps ==> e in r;
      }
      FirstAtLast(eps, e, e);
      var all := eps + [e];
      NewLast(ep => FirstAt(all, ep), |eps|, e, r);
    }
  }

  /** A new last entry whose place lies behind all the others. */
  lemma NewLast(place: string -> nat, n: nat, e: string, r: seq<string>)
    requires (forall i, j :: 0 <= i < j < |r| ==> place(r[i]) < place(r[j])) && place(e) == n
    requires forall i :: 0 <= i < |r| ==> place(r[i]) < n
    ensures forall i, j :: 0 <= i < j < |r + [e]| ==> place((r + [e])[i]) < place((r + [e])[j])
  {}

  lemma BootstrapFirst(bootstrap: string, hints: Hints)
    requires bootstrap != ""
    ensures Candidates(bootstrap, hints) != [] && Candidates(bootstrap, hints)[0] == bootstrap
  {
    FirstOf(bootstrap, Usable(hints), []);
    assert Add([], bootstrap) == [bootstrap];
  }

  // ---------------------------------------------------------------- passes of the discovery loop

  /** One pass over a peer: the sampled health, the time and the hints that the store returned. */
  datatype Pass = Pass(health: Health, now: int, hints: Hints)

  function Candidates(bootstrap: string, hints: Hints): (list: seq<string>)
    ensures |list| <= MAX_CANDIDATES
  {
    FirstDistinct([bootstrap] + Usable(hints), [])
  }

  /** A pass that does not find the peer working tries one candidate. */
  predicate Tries(m: Memory, bootstrap: string, p: Pass) {
    !IsWorking(m, p.health, p.now) && Candidates(bootstrap, p.hints) != []
  }

  function AfterPass(m: Memory, bootstrap: string, p: Pass): Memory {
    var seen := Observe(m, p.health);
    if Tries(m, bootstrap, p) then seen.(next := (m.next + 1) % WRAP) else seen
  }

  function TriedBy(m: Memory, bootstrap: string, p: Pass): string
    requires Tries(m, bootstrap, p)
  {
    var list := Candidates(bootstrap, p.hints);
    list[m.next % |list|]
  }

  /** The part of establish that follows the choice of the peer's store. */
  method RunPass(selection: Selector, bootstrap: string, p: Pass) returns (tried: Option<string>)
    modifies selection
    ensures selection.View() == AfterPass(old(selection.View()), bootstrap, p)
    ensures tried.Some? <==> Tries(old(selection.View()), bootstrap, p)
    ensures tried.Some? ==> tried.value == TriedBy(old(selection.View()), bootstrap, p)
  {
    var working := selection.Working(p.health, p.now);
    if working {
      return None;
    }
    var endpoints := RecoveryCandidates(bootstrap, p.hints);
    var endpoint := selection.Next(endpoints);
    NoEmptyCandidate(bootstrap, p.hints);
    return if endpoint == "" then None else Some(endpoint);
  }

  lemma NoEmptyCandidate(bootstrap: string, hints: Hints)
    ensures forall i :: 0 <= i < |Candidates(bootstrap, hints)| ==> Candidates(bootstrap, hints)[i] != ""
  {
    CandidatesMeaning([bootstrap] + Usable(hints), []);
  }

  /** The candidates that a sequence of passes tries; working passes may come in between. */
  function Tried(m: Memory, bootstrap: string, passes: seq<Pass>): seq<string>
    decreases |passes|
  {
    if passes == [] then []
    else
      (if Tries(m, bootstrap, passes[0]) then [TriedBy(m, bootstrap, passes[0])] else [])
      + Tried(AfterPass(m, bootstrap, passes[0]), bootstrap, passes[1..])
  }

  /** The candidate list stays the same, whatever the records are. */
  ghost predicate Unchanged(bootstrap: string, passes: seq<Pass>, list: seq<string>) {
    forall i :: 0 <= i < |passes| ==> Candidates(bootstrap, passes[i].hints) == list
  }

  lemma CounterSteps(next: uint64, k: nat)
    ensures CounterAfter((next + 1) % WRAP, k) == CounterAfter(next, k + 1)
  {
    if next + 1 == WRAP {
      assert next + 1 + k == WRAP + k;
    }
  }

  /** The k-th try, counted over not-working passes only, is the one the counter has come to. */
  lemma {:induction false} TriedInOrder(m: Memory, bootstrap: string, passes: seq<Pass>, list: seq<string>, k: nat)
    requires list != [] && Unchanged(bootstrap, passes, list) && k < |Tried(m, bootstrap, passes)|
    ensures Tried(m, bootstrap, passes)[k] == list[Pick(m.next, k, |list|)]
    decreases |passes|
  {
    var p, rest := passes[0], passes[1..];
    var after := AfterPass(m, bootstrap, p);
    assert Candidates(bootstrap, p.hints) == list && Unchanged(bootstrap, rest, list);
    if !Tries(m, bootstrap, p) {
      TriedInOrder(after, bootstrap, rest, list, k);
    } else if k > 0 {
      TriedInOrder(after, bootstrap, rest, list, k - 1);
      CounterSteps(m.next, k - 1);
      PickAfter(m.next, k - 1, |list|);
    }
  }

  lemma PickAfter(next: uint64, k: nat, n: nat)
    requires n > 0 && CounterAfter((next + 1) % WRAP, k) == CounterAfter(next, k + 1)
    ensures Pick((next + 1) % WRAP, k, n) == Pick(next, k + 1, n)
  {}

  ghost predicate TriedOnce(tried: seq<string>, ep: string) {
    exists k :: 0 <= k < |tried| && tried[k] == ep && (forall j :: 0 <= j < |tried| && j != k ==> tried[j] != ep)
  }

  ghost predicate EachOnce(tried: seq<string>, list: seq<string>) {
    forall ep :: ep in list ==> TriedOnce(tried, ep)
  }

  /** In index terms: the picks hit every place once. */
  lemma EachOnceIsFair(next: uint64, list: seq<string>, tried: seq<string>)
    requires 0 < |list| == |tried| && Distinct(list)
    requires forall k :: 0 <= k < |list| ==> tried[k] == list[Pick(next, k, |list|)]
    ensures EachOnce(tried, list) <==> Fair(next, |list|)
  {
    var n := |list|;
    if Fair(next, n) {
      forall ep | ep in list ensures TriedOnce(tried, ep) {
        var c :| 0 <= c < n && list[c] == ep;
        assert Picked(next, n, c);
        var k :| 0 <= k < n && Pick(next, k, n) == c;
        forall j | 0 <= j < n && j != k ensures tried[j] != ep {
          assert Pick(next, j, n) != Pick(next, k, n);
        }
      }
    }
    if EachOnce(tried, list) {
      forall c | 0 <= c < n ensures Picked(next, n, c) {
        assert TriedOnce(tried, list[c]);
        var k :| 0 <= k < n && tried[k] == list[c];
        assert Pick(next, k, n) == c;
      }
      forall k, j | 0 <= k < j < n ensures Pick(next, k, n) != Pick(next, j, n) {
        assert tried[k] in list && TriedOnce(tried, tried[k]);
      }
    }
  }

  /** Passes over an unchanged list of n candidates, n of them not working: each candidate is tried
      exactly once, unless three candidates straddle the counter's wrap. */
  lemma FairRecovery(m: Memory, bootstrap: string, passes: seq<Pass>, list: seq<string>)
    requires list != [] && Unchanged(bootstrap, passes, list) && |Tried(m, bootstrap, passes)| == |list|
    ensures |list| <= 4 && Distinct(list) && (bootstrap != "" ==> list[0] == bootstrap)
    ensures EachOnce(Tried(m, bootstrap, passes), list) <==> |list| != 3 || m.next + |list| <= WRAP
  {
    assert passes != [];
    assert Candidates(bootstrap, passes[0].hints) == list;
    CandidatesMeaning([bootstrap] + Usable(passes[0].hints), []);
    if bootstrap != "" {
      BootstrapFirst(bootstrap, passes[0].hints);
    }
    forall k | 0 <= k < |list| ensures Tried(m, bootstrap, passes)[k] == list[Pick(m.next, k, |list|)] {
      TriedInOrder(m, bootstrap, passes, list, k);
    }
    EachOnceIsFair(m.next, list, Tried(m, bootstrap, passes));
    FairExactly(m.next, |list|);
  }

  /** After a network reset, the first pass that tries anything tries the configured bootstrap,
      whatever the lists are. */
  lemma {:induction false} ResetTriesBootstrap(m: Memory, bootstrap: string, passes: seq<Pass>)
    requires bootstrap != "" && m.next == 0 && Tried(m, bootstrap, passes) != []
    ensures Tried(m, bootstrap, passes)[0] == bootstrap
    decreases |passes|
  {
    BootstrapFirst(bootstrap, passes[0].hints);
    if !Tries(m, bootstrap, passes[0]) {
      ResetTriesBootstrap(AfterPass(m, bootstrap, passes[0]), bootstrap, passes[1..]);
    }
  }
}
