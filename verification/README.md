# stunmesh-go in Dafny

stunmesh-go finds the public endpoints of WireGuard peers over STUN and feeds them to WireGuard. This
project models the logic below its I/O and proves what that logic is for: over every packet, every input
text, every list of routes and every interleaving of the goroutines involved.

`dafny verify dfyconfig.toml` checks everything. The modules, one per component:

| module | component |
|---|---|
| `NetAddr`, `NetPrefix` | addresses, endpoints, prefixes, bit arithmetic on numbers |
| `StunWire`, `StunRoundTrip` | the STUN binding codec, and an encoder with a mask of its own |
| `StunFormat`, `StunMeaning` | the layout of the messages by byte position and bit, and the codec measured against it |
| `TxnRegistry`, `Exchange`, `MobileRegistry` | the two transaction registries and the calls that wait on them |
| `Demux`, `ProxyRelay`, `ProxyShutdown`, `ProxyManager` | the UDP proxy |
| `WakeUp` | the mobile discovery loop against `networkChanged` |
| `EstablishQueue`, `AppLifecycle` | work queue and admission protocols |
| `PingRetry`, `PingTimeout`, `Selection` | retry, time-out and endpoint health state machines |
| `TextSearch`, `RouteText`, `ServerEdit`, `ManagedBlocks`, `EnrolRevoke`, `ServerRuns`, `ServerReadBack` | enrolment and revocation as an edit of configuration text |
| `JsonCheck` | the pre-check of configuration JSON |
| `ServiceRoutes`, `CoveringRoutes`, `PhoneAddress` | route limits, covering routes, address allocation |

How the source's form is kept:

- A concurrent protocol is a transition system: a `State` datatype with program counters, locks, channels
  and counters, a `Next` relation with one atomic step per critical section or channel operation, and
  `IsRun` for its runs. Every main result quantifies over all runs; any number of callers may take part.
- An object that updates its fields is a class whose methods are proved against specification functions
  (`AfterProgram`, `Edited`, `AfterFailure`, ...); the properties are lemmas about those functions.
- What a result rests on is stated without the function it is about: messages by byte and bit, addresses as
  numeric ranges, the route expression as a relation, configuration files as a reader with its own key
  words finds them. A protocol has progress results beside its safety results.
- A loop is a loop: the shrinking attribute slice, the in-place XOR, the two-flag route scan, the nested
  search of the allocator, the recursive descent over a stateful token stream.

## Findings

Places where the code differs from its comments or from what one would expect of it. The model follows
the code, and each has a lemma.

- The proxy's registry lets binding error responses past its type test but can never deliver one, since
  the parser accepts success responses only (`TxnRegistry.ErrorResponsesDropped`).
- Section 14.1 of RFC 8489 says that the first byte of an address value is ignored; the decoder rejects a
  value whose first byte is not zero. `StunRoundTrip.EncodeDecodeAddress` pins the code's rule.
- The mobile registry overwrites a transaction with the same ID, which starves the first waiter
  (`MobileRegistry.SharedIDLosesReplies`), and the clean-up of either call removes the other's entry. A
  call keeps its entry exactly as long as no other call with its ID registers or cleans up
  (`MobileRegistry.OwnedExactly`), and until then it misses no reply
  (`MobileRegistry.UndisturbedWaiterMissesNothing`).
- The comment above the mobile STUN test says that WireGuard packets fail on the cookie. What excludes
  them is the length field (`MobileRegistry.WireGuardIsNotSTUN`).
- Each ping overwrites the previous send time, so failures are hidden while pings leave at most one
  time-out apart, whatever the peer does: a run with gaps up to g can report one exactly when g exceeds
  the time-out (`PingTimeout.ReportableExactly`). The defaults put both at one second, so what the
  monitor reports then hangs on how late its ticker is.
- Rotation over candidates is fair at every counter value except with three candidates while the 64-bit
  counter wraps (`Selection.FairExactly`).
- Covering-route detection answers yes exactly when tunnel routes of at most one bit cover every address
  (`CoveringRoutes.CoversExactly`); four /2 routes cover everything unnoticed
  (`CoveringRoutes.QuartersGoUnnoticed`).
- Enrolment on a file that stops right before the line end of one of the profile's own marker lines
  succeeds and can then neither be revoked nor repeated (`EnrolRevoke.UnterminatedMarkerBlocksRevoke`);
  `EnrolRevoke.EnrolThenRevoke` shows that this is the only such case.
- The comment on `Edited` says that it never changes the server. A replacement that is refused for its
  address or identity has already deleted the peer's entry from the map it shares with the caller
  (`EnrolRevoke.FailedEditKeepsPeers`, with an input in `EnrolRevoke.RefusedReplacementDropsEntry`).

## Model

| member | source | states |
|---|---|---|
| `StunWire.XorInvolution` | internal/stunwire/stun.go:107-126 | Masking address bytes twice with the same mask gives them back, for any bytes and mask. |
| `StunWire.DecodeAddressInPlace` | internal/stunwire/stun.go:90-139 | The decoder that unmasks a copy of the raw address in place returns what the address grammar says, error cases included. |
| `StunWire.ParseResponse` | internal/stunwire/stun.go:46-88 | The loop that shrinks the attribute slice computes the recursive reading of the attribute list, for every message; every slice it takes is in bounds. |
| `StunRoundTrip.DecodeEncodeAddress` | internal/stunwire/stun.go:90-139 | Decoding the encoding of any acceptable IPv4 or IPv6 endpoint, masked or plain, gives the endpoint. |
| `StunRoundTrip.EncodeDecodeAddress` | internal/stunwire/stun.go:90-139 | Whatever value decodes to an endpoint is the encoding of that endpoint: there is exactly one value per endpoint, and the endpoint is acceptable. |
| `StunRoundTrip.ParseOfEncoding` | internal/stunwire/stun.go:52-80 | Parsing the padded bytes of any attribute list is folding over the list. |
| `StunRoundTrip.BytesAreAttrs` | internal/stunwire/stun.go:52-80 | Attribute bytes the loop gets through are the encoding of some attribute list. |
| `StunRoundTrip.TakeAllMeaning` | internal/stunwire/stun.go:62-78 | The fold accepts exactly the lists without repeated or undecodable address attributes, and leaves behind exactly the addresses they carry. |
| `StunRoundTrip.AcceptedExactly` | internal/stunwire/stun.go:24-139 | The parser returns an endpoint if and only if the message encodes some consistent attribute list that reports it. |
| `StunRoundTrip.RoundTrip` | internal/stunwire/stun.go:46-139 | An endpoint encoded anywhere among any other attributes, of any lengths and padding, is what the parser returns. |
| `StunRoundTrip.XorWins` | internal/stunwire/stun.go:81-87 | With both kinds of address present the XOR one is returned, whatever their order. |
| `StunRoundTrip.DuplicatesRejected` | internal/stunwire/stun.go:67-77 | A message that repeats an address attribute of one kind is never accepted. |
| `StunRoundTrip.NeverTruncatedHeader` | internal/stunwire/stun.go:52-55 | The branch for fewer than four bytes left is unreachable. |
| `StunRoundTrip.ParsedIsAcceptable` | internal/stunwire/stun.go:131-138 | Every endpoint returned has a port and a global unicast address that is not a mapped one. |
| `StunRoundTrip.BuildRequest` | internal/stunwire/stun.go:33-44 | The filled buffer is the encoding of an attribute-free binding request with the given transaction ID. |
| `StunRoundTrip.RequestIsNoResponse` | internal/stunwire/stun.go:33-44 | A request is recognised as STUN of its own transaction and never parses as a response, under any ID. |
| `StunFormat.XorExactly` | internal/stunwire/stun.go:107-126 | The exclusive or used is the bitwise one: a number is it exactly when each of its bits differs as the operands' bits do. |
| `StunMeaning.AcceptableExactly` | internal/stunwire/stun.go:131-138 | The endpoints let through are those with a port whose address lies outside the listed IPv4 and IPv6 ranges, as numbers. |
| `StunMeaning.DecodesExactly` | internal/stunwire/stun.go:90-139 | The decoder returns an endpoint if and only if, bit by bit, each address byte is the value's byte exclusive-or 21 12 A4 42 and then the transaction ID, and the port is the wire field exclusive-or 0x2112; or the plain bytes. |
| `StunMeaning.RecognisedExactly` | internal/stunwire/stun.go:24-26 | Recognised are exactly the packets of 20 to 2048 bytes in whole words with two leading zero bits, a right length field and the cookie at bytes 4 to 7. |
| `StunMeaning.AcceptedByFormat` | internal/stunwire/stun.go:24-139 | The parser returns an endpoint if and only if the bytes are a binding success of the transaction, laid out attribute by attribute, whose address attributes are sane and report that endpoint. |
| `TxnRegistry.Transactions.Register` | internal/wgproxy/demux.go:74-86 | Refuses a pending ID without any change; otherwise adds the normalized server with a new, empty one-slot channel. |
| `TxnRegistry.Transactions.Unregister` | internal/wgproxy/demux.go:89-93 | Removes the transaction and touches no channel. |
| `TxnRegistry.Transactions.Route` | internal/wgproxy/demux.go:96-122 | Delivers into the empty slot of the packet's target only, and reports true exactly when a slot changed. |
| `TxnRegistry.TargetExactly` | internal/wgproxy/demux.go:96-122 | A packet is offered to a channel if and only if it comes from the server registered with it and parses under the registered ID. |
| `TxnRegistry.ErrorResponsesDropped` | internal/wgproxy/demux.go:97-112 | An error response changes nothing in any registry. |
| `TxnRegistry.ValidReplyIsShaped` | internal/wgproxy/demux.go:183-189 | The classifier withholds no valid reply from the registry. |
| `Exchange.ArrivalAtSlot` | internal/wgproxy/demux.go:96-122 | An arrival fills a registered call's slot exactly when the slot is empty and the packet is a valid reply to that call; otherwise the slot stays as it is. |
| `Exchange.RunInv` | internal/wgproxy/proxy.go:242-267 | In every reachable state each registered call's slot holds exactly the first valid reply since its registration. |
| `Exchange.ExchangeReturnsFirstValidReply` | internal/stun/proxy_client.go:103-112 | In every interleaving the returned bytes are the first packet since registration from the registered server that parses under the registered ID, and the caller's own parse of them succeeds with an acceptable endpoint. |
| `Exchange.AnsweredWaiterCanReceive` | internal/wgproxy/proxy.go:242-267 | Once a valid reply has arrived, a waiting call has it ready: invalid packets, other transactions and other calls' clean-up never cost it. |
| `Exchange.RefusedExactly` | internal/wgproxy/proxy.go:247-251 | In every run a call is refused its ID if and only if another call that has not cleaned up uses it: no entry is left behind. |
| `Exchange.ReadyReplyIsReturned` | internal/wgproxy/proxy.go:259-262 | A reply that is ready is returned by the call's next two steps. |
| `MobileRegistry.DiscoverReturnsGenuineReply` | internal/mobilebind/demux.go:65-103 | Although the send happens after unlocking, what a call returns came from its own server after its own registration and parses under its own ID. |
| `MobileRegistry.WaiterNeverSeesMalformedReply` | internal/mobilebind/stun.go:62-70 | The branch that ignores malformed replies is unreachable. |
| `MobileRegistry.FoundReplyReachesWaiter` | internal/mobilebind/demux.go:82-103 | A valid reply whose lookup led to a waiter's channel is not lost to it: it is still to be sent, or the channel holds a reply, even if the entry has gone since. |
| `MobileRegistry.SentReplyIsReady` | internal/mobilebind/demux.go:93-102 | Once the dispatch that found a waiter has sent, the waiter's channel holds a reply. |
| `MobileRegistry.ReadyReplyIsReturned` | internal/mobilebind/stun.go:62-69 | A waiter whose channel holds a reply returns it in two steps. |
| `MobileRegistry.OwnerIsFoundExactly` | internal/mobilebind/demux.go:86-92 | The lookup for a valid reply leads to the waiter's channel if and only if the waiter owns the table's entry. |
| `MobileRegistry.StepOwnership` | internal/mobilebind/demux.go:65-77 | One step takes the entry from a live call if and only if another call with its ID registers or cleans up in it, and no step gives it back. |
| `MobileRegistry.OwnedExactly` | internal/mobilebind/demux.go:65-77 | Over any run: a live call owns the entry if and only if, since its registration, no other call with its ID has registered or cleaned up. |
| `MobileRegistry.UndisturbedWaiterMissesNothing` | internal/mobilebind/demux.go:65-103 | For such a call every valid reply looked up since its registration is still to be sent or its channel holds a reply. |
| `MobileRegistry.UnsharedWaiterMissesNothing` | internal/mobilebind/demux.go:65-103 | In particular when no other call ever used its ID. |
| `MobileRegistry.UnsharedWaiterIsFound` | internal/mobilebind/demux.go:86-95 | The lookup for every valid reply finds a waiter whose ID no other call used. |
| `MobileRegistry.SharedIDLosesReplies` | internal/mobilebind/demux.go:65-71 | A run in which two calls share an ID: both wait, and no lookup can ever find the first. |
| `MobileRegistry.SameRecogniser` | internal/mobilebind/demux.go:22-34 | The mobile STUN test accepts the same packets as the shared one. |
| `MobileRegistry.WireGuardIsNotSTUN` | internal/mobilebind/demux.go:18-34 | No WireGuard message is taken for STUN. |
| `Demux.Classifier.Program` | internal/wgproxy/demux.go:154-167 | Refuses exactly an address owned by another peer and then changes nothing; otherwise moves the peer's mapping; the maps stay inverse. |
| `Demux.Classifier.Unprogram` | internal/wgproxy/demux.go:170-179 | Removes the peer's mapping from both maps and no other; the maps stay inverse. |
| `Demux.Classifier.Classify` | internal/wgproxy/demux.go:183-200 | Every packet is delivered to a waiter, relayed or counted in exactly one drop counter, and the mappings never change. |
| `Demux.ProgramKeepsInverse` | internal/wgproxy/demux.go:154-167 | An accepted change keeps the two maps mutually inverse on normalized addresses and moves one peer only. |
| `Demux.UnprogramKeepsInverse` | internal/wgproxy/demux.go:170-179 | A removal keeps the maps inverse and removes one peer only. |
| `Demux.TakenWouldBreakInverse` | internal/wgproxy/demux.go:158-160 | The refusal is necessary: accepting an address that another peer owns would always break the inverse. |
| `Demux.RelayExactly` | internal/wgproxy/demux.go:183-200 | A packet goes to a peer if and only if it is not STUN-shaped and its normalized source is that peer's address. |
| `NetAddr.UnmapExactly` | internal/wgproxy/demux.go:228-230 | Normalizing changes exactly the addresses ::ffff:a.b.c.d, each to its last four bytes. |
| `NetAddr.UnmapInjective` | internal/wgproxy/demux.go:228-230 | Two mapped addresses become one only if their bytes are the same. |
| `Demux.StunExactly` | internal/wgproxy/demux.go:221-225 | A packet counts as STUN if and only if it has 20 bytes or more, two leading zero bits and the bytes 21 12 A4 42 at 4 to 7. |
| `Demux.WithoutCookieIsRelayed` | internal/wgproxy/demux.go:183-200 | A packet without the cookie goes to a peer if and only if it comes from the peer's address. |
| `ProxyRelay.NextKeepsInv` | internal/wgproxy/proxy.go:178-218 | Every step of AddPeer and SetPeerEndpoint, split where the loops can observe it, keeps the forwarding invariant. |
| `ProxyRelay.InboundMatchesOutbound` | internal/wgproxy/proxy.go:313-347 | With no update in progress a datagram reaches a peer's inner socket if and only if the peer's outbound remote is its normalized source. |
| `ProxyRelay.RelaySymmetry` | internal/wgproxy/proxy.go:313-383 | What WireGuard writes back to the inner socket leaves to the normalized source by the outer socket the datagram came in on, and no other peer's socket saw it. |
| `ProxyRelay.WireGuardReachesPeer` | internal/wgproxy/proxy.go:331-343 | With no update in progress every datagram without the cookie, from a peer's remote, reaches that peer's inner socket. |
| `ProxyRelay.AddPeerTakesEffect` | internal/wgproxy/proxy.go:178-198 | A new peer gets a socket that is no other peer's and no outer one, and no remote; a known one is left as it is. |
| `ProxyRelay.EndpointTakesEffect` | internal/wgproxy/proxy.go:202-218 | SetPeerEndpoint on a known peer with an address and a port sets its remote, and nothing else, unless another peer has that remote; then nothing changes. |
| `ProxyRelay.InFlightReachesSamePeer` | internal/wgproxy/proxy.go:331-343 | A datagram classified at one moment and written at a later one leaves from the socket the peer had when it was classified, and no other peer's, whatever changed in between. |
| `ProxyRelay.RelaySymmetryInFlight` | internal/wgproxy/proxy.go:313-383 | Classified, written and answered at three different moments, with other peers being updated at any time: while the peer itself is not updated, the answer leaves to the normalized source by the outer socket the datagram came in on. |
| `ProxyRelay.OthersAgreeDuringUpdate` | internal/wgproxy/proxy.go:202-218 | During an update every other peer's remote still equals its demux entry. |
| `ProxyRelay.SocketsNeverChange` | internal/wgproxy/proxy.go:178-198 | Over any run a peer's inner socket and every outer socket stay what they were when first bound. |
| `ProxyShutdown.NextKeepsInv` | internal/wgproxy/proxy.go:178-308 | Each step of AddPeer, Close and the relay loops keeps the invariant on lock, sockets, loops and wait group. |
| `ProxyShutdown.ClosedForGood` | internal/wgproxy/proxy.go:270-308 | For every interleaving of any AddPeer and Close calls: once the first Close has returned, every socket ever opened is closed, every relay loop is gone and no AddPeer call can start another. |
| `ProxyShutdown.CloseIsNotStuck` | internal/wgproxy/proxy.go:270-302 | The first Close always has a step until it waits for the loops, and again once they are gone. |
| `ProxyShutdown.CloserProgress` | internal/wgproxy/proxy.go:270-302 | Each of its steps leaves it exactly one less. |
| `ProxyShutdown.CloseReturns` | internal/wgproxy/proxy.go:277-281 | Once Close waits, every run of the relay loops ends within the steps they have left, all loops are gone then, and Close returns. |
| `ProxyManager.Manager.For` | internal/wgproxy/manager.go:39-55 | Returns the same proxy per device until closed, makes a fresh one only for a new device, and errors once closed. |
| `ProxyManager.Manager.Get` | internal/wgproxy/manager.go:58-69 | Returns the device's proxy and never creates one. |
| `ProxyManager.Manager.Close` | internal/wgproxy/manager.go:72-87 | Closes every proxy the manager ever made; repeating it changes nothing. |
| `WakeUp.NextKeepsInv` | mobile/controller.go:121-177 | Every step of the loop, of any caller, of the timer and of stop keeps the wake-up invariant. |
| `WakeUp.NoLostWakeUp` | mobile/network.go:48-59 | In every interleaving, while online and not stopped: the timer is armed or fired, or a token is queued, or the loop will re-arm, or a caller is between its update and its send. |
| `WakeUp.LiveCycleIsCurrent` | mobile/controller.go:147-160 | A running cycle that is not cancelled was started from the current network state, unless a caller is still inside its critical section. |
| `WakeUp.LiveCycleActsOnItsStart` | mobile/controller.go:236-242 | Whatever network state a cycle reads again while it runs, as long as it is live that is the state it started from, and online. |
| `WakeUp.QuietIsNotStuck` | mobile/controller.go:130-176 | Once the callers are silent the loop always has a step until a fresh cycle runs. |
| `WakeUp.QuietProgress` | mobile/controller.go:130-176 | Each such step brings the fresh cycle strictly closer. |
| `WakeUp.EventuallyFresh` | mobile/controller.go:121-177 | So after the last change every long enough run of the loop has a live cycle on the final network state. |
| `EstablishQueue.Queue.TryEnqueue` | internal/queue/queue.go:24-31 | Appends unless full, and says so. |
| `EstablishQueue.Queue.Dequeue` | internal/queue/queue.go:33-35 | Gives up the oldest entry, or nothing when empty. |
| `EstablishQueue.PendingIsOutstanding` | internal/ctrl/establish.go:200-211 | Whenever the mutex is free the pending set is exactly the queued peers plus the one in flight, without repeats. |
| `EstablishQueue.AcceptedAreServedInOrder` | internal/ctrl/establish.go:152-166 | At every moment the accepted triggers are the completed ones, then the one in flight, then the queue, in order. |
| `EstablishQueue.RefusedOnlyWhenOutstandingOrFull` | internal/ctrl/establish.go:200-211 | A trigger is refused if and only if its peer is outstanding or the queue is full. |
| `EstablishQueue.EmptyMeansIdle` | internal/ctrl/establish.go:214-231 | When a waiter reads an empty set, nothing is queued or running at that moment and every accepted trigger has completed. |
| `EstablishQueue.OnlyStopStops` | internal/ctrl/establish.go:154-158 | The worker stops by its context only, and between two peers. |
| `EstablishQueue.WorkerIsNotStuck` | internal/ctrl/establish.go:152-166 | With triggers and waiters silent the worker has a step while anything is outstanding. |
| `EstablishQueue.WorkerProgress` | internal/ctrl/establish.go:152-166 | Each of its steps leaves exactly one less to do. |
| `EstablishQueue.EveryTriggerIsServed` | internal/ctrl/establish.go:152-166 | So every run of the worker ends within the work left, with every accepted trigger completed, nothing pending and the worker idle. |
| `EstablishQueue.WaiterReturns` | internal/ctrl/establish.go:218-230 | Then a waiter returns at its next tick. |
| `AppLifecycle.OneBodyAtATime` | app/app.go:95-125 | In every interleaving of Run, RunOneshot and Close at most one daemon body executes, although the flag is cleared before the wait group is left. |
| `AppLifecycle.CleanupRunsAlone` | app/app.go:131-141 | Cleanup runs at most once, and from its start no body executes and no call can still start one. |
| `AppLifecycle.ReturnedCloseIsFinal` | app/app.go:95-141 | Once Close has returned to anyone, cleanup is over and a Run call that gets the lock is refused as closed. |
| `AppLifecycle.AdmissionExactly` | app/app.go:96-107 | In every run a call that has the lock is refused as closed if and only if a Close has marked the app, as already running if and only if not closed and another call is between setting and clearing the flag, and is admitted otherwise. |
| `AppLifecycle.AdmittedReachesBody` | app/app.go:105-124 | Nothing keeps an admitted call from its body. |
| `AppLifecycle.RunStepsRunOut` | app/app.go:95-125 | Each step of a run call lowers its own rank and moves no other call. |
| `AppLifecycle.CloseStepsRunOut` | app/app.go:131-141 | So does each step of a Close call. |
| `AppLifecycle.NeverStuck` | app/app.go:95-141 | In every reachable state with a call that has not returned, some call that has begun has a step: without new calls every run ends with all of them returned. |
| `PingRetry.PeerPingState.HandlePingResult` | internal/ctrl/ping_monitor.go:524-573 | A success restores the healthy state; a failure updates the state and triggers exactly as the retry specification says. |
| `PingRetry.PeerPingState.ScheduleNextRetry` | internal/ctrl/ping_monitor.go:590-615 | Fixed retries, then arithmetic back-off, then hand-over. |
| `PingRetry.HandOverPoint` | internal/ctrl/ping_monitor.go:600-613 | The hand-over test holds for a retry number if and only if the budget fixed + ceil(refresh / 5s) is reached. |
| `PingRetry.RetryBudget` | internal/ctrl/ping_monitor.go:546-615 | For any failure times the triggers of an unbroken outage never exceed the budget, and the n-th comes no earlier than the summed gaps after the first. |
| `PingRetry.LongOutageReachesBudget` | internal/ctrl/ping_monitor.go:546-615 | An outage with failures at most d apart that outlasts the gaps plus one d per retry triggers exactly the budget. |
| `PingRetry.GapSumClosedForm` | internal/ctrl/ping_monitor.go:594-613 | The summed gaps in closed form: 2s each, then triangular numbers of 5s. |
| `PingRetry.DueTimeIsSet` | internal/ctrl/ping_monitor.go:575-588 | After any results the zero-time case of the due test is unreachable once a retry is scheduled and not handed over. |
| `PingTimeout.ReportsNeverOutnumberSends` | internal/ctrl/ping_monitor.go:360-432 | In every interleaving of sends, replies and the split check, failure reports never outnumber successful sends. |
| `PingTimeout.SteadySendsHideEveryFailure` | internal/ctrl/ping_monitor.go:360-432 | A run whose sends succeed at most the time-out apart reports no failure. |
| `PingTimeout.LongerGapCanReport` | internal/ctrl/ping_monitor.go:376-388 | For every time-out there is a run with one gap a nanosecond longer that reports one. |
| `PingTimeout.ReportableExactly` | internal/ctrl/ping_monitor.go:360-432 | Some run with gaps of at most g reports a failure if and only if g exceeds the time-out. |
| `PingTimeout.ReportsAreStaleJudgements` | internal/ctrl/ping_monitor.go:360-391 | In every run the reports are exactly the checks that judged a send time older than the time-out, but for one about to be reported. |
| `PingTimeout.ReplyPreventsReport` | internal/ctrl/ping_monitor.go:360-389 | A check that looks at a peer after a reply, with no send recorded in between, reports nothing. |
| `Selection.Selector.Working` | internal/discovery/selection.go:21-33 | Says whether there is new evidence and remembers the sample. |
| `Selection.Selector.Next` | internal/discovery/selection.go:34-44 | Returns the candidate at the counter's place among at most four and advances the 64-bit counter. |
| `Selection.Selector.Reset` | internal/discovery/selection.go:49-54 | Remembers the counters and restarts the rotation. |
| `Selection.WorkingNeedsNewEvidence` | internal/discovery/selection.go:21-33 | After any sample or reset a true result needs a strictly newer handshake or a strictly larger count. |
| `Selection.SampleExactly` | internal/discovery/selection.go:21-54 | Over any list of samples and resets the i-th sample is true if and only if it has an endpoint and a past handshake and either the handshake is under 300 seconds old and newer than the event before, or more was received than at the event before; the first needs a handshake under 300 seconds old. |
| `Selection.EvidenceIsUsedOnce` | internal/discovery/selection.go:21-54 | Over any run of samples and resets the true results are at most 1 + handshake advances + receive advances. |
| `Selection.ResetForgets` | internal/discovery/selection.go:46-54 | Sampling the same health again after a reset is never a success. |
| `Selection.FairExactly` | internal/discovery/selection.go:34-44 | n consecutive calls pick each of n candidates exactly once if and only if n is not 3 or the counter does not wrap in between. |
| `Selection.RecoveryCandidates` | mobile/controller.go:400-424 | The growing list is the first four distinct non-empty endpoints of bootstrap and usable hints. |
| `Selection.CandidatesMeaning` | mobile/controller.go:400-424 | The candidates are distinct, non-empty, drawn from the input, and short of four they miss none. |
| `Selection.CandidatesInOrder` | mobile/controller.go:400-424 | They stand in the order in which they first occur, and what a full list leaves out first occurs after all of it. |
| `Selection.RunPass` | mobile/controller.go:366-383 | One pass over a peer: samples its health, and tries the next candidate if and only if it is not working and there is one. |
| `Selection.TriedInOrder` | mobile/controller.go:366-387 | Over any passes with an unchanged list, the k-th try is the candidate the counter has come to after k tries; working passes do not move it. |
| `Selection.FairRecovery` | mobile/controller.go:356-424 | Over any passes with an unchanged list of n candidates, n of them not working, each candidate is tried exactly once if and only if n is not 3 or the counter does not wrap in between; a configured bootstrap is first on the list. |
| `Selection.ResetTriesBootstrap` | mobile/controller.go:138-141 | After a network reset the first try is the configured bootstrap, whatever the hints are. |
| `JsonCheck.Decoder.CheckValue` | internal/validation/validation.go:127-164 | The recursive check on the stateful decoder accepts exactly when the list specification does, and leaves the same tokens unread. |
| `JsonCheck.Decoder.CheckArrayBody` | internal/validation/validation.go:153-161 | The array loop consumes items up to the closing bracket as specified. |
| `JsonCheck.Decoder.CheckObjectBody` | internal/validation/validation.go:136-152 | The field loop with its set of lower-cased names consumes fields up to the closing brace as specified. |
| `JsonCheck.Decoder.CheckDocument` | internal/validation/validation.go:165-170 | Accepts exactly when one value passes and the input ends cleanly after it. |
| `JsonCheck.CheckAccepts` | internal/validation/validation.go:127-164 | The listing of every acceptable tree passes, whatever follows, and exactly that listing is consumed. |
| `JsonCheck.CheckFindsTree` | internal/validation/validation.go:127-164 | A successful check has consumed the listing of an acceptable tree. |
| `JsonCheck.CheckConsumesOneTree` | internal/validation/validation.go:127-164 | Both directions at any depth: success with the rest r if and only if the tokens are the listing of one acceptable tree followed by r. |
| `JsonCheck.DocumentAcceptedExactly` | internal/validation/validation.go:121-170 | A token stream passes if and only if it lists one JSON tree without null, without values deeper than 16 and without keys equal after lower-casing. |
| `JsonCheck.CheckNested` | internal/validation/validation.go:127-130 | A value inside n arrays passes at depth d if and only if d + n is at most 16. |
| `ServiceRoutes.MaskedContains` | internal/validation/validation.go:92-105 | Masking a route changes no membership. |
| `NetPrefix.ContainsExactly` | internal/validation/validation.go:92-105 | A prefix contains exactly the addresses from its masked one up to its size. |
| `ServiceRoutes.ServiceRouteExactly` | internal/validation/validation.go:79-105 | Accepted are exactly IPv4 prefixes of /24 or narrower and IPv6 prefixes of /64 or narrower whose address lies outside the refused ranges, as numbers. |
| `ServiceRoutes.ServiceRouteIsMasked` | internal/validation/validation.go:104-104 | The route keeps family and length and starts at the first address of its block. |
| `ServiceRoutes.LimitsExactly` | mobile/uapi.go:19-44 | A configuration is accepted if and only if it keeps to 32 peers, 64 routes each, ports and keep-alives up to 65535, all texts parse and no key repeats. |
| `ServiceRoutes.BuildRoutes` | mobile/uapi.go:65-71 | Writes the masked routes, one line each, or fails if and only if one is refused. |
| `ServiceRoutes.BuildPeer` | mobile/uapi.go:34-71 | Writes a peer's section if and only if key, keep-alive, route count, secrets, endpoint and every route are good. |
| `ServiceRoutes.BuildPeers` | mobile/uapi.go:33-72 | Writes all sections if and only if every peer is good and no public key repeats. |
| `ServiceRoutes.BuildUAPI` | mobile/uapi.go:17-75 | Yields a text if and only if port, peer count, private key and peers are good; the text is the lines of the configuration's settings in order. |
| `ServiceRoutes.TextReadsBack` | mobile/uapi.go:27-74 | A reader with its own names, splitting the text at newlines and lines at '=', gets back exactly the settings, in order, provided values are formatted without newlines and can be read: no value can add or change a line. |
| `ServiceRoutes.TextInstallsRoutes` | mobile/uapi.go:65-71 | The routes that the text installs are those of its sections, in order. |
| `ServiceRoutes.NoAssembledCatchAll` | internal/validation/validation.go:89-105 | The routes of an accepted configuration touch at most 32*64 blocks per family, so a whole /24 or /64 block of each family stays uncovered. |
| `ServiceRoutes.BlockHoldsAddress` | internal/validation/validation.go:89-105 | That block holds an address of the family. |
| `CoveringRoutes.HasCoveringDefault` | internal/routeprobe/routeprobe.go:50-93 | True if and only if tunnel interfaces carry a /0 or both /1 halves of the family. |
| `CoveringRoutes.OrderIndependent` | internal/routeprobe/routeprobe.go:50-93 | Lists with the same routes get the same answer. |
| `CoveringRoutes.CoveredEverywhere` | internal/routeprobe/routeprobe.go:42-93 | When the answer is true every address of the family lies in some tunnel route, of at most one bit. |
| `CoveringRoutes.CoversExactly` | internal/routeprobe/routeprobe.go:42-93 | For any list of valid prefixes the answer is true if and only if every address of the family lies in a tunnel route of at most one bit. |
| `CoveringRoutes.QuartersGoUnnoticed` | internal/routeprobe/routeprobe.go:50-93 | Four quarter routes through a tunnel cover every address and are not detected. |
| `CoveringRoutes.ChooseDefaultInterface` | internal/routeprobe/routeprobe.go:106-120 | Returns the first /0 of the family that is not a tunnel's, or none exactly when there is none. |
| `CoveringRoutes.FamilyExactly` | internal/routeprobe/routeprobe.go:122-132 | A prefix matches its own family, except IPv6 prefixes whose address lies in ::ffff:0:0/96. |
| `CoveringRoutes.DefaultCovers` | internal/routeprobe/routeprobe.go:50-93 | A tunnel's all-zero /0 route covers its family and no other. |
| `PhoneAddress.Allocate` | cmd/provision/server.go:20-48 | The lowest host 2..254 of the server's /24 that no reservation contains, as a /32; each error exactly under its condition. |
| `PhoneAddress.PrivateExactly` | cmd/provision/server.go:21-24 | Private are exactly the three private IPv4 ranges, as numbers. |
| `PhoneAddress.HostInSubnet` | cmd/provision/server.go:35-35 | Host n lies in the server's /24 and ends in n. |
| `PhoneAddress.AllocationsDistinct` | cmd/provision/server.go:34-47 | When each result is reserved, the results of any sequence increase strictly, so they are distinct and at most 253. |
| `RouteText.CapturesIgnoreTrailingNewlines` | internal/linuxprofile/server.go:155-162 | The route lines the regular expression finds do not depend on trailing newlines. |
| `RouteText.MatchExactly` | internal/linuxprofile/server.go:20-20 | The matcher finds the greedy match of the expression, stated as a relation on positions, and nothing exactly when it does not match there. |
| `RouteText.SplitExactly` | internal/linuxprofile/server.go:156-156 | Splitting gives parts without commas whose joining gives the line back. |
| `RouteText.TrimSpaceExactly` | internal/linuxprofile/server.go:157-157 | Trimming takes white space off both ends and nothing else. |
| `RouteText.OwnLineIsCaptured` | internal/linuxprofile/server.go:155-162 | The address line of a managed block is always found, whatever text stands before it, although the expression's white space runs across lines. |
| `ServerEdit.CollisionCheck` | internal/linuxprofile/server.go:155-162 | The nested loops find a collision if and only if some route on some line does not parse or contains the address. |
| `ServerEdit.Server.Edit` | internal/linuxprofile/server.go:128-174 | Result text, error and the shared peers map after an edit, for every text, map and profile. |
| `ManagedBlocks.WithdrawBlock` | internal/linuxprofile/server.go:141-152 | Behind text without the profile's markers, exactly its block is cut out for the same identity, and another identity is refused. |
| `ManagedBlocks.BlockIsSeen` | internal/linuxprofile/server.go:155-165 | Wherever a block stands, its address is among the captured routes and its key is found. |
| `EnrolRevoke.ActivateThenRevoke` | internal/linuxprofile/server.go:128-174 | Revoking after any successful activation gives the text without the profile, trailing newlines replaced by one blank line, and the map without it, if and only if no marker of the profile is left in that text; otherwise it is refused as inconsistent. |
| `EnrolRevoke.ActivateTwice` | internal/linuxprofile/server.go:128-174 | Under the same condition a second activation changes neither text nor map. |
| `EnrolRevoke.EnrolThenRevoke` | internal/linuxprofile/server.go:128-174 | For a profile the server does not have: revocation restores text and map, and repetition changes nothing, if and only if the file does not stop right before the end of one of the profile's marker lines; a file ending in a newline never does. |
| `EnrolRevoke.UnterminatedMarkerBlocksRevoke` | internal/linuxprofile/server.go:135-144 | For every valid profile, a concrete file that enrols and then can be neither revoked nor enrolled again. |
| `EnrolRevoke.FailedEditKeepsPeers` | internal/linuxprofile/server.go:150-165 | A failed edit leaves the shared map as it was, except exactly when it had already withdrawn the profile; then the entry is gone. |
| `EnrolRevoke.RefusedReplacementDropsEntry` | internal/linuxprofile/server.go:150-160 | For every enrolled profile whose address somebody also gave to a hand-written peer: enrolling it again is refused as a collision, and its entry is gone from the map. |
| `ServerRuns.RunLayout` | internal/linuxprofile/server.go:128-174 | After any run of successful edits from a clean file, the file is the operator's text followed by one block per active profile, separated by newlines only. |
| `ServerRuns.BlocksAreActiveProfiles` | internal/linuxprofile/server.go:128-174 | Over any such run each active profile has exactly one begin and one end marker around its own block and one map entry, every other label has none, addresses and identities are pairwise distinct, and the operator's text and entries stay. |
| `ServerRuns.OutcomeExactly` | internal/linuxprofile/server.go:128-165 | Over any such run, what the next edit answers, error by error: it is never inconsistent, an admissible profile can always be revoked, and it is activated if and only if no route of the rest of the file claims its address and its key does not occur there. |
| `ServerReadBack.ActivationReadsBack` | internal/linuxprofile/server.go:163-168 | Read line by line, a successful activation's file ends in the two markers and between them one peer with the profile's public key, preshared key and address and a keep-alive of 25; the map entry has three fields; the profile is for this server. |
| `ServerReadBack.RunsReadBack` | internal/linuxprofile/server.go:128-174 | Over any run of successful edits from a clean file each active profile reads back so at the only begin marker of its name, and no other label has a marker line or an entry. |

## Left out

- Sockets, socket options, route readers, ICMP connections, TUN and the WireGuard device: a socket is a fresh handle, and a family's outer socket is taken to deliver that family's sources only.
- Random values, clocks and time-outs: arbitrary values and steps that may happen at any time; the delay that the discovery loop computes for its next cycle is not modelled, only that the timer is armed.
- Libraries: `encoding/json`'s token grammar is a stack of positions, its schema decoding is left out; `netip.ParsePrefix`, key parsing and lower-casing are function parameters; white space is the ASCII one.
- Profile policy: the remaining checks of Profile.Validate are one flag, `policyOk`; that a valid address text holds digits, dots and a slash only, and that keys are canonical base64, is stated instead of derived from the parsers.
- The discovery loop without plugins (it only waits for stop), the failure path of creating a proxy, and the escape hooks of Close.
- Read locks that relay loops take for a single read are part of the step that reads.
- Direct calls of Unprogram on a live proxy's classifier: the method is modelled, but no run of the proxy makes that call.
- ServiceRoutes.BuildPeer: one outcome stands for all error messages.
- ServiceRoutes.BuildUAPI: one outcome stands for all error messages, and a missing configuration (a nil pointer) is not an input.
- ServerEdit.Server.Edit: the discovery file is the map of peers, its rendering as YAML text is not modelled, and the remaining profile checks are one flag.
- Counters other than the rotation counter are unbounded.
- Loading and writing server files, OpenDHT, DNS, command lines, plugins, repositories, configuration defaults, endpoint choice within one record, logging: file and network plumbing, or decided by reading one branch.
