# AraxMesh data plane, verified

AraxMesh is a peer-to-peer overlay network. Every node runs a daemon that takes IPv4 packets from
a TUN device, seals them in Noise IK sessions and sends them over UDP, or over a TCP relay when no
direct path answers. A coordinator hands out overlay addresses and tells each node about the
others. This project models that data plane, the coordinator's registry and the relay, and proves
what they keep on every run.

`dafny verify dfyconfig.toml` checks everything.

## How the model is laid out

| files | part of the system |
|---|---|
| `Bits`, `Wrappers` | words as numbers with explicit widths, big-endian fields, results |
| `Packet` | IPv4 header fields, CIDR subnets |
| `Replay` | the anti-replay filter: the set of nonces it stands for, and the 1024-bit ring that implements it |
| `Noise` | handshake and transport cipher as an ideal box |
| `PeerModel`, `Peer` | one peer: what each operation does to its state, and the class that does it in place |
| `DaemonModel`, `Daemon` | routing, reconciliation and each daemon task's locked section, as functions and as methods of `PeerManager` |
| `Protocol`, `PeerSafety`, `Network`, `World`, `Guarantees` | safety of sessions over all runs of any number of daemons |
| `Entry` | one entry of the peer table followed through any run: each step does one operation to it, or drops it |
| `Timers`, `Grace`, `Arrival` | timestamps, retransmission, replaced sessions, which entry a packet reaches |
| `Agreement`, `Parted` | when the two ends of a session still agree on it, in every run of the network, and how rekeys part them |
| `Delivery`, `Crossing` | what is delivered, on the octets of packets: from TUN to the link, from the link to TUN, and both in every run |
| `Reception`, `Ticking` | what handshake messages and plain bytes that arrive do, and everything a tick sends |
| `Ends`, `Keepalive`, `Rekeying` | what one end of a session does and receives; liveness of a session, and of one session after another |
| `Routing` | longest-prefix match, reconciliation in closed form |
| `Text`, `Spec` | decimal, hex, addresses, subnets and peer descriptions as text |
| `Coordinator`, `Registry`, `Limiter` | address allocation, the registry, the registration rate limit |
| `Directory` | what the registry tells nodes of each other |
| `Listing` | what a node makes of the registry's listings: its first table, its later ones, and when they break |
| `EndToEnd` | from the registry to routing, and from one TUN device to the other |
| `Relay`, `Router`, `Forwarding` | relay frames over a byte stream, the relay server with all its connections, and when a frame arrives |

What the source changes in place is a class here: `ReplayWindow`, `ActiveSession`, `Peer`,
`PeerManager`, `Registry`, the rate limiter and the receiving socket. Their methods are proved to
change the state as a function on values says. The long-run theorems are about those functions, so
they hold of the methods. The responder's completion, which the source writes out in three places,
is one operation used from three.

Time is a count of milliseconds passed to each step. Random padding, fresh handshake and session
identifiers, failures of the cryptographic library and failed writes of the state file are
arguments of the steps and may take any value.

**The cryptography.** An octet on the wire is either a known byte or the i-th octet of one Noise
message. Cutting, padding and concatenating act on real strings of octets, but a message can only
be read from all of its own octets in order. The attacker owns the network: it drops, repeats,
reorders and splices anything it has seen and adds any bytes of its own. It cannot make octets of a
message no daemon produced. A field read as plain bytes shows 0 for an octet of a message; the
attacker may put any known byte there instead.

**Where code and documentation differ, the code is modelled.**

- `DESIGN.md` line 205 promises a replaced session 15 s of grace. The code measures the 15 s from
  that session's own start (src/peer.rs lines 323 and 352) and keeps one replaced session only.
  `Agreement.RetiredSessionOpensInRuns` gives the exact condition in every run of the network.
  `Padding.AgedSessionHasNoGrace` shows that a session replaced because of its age gets no grace at
  all, and `Grace.TwoInitiationsEvict` that two answered handshakes evict one however young it is.
- `DESIGN.md` line 229 puts the key before the length in a relay frame. The code writes the length
  first (src/relay.rs lines 98 to 107).
- The relay forgets a route by identity (src/bin/coordinatord.rs line 229), so a client that
  reconnects before its old connection is closed ends up connected and unreachable:
  `RelayRouter.ReconnectLosesItsRoute`. `RelayRouter.RoutedExactlyWhileUntouched` says exactly when a
  connection is reachable.
- The coordinator tells nodes apart by the hex digits of their keys, and a daemon does not look for
  repeated keys in its first listing (src/daemon.rs lines 335 to 345). A key registered in small
  letters and in capitals gives other nodes two entries for it, and the next sync gives both one
  address: `Listing.RepeatedKeyWitness`. `EndToEnd.HostRoutesHoldIffKeysDiffer` has the exact condition.
- A datagram with the response byte from a peer's endpoint counts as hearing from it directly, whether
  or not it is a response (src/daemon.rs lines 748 to 756): `Reception.PlainBytesAreIgnored`.
- A packet from an address that an earlier entry of the table has, too, is not tried on a later entry
  that has it (src/daemon.rs lines 774 to 800): `Arrival.DataReachesUnshadowed`.
- Two daemons go on sending in one session exactly as long as neither answers or joins another
  handshake and neither gives the session up: `Agreement.EndsAgreeExactlyWhileUndisturbed`. So a
  rekey parts them until its answer arrives (`PartedEnds.LostAnswerPartsTheEnds`), and for longer if it
  crosses another (`PartedEnds.CrossedRekeysPartTheEnds`) or is answered twice
  (`PartedEnds.RepeatedOfferPartsTheEnds`). `DESIGN.md` lines 202 to 205 promise rekeying without loss.

## Model

| member | source | states |
|---|---|---|
| `Session.Slot` | src/session.rs:31-34 | word and bit index of a nonce together are the nonce modulo 1024, inside the ring |
| `Session.ReplayWindow.GetBit` | src/session.rs:36-39 | shift and mask read exactly the bit of the nonce's slot |
| `Session.ReplayWindow.SetBit` | src/session.rs:41-44 | after it the nonces congruent to the given one modulo 1024 are marked, and all others as before |
| `Session.ReplayWindow.ClearBit` | src/session.rs:46-49 | after it the nonces congruent to the given one modulo 1024 are unmarked, and all others as before |
| `Session.ReplayWindow.constructor` | src/session.rs:23-29 | a new window has accepted nothing, and its ring agrees |
| `Session.ReplayWindow.Expose` | src/session.rs:61-71 | advancing, by clearing bits one at a time or all at once, leaves the ring in agreement with the accepted set for the window that ends at the new nonce |
| `Session.ReplayWindow.CheckAndUpdate` | src/session.rs:53-86 | on all of u64: accepted exactly when the nonce was never accepted and none 1024 or more above it was; the accepted set grows by exactly the accepted nonce |
| `Session.PresentAll` | src/session.rs:53-86 | any call sequence on a new ring gets, call by call, the verdicts of the plain set of nonces |
| `Replay.WindowIsOrderFree` | src/session.rs:51-86 | after any sequence, in any order with any repetition, the newest accepted nonce is the maximum presented, and below it exactly the presented nonces less than 1024 behind are in the window |
| `Replay.SameNoncesSameWindow` | src/session.rs:51-86 | two sequences that present the same set of nonces leave windows that agree |
| `Replay.ReorderingWithinWindowLosesNothing` | src/session.rs:51-86 | distinct nonces, each less than 1024 below all earlier ones, are all accepted |
| `Replay.NeverAcceptedTwice` | src/session.rs:6-7 | once a nonce passed, no later call with it passes, whatever came between |
| `Replay.VerdictByTheNumbers` | src/session.rs:53-86 | after any presented sequence the next nonce passes if and only if it was not presented before and is less than 1024 behind the newest |
| `Packet.HeaderFields` | src/packet.rs:7-31 | with at least 20 octets and version 4 the inspections read source, destination and Total Length from octets 12-15, 16-19 and 2-3, big-endian (section 3.1 of RFC 791); otherwise nothing |
| `Packet.ContainsIsInterval` | src/packet.rs:42-50 | equality under the prefix mask is membership in one aligned interval of 2^(32-prefix) addresses |
| `Packet.HostSubnetContainsOnlyItself` | src/packet.rs:42-50 | a /32 matches one address |
| `Packet.NestedOrDisjoint` | src/packet.rs:42-50 | two blocks that share an address are nested, the longer prefix inside (section 3.1 of RFC 4632) |
| `PeerObjects.ActiveSession.Accept` | src/peer.rs:304-308 | a session that opened a packet counts it and takes its nonce exactly when its replay window accepts |
| `PeerObjects.Peer.DetermineDest` | src/peer.rs:53-61 | there is a destination exactly if the peer has an endpoint or there is a relay; it is the relay exactly if there is one and the peer has no endpoint or was not heard directly for 10 s; otherwise it is the endpoint |
| `PeerObjects.Peer.InitiateHandshake` | src/peer.rs:63-109 | the in-place update is that of the specified operation; the peer is untouched when the library fails |
| `PeerObjects.Peer.AnswerHandshake` | src/peer.rs:144-192 | a responder completion starts a new session and moves the active one to previous; nothing changes when the library fails |
| `PeerObjects.Peer.JoinHandshake` | src/peer.rs:200-246 | a fitting response establishes the session and clears handshake, attempt and packet; one that does not fit leaves the handshake in place |
| `PeerObjects.Peer.HandleHandshakePacket` | src/peer.rs:111-250 | the three branches by packet type, with 96 and 48 byte cuts and the static key check |
| `PeerObjects.Peer.EncryptPacket` | src/peer.rs:252-286 | nonce and byte count advance even when the cipher fails; only a success updates the transmit time |
| `PeerObjects.Peer.DecryptPacket` | src/peer.rs:288-348 | active session first, then a previous one under 15 s old; a replay in the session that opens the packet ends the attempt; only that session and the receive time change |
| `PeerObjects.Peer.CheckRotation` | src/peer.rs:350-364 | expires the previous session by its own age and reports age above 120 s or more than 10^9 bytes sent |
| `PeerObjects.Peer.Send` | src/daemon.rs:568-590 | seals for the peer, or starts a handshake when there is neither session nor handshake |
| `PeerObjects.Peer.OnTick` | src/daemon.rs:431-495 | the four timer steps in order, with the packets they queue |
| `Padding.UnpadUndoesPad` | src/peer.rs:258-264 | truncation removes exactly the padding from every payload that is not IPv4 or whose Total Length octets give its size |
| `Padding.PaddingRoundTrip` | src/peer.rs:309-316 | a payload survives all paddings of 0 to 128 bytes if and only if it is not IPv4 or its Total Length octets (section 3.1 of RFC 791) give its size |
| `Padding.DataPacketLayout` | src/peer.rs:275-279 | nonce and ciphertext are found again where the sender put them |
| `Padding.SealedPacketOpens` | src/peer.rs:252-320 | what one end seals the other end opens, under any padding, whenever its window takes the nonce; honest payloads come back unchanged |
| `Padding.SealedComesBackIffLengthIsRight` | src/peer.rs:252-316 | sealing and opening gives a payload back under every padding of 0 to 128 bytes if and only if it has no IPv4 header or 256 * octet 2 + octet 3 is its size |
| `Padding.LatePacketOpensWhileYoung` | src/peer.rs:322-345 | a packet of the session in the previous slot opens if and only if that session was established less than 15 s ago and its window takes the nonce |
| `Padding.AgedSessionHasNoGrace` | src/peer.rs:350-358 | a session replaced after more than 120 s opens no packet at any later time |
| `Grace.PerformSlots` | src/peer.rs:156-228 | whatever a step does to an entry: it retires the active session exactly if it completes a handshake or leaves no session; then the session moves to the previous slot or both slots are cleared; otherwise the active session stays and the previous one stays or is dropped at 15 s |
| `Grace.PreviousIsLastReplaced` | src/peer.rs:217-228 | over the life of an entry in which the session does not come back, the previous slot holds exactly the last session replaced, if not cleared since, until its age drops it |
| `Grace.ReplacedSessionOpens` | src/peer.rs:288-355 | over the life of an entry in which the session does not come back, a packet of a retired session opens if and only if that session was the last one replaced and was not cleared since, is under 15 s old, and its window takes the nonce |
| `Agreement.FollowedEntryLives` | src/daemon.rs:383-1112 | every entry followed through a run of the whole network leads such a life, with all its completions and retirements in the history of the run |
| `Agreement.RetiredNeverReturns` | src/peer.rs:156-158 | in every run of the network a session that an entry retired never comes back to it |
| `Agreement.RetiredSessionOpensInRuns` | src/peer.rs:288-355 | in every run of the network the condition for a packet of a retired session to open is the one above, with nothing assumed of sessions that come back |
| `Agreement.HeldExactlyWhileUndisturbed` | src/peer.rs:144-246 | in every run of the network an entry still sends in a session if and only if since then it answered nothing, joined nothing and was not cleared |
| `Agreement.EndsAgreeExactlyWhileUndisturbed` | src/peer.rs:144-246 | in every run of the network the two entries that held the ends of a session both still send in it if and only if since then neither answered or joined a handshake and neither was cleared |
| `Grace.TwoInitiationsEvict` | src/peer.rs:156-167 | after two answered initiations in a row the session before them opens nothing, at any age, though after one of them it still did |
| `Grace.TracedEntryLives` | src/daemon.rs:431-495 | every entry followed through a run of a daemon leads a life of the kind those theorems speak of |
| `Padding.HandshakeSurvivesPadding` | src/peer.rs:118-128 | both handshake messages are read back from under any padding by cutting at 96 and 48 octets |
| `Protocol.StartHandshake` | src/peer.rs:83-86 | a fresh handshake keeps the invariant over everyone's sessions and the history |
| `Protocol.AnswerHandshake` | src/peer.rs:149-169 | a responder session of fresh id, made from a message some daemon sent, keeps the invariant |
| `Protocol.JoinHandshake` | src/peer.rs:210-235 | an initiator session made from a response to its own pending handshake keeps the invariant, and no two ends coincide |
| `Protocol.EndsFaceEachOther` | src/peer.rs:130-142 | the two ends of a session belong to the two parties of one handshake, each naming the other |
| `PeerSafety.DecryptIsSafe` | src/peer.rs:288-348 | decrypting any octets the attacker can put together keeps the invariant, whoever else holds what |
| `PeerSafety.EncryptIsSafe` | src/peer.rs:252-286 | sealing keeps the invariant, failed calls included |
| `PeerSafety.HandleHandshakeIsSafe` | src/peer.rs:111-250 | handling any handshake packet keeps the invariant |
| `PeerSafety.ClearDeadIsSafe` | src/daemon.rs:446-454 | burying a dead session keeps the invariant |
| `PeerSafety.TickPeerIsSafe` | src/daemon.rs:431-495 | a whole tick of one peer keeps the invariant |
| `Network.TickIsSafe` | src/daemon.rs:431-495 | a tick of a whole table keeps the invariant |
| `Network.TunSendIsSafe` | src/daemon.rs:556-594 | the TUN path keeps the invariant |
| `Network.UdpReceiveIsSafe` | src/daemon.rs:665-835 | any UDP datagram, with trial decryption and roaming, keeps the invariant |
| `Network.RelayReceiveIsSafe` | src/daemon.rs:1001-1112 | any relayed frame, whatever sender the relay claims, keeps the invariant |
| `World.RetainIsSafe` | src/peer.rs:403-405 | dropping peers in reconciliation keeps the invariant |
| `World.RunsAreSafe` | src/daemon.rs:383-1112 | in every state of every run of any number of daemons under the attacker, the history obeys all rules of `Protocol.EventOk` |
| `Guarantees.DeliveriesAreAuthenticAndUnique` | src/peer.rs:288-348 | every delivery was sealed earlier by the peer it is attributed to, for this daemon, in the same session and nonce; no session delivers a nonce twice, also after it moved to previous |
| `Guarantees.NoncesAreNeverReused` | src/peer.rs:252-286 | with at most 2^64 calls per session end, no nonce is sealed twice with it |
| `Guarantees.DeliveredPayloadIsThePayloadSealed` | src/peer.rs:252-320 | the sealing behind a delivery is unique, and an honest payload arrives unchanged |
| `Guarantees.RetiredSessionsSealNoMore` | src/peer.rs:156-158 | a session that left the active slot is never sealed with again |
| `Guarantees.CountersAgreeWithHistory` | src/session.rs:95-102 | in every reachable state nonce and byte counters equal the number and total payload size of the seal calls (modulo 2^64), and the window is the set of delivered nonces |
| `Timers.TickSettlesEveryTimer` | src/daemon.rs:431-495 | after a tick nothing is overdue: active sessions heard within 15 s and sent on within 10 s, previous ones under 15 s old, pending packets under 2 s old, due rotations in flight |
| `Timers.TickByTheNumbers` | src/daemon.rs:431-495 | a tick without library failure rekeys a live session exactly if no handshake is pending and it is 121 s old or has sent more than 10^9 bytes, buries it exactly after 15 s of silence, forgets a previous one 15 s after its start, and seals a keepalive exactly after 10 s without sending |
| `Timers.ActKeepsTimers` | src/peer.rs:14-29 | every step keeps: previous only beside a younger active session, a handshake only with attempt and packet, attempt exactly with packet, no future timestamps |
| `Timers.TimersHoldInEveryRun` | src/daemon.rs:431-495 | that invariant holds in every state of every run of a daemon |
| `Timers.PreviousOpensOnlyWhileYoung` | src/peer.rs:322-324 | whatever opens outside the active session opened in a previous one under 15 s old |
| `Timers.NoReachablePeerIsStuck` | src/daemon.rs:466-480 | after a tick without library failure a reachable peer stays reachable and has a session or a handshake in flight |
| `Timers.PendingHandshakeIsRetransmitted` | src/daemon.rs:481-493 | with ticks at most 1 s apart the first tick that finds an unanswered packet 2 s old counts as a new attempt, less than 3 s after the last, and queues the packet if and only if the peer can be reached |
| `Timers.NoHandshakeWaitsThreeSeconds` | src/daemon.rs:481-493 | in every run, while ticks come on time, the recorded attempt of a pending handshake is less than 3 s old, whether or not its packet could be queued |
| `Timers.TicksLeaveNobodyStuck` | src/daemon.rs:431-495 | in every run, a tick without library failure leaves each reachable peer of the table with a session or a handshake in flight, and the packet of a handshake it starts is among the queued ones |
| `Timers.PendingPacketIsQueuedEvery3Seconds` | src/daemon.rs:481-493 | in every run, along any 3 s in which ticks come at most 1 s apart and an entry, wherever syncs move it, stays reachable and unanswered, some tick queues its handshake packet |
| `Entries.EntryStep` | src/daemon.rs:431-1112 | every step of a daemon does one operation of a fixed list to each entry it keeps, at the place the entry then has |
| `Entries.EntryOrigin` | src/peer.rs:403-425 | every entry after a step comes from one before it by one such operation, or is new |
| `Arrival.DataReachesUnshadowed` | src/daemon.rs:768-820 | a data packet that one entry only can open is offered to it if and only if no earlier entry has the address that both it and the packet have; otherwise nothing changes |
| `Arrival.RelayedReachesFirstOfKey` | src/daemon.rs:1085-1101 | a relayed data packet is offered to the first entry of the key the relay names |
| `Delivery.SealedIsDecrypted` | src/peer.rs:252-348 | what an entry makes of a packet of the other end: the payload, a spent nonce, counted bytes and a new receive time exactly if its active session, or a previous one under 15 s old, is that session and takes the nonce; nothing otherwise. The packet is as long as header, nonce, payload, padding and tag |
| `Delivery.UdpPacketIsWritten` | src/daemon.rs:768-835 | a packet over UDP is written to TUN, unchanged, if and only if its entry is not shadowed, its session takes the nonce, and octets 12-15 are an address the entry may use; the whole table after it, with the address the peer has roamed to |
| `Delivery.RelayedPacketIsWritten` | src/daemon.rs:1085-1110 | the same over the relay, if and only if the relay names the key and no earlier entry has it; endpoint and direct-receive time stay |
| `Delivery.UnroutedPacketIsDropped` | src/daemon.rs:556-594 | what has no IPv4 header, or a destination in octets 16-19 that no peer may use, changes nothing and sends nothing |
| `Delivery.RoutedPacketIsSent` | src/daemon.rs:556-590 | a packet whose destination has a most specific subnet touches that peer only: with a session it is sealed, counted and queued for the peer, without one a handshake is started and queued, unless one is in flight |
| `Delivery.PacketCrosses` | src/daemon.rs:556-835 | a packet read from one TUN comes out of the other, unchanged, if and only if it finds its entry there, the session takes its nonce and its source is one the entry may use, over UDP and over the relay |
| `Reception.OfferTeachesAddress` | src/daemon.rs:670-747 | a first handshake message over UDP is answered at its address, which from then on is where packets for that peer go: for 10 s, or as long as there is no relay |
| `Reception.RelayedOfferTeachesNothing` | src/daemon.rs:1020-1068 | over the relay it is answered over the relay, if the relay names its key, and the endpoint stays |
| `Reception.ReplyIsJoined` | src/daemon.rs:748-767 | a response is for the first entry with its address, or with the key the relay names, and for no other: a new session and no handshake if the entry waits for it, only the handshake lost if the switch to transport mode fails, nothing but the direct-receive time otherwise |
| `Reception.OfferIsHandled` | src/peer.rs:116-194 | a first message handed to a peer is answered if its static key is the peer's, and changes nothing otherwise |
| `Reception.UnopenedChangesNothing` | src/peer.rs:288-348 | a packet that an entry does not open leaves it as it is |
| `Reception.PlainBytesAreIgnored` | src/daemon.rs:665-835 | bytes that no cipher made change nothing and get no answer, except that a datagram with the response byte from a peer's endpoint counts as direct contact |
| `Ticking.TickSends` | src/daemon.rs:431-495 | everything a tick without library failure sends to a reachable peer, and where to: a first message exactly if none is pending and there is no session, or a worn or silent one; else a keepalive exactly after 10 s without sending, and the last handshake packet again exactly after 2 s |
| `Ticking.TickSplits` | src/daemon.rs:437-495 | the tick of a table is those of its parts, one after the other: table, packets and events |
| `Ticking.TickOfOne` | src/daemon.rs:437-495 | and the tick of a table with one peer is that of the peer |
| `Crossing.SessionIsOnlyThere` | src/peer.rs:156-228 | in every run of the network no two entries of a table hold the same session |
| `Crossing.NextIsTaken` | src/session.rs:53-86 | in every run of the network, with fewer than 2^64 seal calls, the next packet of one end is one the other end's window takes |
| `Crossing.PacketsCrossInEveryRun` | src/daemon.rs:556-835 | in every state of every run of the network, between two entries that send in one session, a packet that routes to the one comes out of the other's TUN, unchanged, if and only if it is not shadowed there and its source is one that entry may use; nothing is assumed of windows, nonces or other entries |
| `Ends.OwnStep` | src/daemon.rs:431-594 | a tick of the whole table, a packet from TUN, a sync of this entry or steps of other entries leave a live end its session; at most one packet, of the next nonce, goes out, and what the end has in flight and when it last sent are as the step says |
| `Ends.TickShape` | src/daemon.rs:431-495 | a tick of a live end with no handshake 2 s old starts a due rekey, else sends a keepalive after 10 s without sending, else sends nothing |
| `Ends.PacketReaches` | src/daemon.rs:768-820 | over UDP or the relay, a packet of the session passes the whole table and reaches the entry it is for, if no earlier entry has its key or the sender's address; an end without the session refuses it |
| `KeepaliveSafety.AnswerStartsAwaiting` | src/peer.rs:144-192 | right after answering a handshake the responder waits in a session in which it has sent and heard nothing, as the next two rows need |
| `KeepaliveSafety.AwaitingOwn` | src/daemon.rs:431-594 | before it hears in the new session the responder may tick, sync and send, and every packet it then sends is the next one of that session |
| `KeepaliveSafety.CompletedHandshakeStartsARun` | src/peer.rs:194-246 | whatever the responder did and sent since it answered, and whatever of it arrived too early, joining within 2 s gives the two ends of one session, from which the theorem below starts |
| `KeepaliveSafety.SessionsStayAlive` | src/daemon.rs:446-464 | whole tables, ticks at most 1 s apart, syncs, delivery over UDP or relay in under 2 s in any order with repeats, rekeys of either side in flight for under 2 s: in every timed run up to the next handshake message that arrives, neither side ever finds its session dead |
| `Rekeying.OfferReaches` | src/daemon.rs:670-747 | over UDP or the relay, the first message of a handshake passes the whole table and is answered, with the response that fits it, by the first entry of the key it comes from, which over UDP has learnt its address |
| `Rekeying.ResponseReaches` | src/daemon.rs:748-767 | the response is read by the entry that waits for it, over the relay or from that entry's endpoint |
| `Rekeying.NoEndIsFoundDead` | src/daemon.rs:431-495 | over any number of rekeys of either side, of which one is in flight at a time and completes within 2 s, with both sides sending, ticking and syncing on and packets of older sessions arriving however late: no side ever finds a session dead |
| `PartedEnds.CrossedRekeysPartTheEnds` | src/peer.rs:144-235 | two sides that answer each other's rekeys and then join, at whatever times, send in different sessions, and from 15 s after the answers on nothing either seals opens at the other |
| `PartedEnds.RepeatedOfferPartsTheEnds` | src/peer.rs:144-246 | a handshake message that is answered again, at whatever time, leaves the responder in a session the initiator never has |
| `PartedEnds.LostAnswerPartsTheEnds` | src/peer.rs:144-192 | when a rekey due for age is answered, neither side opens what the other seals until the answer arrives |
| `Routing.BestPrefixIsLongest` | src/peer.rs:434-441 | the prefix a peer competes with is the longest among its matching subnets |
| `Routing.FindBestIsFirstLongest` | src/peer.rs:429-445 | the winner is the first peer in table order among those with the longest matching prefix |
| `Routing.UnroutedIffNotAllowed` | src/peer.rs:429-445 | there is no route if and only if no peer's subnets contain the address |
| `Routing.RouteIsMostSpecific` | src/peer.rs:429-445 | the winning subnet lies inside every other subnet of any peer that contains the address |
| `Reconciliation.RetainKeepsOrder` | src/peer.rs:403-405 | the survivors are exactly the wanted entries, unmoved relative to each other |
| `Reconciliation.SyncInClosedForm` | src/peer.rs:385-427 | on any table: surviving peers in order, with only endpoint and addresses of the first entry of each key replaced by those of the last description of the key, then one new peer per new key; exactly the wanted keys, none twice unless the survivors had it twice; new endpoints from first descriptions |
| `Reconciliation.SyncIsIdempotent` | src/peer.rs:385-427 | on any table, syncing again with the same descriptions changes nothing and reports no endpoint |
| `Reconciliation.CreatedAreNew` | src/peer.rs:31-51 | a new peer is as described, has no session and no handshake, and counts as heard when it is made |
| `Daemon.PeerManager.constructor` | src/peer.rs:374-383 | one fresh peer per description, in order, with the manager's magic bytes |
| `Daemon.PeerManager.FindBestPeerIdx` | src/peer.rs:429-445 | the nested loops find what the routing theorems speak of |
| `Daemon.PeerManager.SyncPeers` | src/peer.rs:392-427 | the in-place retain, update and push end in the reconciled table, skipping malformed descriptions |
| `Daemon.PeerManager.TimerTick` | src/daemon.rs:431-495 | ticking the peers in place gives the specified table and queued packets |
| `Daemon.PeerManager.TunToNetwork` | src/daemon.rs:556-594 | the packet goes to the best route; everyone else is untouched |
| `Daemon.PeerManager.TryOtherPeers` | src/daemon.rs:797-818 | trial decryption in table order over peers of other endpoints; the first admitted one has roamed |
| `Daemon.PeerManager.OnUdpData` | src/daemon.rs:768-820 | endpoint lookup first, then trial decryption; only admitted plaintext reaches TUN |
| `Daemon.PeerManager.NetworkToTun` | src/daemon.rs:665-835 | dispatch on the type byte to the three handlers |
| `Daemon.PeerManager.RelayToTun` | src/daemon.rs:1001-1112 | the relayed path: the key of an initiation must be the claimed sender; endpoint and direct-receive time stay |
| `Text.Ipv4RoundTrip` | src/coordinator.rs:149-171 | every address reads back from its dotted decimal text |
| `Text.Ipv4TextIsUnique` | src/packet.rs:62-64 | no other text reads as that address: not with leading zeros, blanks or missing parts |
| `Text.SubnetRoundTrip` | src/packet.rs:53-83 | every subnet reads back from its display text |
| `Text.LongPrefixIsRefused` | src/packet.rs:65-72 | a prefix above 32 is refused |
| `Text.PlusAndZerosAreRead` | src/packet.rs:65-69 | a prefix length may carry a plus sign or a leading zero, and nothing above 255 is read |
| `Text.HostRoundTrip` | src/packet.rs:57-75 | a bare address reads as the /32 of that host |
| `Text.HexRoundTrip` | src/config.rs:27-29 | every byte string reads back from its hex text, which has no separator in it |
| `Text.HexDecodesIff` | src/config.rs:27-29 | hex text is read if and only if it has an even number of hex digits, in either case, one byte per pair |
| `Text.SplitUndoesJoin` | src/config.rs:15-25 | splitting undoes joining when no part contains the separator |
| `Spec.SpecRoundTrip` | src/config.rs:14-58 | every 32-byte key, optional endpoint and non-empty subnet list reads back unchanged from its spec string |
| `Spec.SpecParsesFieldByField` | src/types.rs:22-31 | a descriptor's spec string parses exactly as its three fields do alone if none contains a semicolon, and is refused otherwise |
| `Spec.DescriptionIsReadOrRefused` | src/config.rs:14-58 | a descriptor without semicolons in its fields is refused for bad hex, a key that is not 32 bytes, a bad endpoint or one bad subnet, in this order; otherwise its key, endpoint and subnets are read part by part |
| `Spec.BlanksDoNotMatter` | src/config.rs:46-49 | blanks around the parts of an address list do not matter |
| `Allocator.NewIsValid` | src/coordinator.rs:23-43 | an accepted block has a prefix of at most 30 and no host bits in its network address |
| `Allocator.NewFromText` | src/coordinator.rs:23-43 | A.B.C.D/p with p up to 30 is the block of 2^(32-p) addresses around A.B.C.D that starts at a multiple of its size; longer prefixes and text without a slash are refused |
| `Allocator.HostRangeIsInterval` | src/coordinator.rs:45-50 | the range runs from network+1 over 2^(32-prefix)-2 addresses without wrapping; for /0 with wrapping arithmetic, over all but 0 |
| `RegistryModel.NextFreeIsNext` | src/coordinator.rs:52-56 | with k addresses out the next one is network+1+k while there is room, and none afterwards |
| `RegistryModel.ReachableIsAssigned` | src/coordinator.rs:125-187 | in every registry reached from empty, whichever writes failed, the k-th key accepted holds network+k and addresses are distinct |
| `RegistryModel.AddressesNeverChange` | src/coordinator.rs:118-147 | an assigned address survives every later request |
| `RegistryModel.CapacityAndStability` | src/coordinator.rs:125-171 | a known key gets its own address back, a new one the next address until exactly the capacity is used, then a refusal |
| `Directory.TakenIff` | src/coordinator.rs:125-187 | a poll is accepted if and only if the node is known, a registration if and only if the whitelist allows it and the node is known or an address is free; what is refused changes nothing |
| `Directory.RefusalsSayWhy` | src/coordinator.rs:131-187 | each of the three refusals gets its own error and changes nothing |
| `Directory.ServeOne` | src/coordinator.rs:138-187 | an accepted request stores endpoint and observed endpoint, and a host name only if it gives one or the node is new; other nodes stay as they are |
| `Directory.LastTakenIsKept` | src/coordinator.rs:138-187 | over any requests, what is held of a node is what its last accepted request said, whether or not the state file was written |
| `Directory.ListingShowsLastRefresh` | src/coordinator.rs:174-200 | every listing for another node holds exactly one descriptor of a node that got in, with the endpoint of its last accepted request and the address of its place in the order of registration |
| `Directory.OthersAreNotListed` | src/coordinator.rs:190-200 | no listing holds the node that asks or one that never got in |
| `RegistryObject.Registry.constructor` | src/coordinator.rs:85-92 | starts empty and without a whitelist |
| `RegistryObject.Registry.SetWhitelist` | src/coordinator.rs:121-123 | replaces the whitelist and nothing else |
| `RegistryObject.Registry.Register` | src/coordinator.rs:125-171 | the in-place update is the specified one; a failed write reports an error but keeps the change |
| `RegistryObject.Registry.Poll` | src/coordinator.rs:174-187 | refreshes a known node's endpoints and refuses an unknown one |
| `RegistryObject.Registry.PeersFor` | src/coordinator.rs:190-200 | lists every node but the one that asks, each once, in some order |
| `Listing.AdvertisedAreHosts` | src/coordinator.rs:190-200 | what the registry advertises parses, where it parses, to single /32 subnets with distinct addresses, each that of the node whose key it gives |
| `Listing.StartupIsNew` | src/daemon.rs:335-345 | the first table holds, in order, a new peer for each listed description that parses, with its key, endpoint and subnets |
| `Listing.StartupHasHostRoutes` | src/daemon.rs:335-345 | the first table of a node, made from any listing of any reachable registry, has one /32 per peer and no address twice |
| `Listing.StartupIsDistinct` | src/daemon.rs:335-345 | the first table has no key twice if and only if no two listed keys that parse spell the same bytes |
| `Listing.SyncGivesHostRoutes` | src/peer.rs:392-427 | a sync from such descriptions leaves one /32 per peer and no address twice if and only if later entries of repeated keys keep clear of the other addresses; a table without repeated keys always comes out so, and without repeated keys |
| `Listing.FirstSyncBreaksRepeatedKeys` | src/peer.rs:409-412 | if the first listing spells a key twice, the first sync with that very listing gives two entries the same single /32 |
| `Listing.RepeatedKeyWitness` | src/coordinator.rs:138-168 | from an empty registry, one key registered in small letters and in capitals leads a third node's table, after one sync, to two entries with the same key and the same /32 |
| `EndToEnd.RouteLeadsBack` | src/peer.rs:429-445 | in such a table the peer that may use an address is the one found for it |
| `EndToEnd.ActDelivers` | src/daemon.rs:768-820 | only reconciliation changes routes, and what reaches TUN was opened by a peer that may use its source address |
| `EndToEnd.TablesHaveHostRoutes` | src/daemon.rs:893-896 | along every run of a node that registers with any reachable registry and syncs with any, in any listing order, host routes stay disjoint if the first listing spells no key twice |
| `EndToEnd.HostRoutesHoldIffKeysDiffer` | src/daemon.rs:335-345 | every table of every such run has disjoint host routes if and only if the first listing spells no key twice |
| `EndToEnd.RepliesGoToTheSender` | src/daemon.rs:768-820 | along every such run whose first listing spells no key twice, replies to a packet written to TUN are routed to the very entry whose session decrypted it |
| `EndToEnd.SharedHostLosesReplies` | src/peer.rs:429-445 | of two entries with the same /32 the later one never gets the replies to what it may send |
| `EndToEnd.RoutesLeadBackIffKeysDiffer` | src/peer.rs:429-445 | in every table of every such run each entry gets the replies to all it may send, if and only if the first listing spells no key twice |
| `EndToEnd.RepliesGoToTheSendersKey` | src/daemon.rs:768-820 | along every run of a node served by one registry, repeated keys or not, replies are routed to an entry of the key whose session decrypted the packet |
| `EndToEnd.TunPacketsAreAuthentic` | src/daemon.rs:768-829 | in every run under the attacker, a packet written to TUN was sealed for this node by the peer that may use its source address, and is the payload that peer was given when its length field is right |
| `RelayCodec.DecodeAfterFrames` | src/relay.rs:114-146 | frames come out as they went in, followed by whatever the rest of the stream holds |
| `RelayCodec.StreamRoundTrip` | src/relay.rs:97-146 | decoding undoes encoding for every list of frames of at most 65536 bytes |
| `RelayCodec.CutStream` | src/relay.rs:116-133 | a stream cut at any byte yields exactly the frames complete before the cut |
| `RelayCodec.CompleteIsLongest` | src/relay.rs:116-133 | those are the longest run of frames that fits before the cut |
| `RelayCodec.InvalidLengthEnds` | src/relay.rs:122-126 | a length out of range ends decoding with the earlier frames intact |
| `RelayCodec.Socket.ReadExact` | src/relay.rs:118-121 | takes exactly the next bytes of the stream, wherever chunk borders lie, or fails at its end |
| `RelayCodec.ReceiveLoop` | src/relay.rs:114-146 | the loop over any chunking delivers the decoding of the whole stream |
| `RelayCodec.TransmitLoop` | src/relay.rs:97-111 | the three writes per frame put the encoding of all frames on the stream |
| `RelayCodec.Transfer` | src/bin/coordinatord.rs:177-200 | whatever the chunking, the receiver gets the list that was sent |
| `RelayRouter.RunsAreOk` | src/bin/coordinatord.rs:140-232 | the routing invariant holds under every interleaving of connects, reads, sends, writes and disconnects |
| `RelayRouter.WrittenFramesAreGenuine` | src/bin/coordinatord.rs:159-219 | a frame written to a connection was read with that identity as destination, carries the reader's own identity and an unchanged payload, appears once, and in order per sender |
| `RelayRouter.ClientsDecodeWhatWasWritten` | src/bin/coordinatord.rs:161-172 | wherever the stream is cut, the client's decoder accepts the frames written so far and yields, in order, sender key and payload of each |
| `RelayRouter.SoleConnectionsAreRouted` | src/bin/coordinatord.rs:152-157 | while no key is connected twice at a time, every open connection is reachable by its key |
| `RelayRouter.RoutedExactlyWhileSole` | src/bin/coordinatord.rs:152-157 | in every run, all open connections have been reachable by their keys throughout if and only if no key was ever connected twice at a time |
| `RelayRouter.RoutedExactlyWhileUntouched` | src/bin/coordinatord.rs:152-230 | a connection is reachable by its key if and only if it is open and no client with its key connected or disconnected since it was made |
| `RelayRouter.EveryConnectionIsBorn` | src/bin/coordinatord.rs:152-157 | every connection of every run was made by one connect of the run, so the condition above applies to it |
| `RelayRouter.ReconnectLosesItsRoute` | src/bin/coordinatord.rs:226-230 | the run connect, connect again, close the first: the second connection is open and cannot be reached |
| `RelayRouter.NamesakeClosesTheRoute` | src/bin/coordinatord.rs:226-230 | when one of two connections with the same key closes, the other stays as it is and frames for the key go nowhere |
| `RelayForwarding.FrameLandsAtItsHandOver` | src/bin/coordinatord.rs:195-219 | in every run, a frame read while its key leads to a connection lands in that channel, and nowhere else, if and only if its sender's next hand-over finds the connection open; it then stands last there |
| `RelayForwarding.UnroutedFrameLandsNowhere` | src/bin/coordinatord.rs:203-209 | a frame whose key leads nowhere when it is read never lands |
| `RelayForwarding.LandedIsWrittenInTurn` | src/bin/coordinatord.rs:161-172 | a channel is written from the front, one frame per write, and nothing in it is lost |
| `RelayForwarding.FrameArrivesIff` | src/bin/coordinatord.rs:159-219 | in every run, such a frame has been written to its destination if and only if it was handed over while the destination was open and more frames were written there since than stood before it; it carries the sender's own key and the payload as read |
| `RelayForwarding.HandOverIsPossible` | src/bin/coordinatord.rs:203-209 | a waiting frame can be handed over exactly unless the channel of an open destination holds 64 frames |
| `RateLimiter.Limiter.Admit` | src/bin/coordinatord.rs:247-259 | passes unless the last pass of the address is less than 5 s old; refusals leave that time alone |
| `RateLimiter.PassesAreApart` | src/bin/coordinatord.rs:250-258 | requests of one address that pass are at least 5 s apart |
| `RateLimiter.WaitingIsEnough` | src/bin/coordinatord.rs:250-258 | a request 5 s or more after every earlier pass passes, whatever was refused in between |
| `RateLimiter.PassRateIsBounded` | src/bin/coordinatord.rs:247-259 | any window of T ms sees at most T/5000 + 1 passes of one address |

## Left out

- Noise, ChaCha20-Poly1305 and x25519 themselves, key zeroization and compromised private keys: the
  ideal box above stands for them. Each responder completion opens a session with a fresh id, and
  handshake ids are fresh.
- TUN and UDP devices, tokio scheduling, HTTP, JSON and the state file: what remains is the atomic
  step under the daemon's mutex, the byte stream, the bounded channel, and a write that may fail. A
  step reads the clock once, where the source reads it several times under one lock.
- Loading an existing state file (`Registry::load_or_new`): registries here start empty.
- Text of socket addresses and IPv6: `Spec.AddrSyntax` is a parameter, which the round trip requires
  to print non-empty text without semicolons that reads back.
- CLI and TOML resolution, metrics, status reports, `Backoff`, `network_view`, hole punching and the
  desktop application.
- Overflow checks of debug builds: counters wrap modulo 2^64, and the host range of a /0 block uses
  wrapping arithmetic; with checks on, both panic.
- The relay's shared route map is modelled on values, as one state with all connections and
  interleaved steps, and not as a class: the source shares it between concurrent tasks.
- When a namesake connects, the source drops the older connection's only stored sender, so that
  connection closes once its channel is empty and nobody is still sending to it. The relay model lets
  it close at any time or stay open; safety holds either way, and the theorems on reachability speak
  of connects and disconnects as they happen.
- Rekeying.NoEndIsFoundDead: a rekey that crosses another, is answered twice or is not completed within
  2 s ends the run, because the ends then part (`PartedEnds`); that two parted ends meet again is not
  proved. The library does not fail on keepalives and handshakes there.
- Grace.ReplacedSessionOpens: speaks of lives in which the session does not come back; in runs of the
  network it never does (`Agreement.RetiredNeverReturns`). An entry dropped by a sync has no further
  life; one made later for the same key starts without sessions.
- Grace.PreviousIsLastReplaced: as above.
- World.RunsAreSafe: says nothing of whether both sides send in the same session; the code does not
  guarantee it, and `Agreement.EndsAgreeExactlyWhileUndisturbed` says when they do.
- EndToEnd.RepliesGoToTheSender: peers given on the command line or by hand may overlap; there only
  the longest-prefix theorems apply.
- Listing.RepeatedKeyWitness: the registration rate limit is not part of this model's registry; the
  two requests come from different addresses or 5 s apart.
