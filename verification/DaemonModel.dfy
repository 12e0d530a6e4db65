/**
 * What one locked section of each daemon task (src/daemon.rs) does to the peer table, on values,
 * together with routing and reconciliation of `PeerManager` (src/peer.rs).
 */
module DaemonModel {
  import opened Wrappers
  import opened Words
  import opened Packet
  import opened Noise
  import opened PeerModel

  type Peers = seq<PeerState>

  /** An event together with the daemon it happened at and the peer entry it concerns. */
  datatype LogEntry = LogEntry(local: Key, remote: Key, event: Event)

  function Tag(local: Key, remote: Key, events: seq<Event>): (es: seq<LogEntry>)
    ensures |es| == |events|
  {
    seq(|events|, i requires 0 <= i < |events| => LogEntry(local, remote, events[i]))
  }

  /** The fields of `PeerManager` and of the daemon that its steps read. */
  datatype Config = Config(local: Key, magic: Magic, hasRelay: bool)

  // ---------------------------------------------------------------- routing

  /** The longest prefix of `p` that matches, or -1. */
  function BestPrefix(subnets: seq<Subnet>, ip: Ipv4Addr): int {
    if subnets == [] then -1
    else
      var rest := BestPrefix(subnets[..|subnets| - 1], ip);
      var s := subnets[|subnets| - 1];
      if s.Contains(ip) && s.prefixLen > rest then s.prefixLen else rest
  }

  predicate Allows(p: PeerState, ip: Ipv4Addr) {
    exists s | s in p.allowedIps :: s.Contains(ip)
  }

  datatype Best = Best(idx: Option<nat>, prefixLen: int)

  /** The peer with the longest matching prefix; the first one in table order on a tie. */
  function FindBest(peers: Peers, ip: Ipv4Addr): (b: Best)
    ensures b.idx.Some? ==> b.idx.value < |peers|
  {
    if peers == [] then Best(None, -1)
    else
      var rest := FindBest(peers[..|peers| - 1], ip);
      var len := BestPrefix(peers[|peers| - 1].allowedIps, ip);
      if len > rest.prefixLen then Best(Some(|peers| - 1), len) else rest
  }

  function FindKey(peers: Peers, key: Key): (i: Option<nat>)
    ensures i.Some? ==> i.value < |peers| && peers[i.value].pubkey == key
    ensures i.Some? ==> forall k | 0 <= k < i.value :: peers[k].pubkey != key
    ensures i.None? ==> forall k | 0 <= k < |peers| :: peers[k].pubkey != key
  {
    if peers == [] then None
    else if peers[0].pubkey == key then Some(0)
    else match FindKey(peers[1..], key)
         case Some(i) => assert forall k | 0 < k < |peers| :: peers[k] == peers[1..][k - 1]; Some(i + 1)
         case None => assert forall k | 0 < k < |peers| :: peers[k] == peers[1..][k - 1]; None
  }

  function FindEndpoint(peers: Peers, addr: Endpoint): (i: Option<nat>)
    ensures i.Some? ==> i.value < |peers| && peers[i.value].endpoint == Some(addr)
    ensures i.Some? ==> forall k | 0 <= k < i.value :: peers[k].endpoint != Some(addr)
    ensures i.None? ==> forall k | 0 <= k < |peers| :: peers[k].endpoint != Some(addr)
  {
    if peers == [] then None
    else if peers[0].endpoint == Some(addr) then Some(0)
    else match FindEndpoint(peers[1..], addr)
         case Some(i) => assert forall k | 0 < k < |peers| :: peers[k] == peers[1..][k - 1]; Some(i + 1)
         case None => assert forall k | 0 < k < |peers| :: peers[k] == peers[1..][k - 1]; None
  }

  // ------------------------------------------------------------- timer task

  /** What comes from outside in one peer's tick: a fresh handshake id, its padding, which library calls succeed. */
  datatype TickInput = TickInput(hs: nat, padding: Bytes, rotateOk: bool, keepaliveOk: bool, initiateOk: bool)

  type Action = (Wire, OutboundDest)

  datatype Ticked = Ticked(peer: PeerState, actions: seq<Action>, events: seq<Event>)

  function Idle(p: PeerState): Outcome<Wire> {
    Outcome(p, None, [])
  }

  /** A produced packet is queued when the peer can be reached. */
  function Queue(c: Config, o: Outcome<Wire>, now: nat): seq<Action> {
    var dest := DetermineDest(o.peer, c.hasRelay, now);
    if o.result.Some? && dest.Some? then [(o.result.value, dest.value)] else []
  }

  predicate Reachable(c: Config, p: PeerState) {
    p.endpoint.Some? || c.hasRelay
  }

  function Rotate(c: Config, p: PeerState, inp: TickInput, now: nat): (o: Outcome<Wire>)
    ensures o.peer.pubkey == p.pubkey
  {
    var p := ExpirePrevious(p, now);
    if RotationDue(p, now) && p.handshake.None?
    then Initiate(p, c.local, inp.hs, inp.padding, now, inp.rotateOk)
    else Idle(p)
  }

  predicate Dead(p: PeerState, now: nat) {
    p.active.Some? && Secs(now, p.lastRx) >= 15
  }

  function ClearDead(p: PeerState, now: nat): (o: PeerState)
    ensures o.pubkey == p.pubkey
  {
    if Dead(p, now) then p.(active := None, previous := None) else p
  }

  function Buried(p: PeerState, now: nat): seq<Event> {
    if Dead(p, now) then RetireActive(p) else []
  }

  function Keepalive(p: PeerState, inp: TickInput, now: nat): (o: Outcome<Wire>)
    ensures o.peer.pubkey == p.pubkey
  {
    if p.active.Some? && Secs(now, p.lastTx) >= 10 then Encrypt(p, [], [], now, inp.keepaliveOk) else Idle(p)
  }

  function Retry(c: Config, p: PeerState, inp: TickInput, now: nat): (o: Outcome<Wire>)
    ensures o.peer.pubkey == p.pubkey
  {
    if p.active.None? && p.handshake.None? && Reachable(c, p)
    then Initiate(p, c.local, inp.hs, inp.padding, now, inp.initiateOk)
    else if p.attempt.Some? && Secs(now, p.attempt.value) >= 2
      then Outcome(p.(attempt := Some(now)), p.packet, [])
      else Idle(p)
  }

  function TickPeer(c: Config, p: PeerState, inp: TickInput, now: nat): (o: Ticked)
    ensures o.peer.pubkey == p.pubkey
  {
    var rotated := Rotate(c, p, inp, now);
    var kept := Keepalive(ClearDead(rotated.peer, now), inp, now);
    var retried := Retry(c, kept.peer, inp, now);
    Ticked(retried.peer,
           Queue(c, rotated, now) + Queue(c, kept, now) + Queue(c, retried, now),
           rotated.events + Buried(rotated.peer, now) + kept.events + retried.events)
  }

  /** One step of a task: the new table, packets to send, a plaintext for TUN, and what happened. */
  datatype Step = Step(peers: Peers, actions: seq<Action>, tun: Option<Bytes>, log: seq<LogEntry>)

  function Tick(c: Config, peers: Peers, inputs: seq<TickInput>, now: nat): (s: Step)
    requires |inputs| == |peers|
    ensures |s.peers| == |peers|
  {
    if peers == [] then Step([], [], None, [])
    else
      var n := |peers| - 1;
      var rest := Tick(c, peers[..n], inputs[..n], now);
      var t := TickPeer(c, peers[n], inputs[n], now);
      Step(rest.peers + [t.peer], rest.actions + t.actions, None,
           rest.log + Tag(c.local, peers[n].pubkey, t.events))
  }

  // --------------------------------------------------------- TUN to network

  datatype SendInput = SendInput(hs: nat, padding: Bytes, encryptOk: bool, initiateOk: bool)

  function SendVia(c: Config, p: PeerState, packet: Bytes, inp: SendInput, now: nat): (o: Outcome<Wire>)
    ensures o.peer.pubkey == p.pubkey
  {
    var o := Encrypt(p, packet, inp.padding, now, inp.encryptOk);
    if o.result.None? && o.peer.active.None? && o.peer.handshake.None?
    then Initiate(o.peer, c.local, inp.hs, inp.padding, now, inp.initiateOk)
    else o
  }

  function TunSend(c: Config, peers: Peers, packet: Bytes, inp: SendInput, now: nat): Step {
    var header := ParseIpv4Header(packet);
    if header.None? then Step(peers, [], None, [])
    else
      var best := FindBest(peers, header.value.1).idx;
      if best.None? then Step(peers, [], None, [])
      else
        var i := best.value;
        var o := SendVia(c, peers[i], packet, inp, now);
        Step(peers[i := o.peer], Queue(c, o, now), None, Tag(c.local, peers[i].pubkey, o.events))
  }

  // --------------------------------------------------------- network to TUN

  /** A fresh session id, response padding, and whether the library calls succeed. */
  datatype RecvInput = RecvInput(id: nat, padding: Bytes, ok: bool)

  /** A decrypted packet goes to TUN when its source address is one the peer may use. */
  predicate Admitted(o: Outcome<Bytes>) {
    o.result.Some? && ParseIpv4Header(o.result.value).Some? && Allows(o.peer, ParseIpv4Header(o.result.value).value.0)
  }

  function UdpInit(c: Config, peers: Peers, payload: Wire, addr: Endpoint, inp: RecvInput, now: nat): Step {
    var read := ReadInit(c.local, Cut(payload, INIT_LEN));
    if read.None? then Step(peers, [], None, [])
    else
      var found := FindKey(peers, read.value.1);
      if found.None? then Step(peers, [], None, [])
      else
        var i := found.value;
        var seen := peers[i].(endpoint := Some(addr), lastDirectRx := now);
        var o := Answer(seen, c.magic, read.value.0, inp.id, inp.padding, now, inp.ok);
        Step(peers[i := o.peer], if o.result.Some? then [(o.result.value, Udp(addr))] else [], None,
             Tag(c.local, peers[i].pubkey, o.events))
  }

  function UdpResp(c: Config, peers: Peers, payload: Wire, addr: Endpoint, inp: RecvInput, now: nat): Step {
    var found := FindEndpoint(peers, addr);
    if found.None? then Step(peers, [], None, [])
    else
      var i := found.value;
      var o := HandleHandshake(peers[i], c.local, c.magic.handshakeResp, payload, inp.id, inp.padding, now, inp.ok);
      Step(peers[i := o.peer.(lastDirectRx := now)], [], None, Tag(c.local, peers[i].pubkey, o.events))
  }

  /** Try every peer from `k` on whose endpoint is not `addr`; the one that opens the packet has roamed. */
  function TrialDecrypt(c: Config, peers: Peers, k: nat, payload: Wire, addr: Endpoint, now: nat): Step
    requires k <= |peers|
    decreases |peers| - k
  {
    if k == |peers| then Step(peers, [], None, [])
    else if peers[k].endpoint == Some(addr) then TrialDecrypt(c, peers, k + 1, payload, addr, now)
    else
      var o := Decrypt(peers[k], payload, now);
      var log := Tag(c.local, peers[k].pubkey, o.events);
      if Admitted(o) then
        Step(peers[k := o.peer.(endpoint := Some(addr), lastDirectRx := now)], [], o.result, log)
      else
        var rest := TrialDecrypt(c, peers[k := o.peer], k + 1, payload, addr, now);
        rest.(log := log + rest.log)
  }

  function UdpData(c: Config, peers: Peers, payload: Wire, addr: Endpoint, now: nat): Step {
    var found := FindEndpoint(peers, addr);
    if found.None? then TrialDecrypt(c, peers, 0, payload, addr, now)
    else
      var i := found.value;
      var o := Decrypt(peers[i], payload, now);
      var log := Tag(c.local, peers[i].pubkey, o.events);
      if Admitted(o) then Step(peers[i := o.peer.(lastDirectRx := now)], [], o.result, log)
      else
        var rest := TrialDecrypt(c, peers[i := o.peer], 0, payload, addr, now);
        rest.(log := log + rest.log)
  }

  function UdpReceive(c: Config, peers: Peers, datagram: Wire, addr: Endpoint, inp: RecvInput, now: nat): Step {
    if datagram == [] then Step(peers, [], None, [])
    else
      var packetType, payload := Values(datagram)[0], datagram[1..];
      if packetType == c.magic.handshakeInit then UdpInit(c, peers, payload, addr, inp, now)
      else if packetType == c.magic.handshakeResp then UdpResp(c, peers, payload, addr, inp, now)
      else if packetType == c.magic.data then UdpData(c, peers, payload, addr, now)
      else Step(peers, [], None, [])
  }

  // ------------------------------------------------------------ relay to TUN

  function RelayInit(c: Config, peers: Peers, from: Key, payload: Wire, inp: RecvInput, now: nat): Step {
    var read := ReadInit(c.local, Cut(payload, INIT_LEN));
    if read.None? || read.value.1 != from then Step(peers, [], None, [])
    else
      var found := FindKey(peers, from);
      if found.None? then Step(peers, [], None, [])
      else
        var i := found.value;
        var o := Answer(peers[i], c.magic, read.value.0, inp.id, inp.padding, now, inp.ok);
        Step(peers[i := o.peer], if o.result.Some? then [(o.result.value, Relay(from))] else [], None,
             Tag(c.local, peers[i].pubkey, o.events))
  }

  function RelayResp(c: Config, peers: Peers, from: Key, payload: Wire, inp: RecvInput, now: nat): Step {
    var found := FindKey(peers, from);
    if found.None? then Step(peers, [], None, [])
    else
      var i := found.value;
      var o := HandleHandshake(peers[i], c.local, c.magic.handshakeResp, payload, inp.id, inp.padding, now, inp.ok);
      Step(peers[i := o.peer], [], None, Tag(c.local, peers[i].pubkey, o.events))
  }

  function RelayData(c: Config, peers: Peers, from: Key, payload: Wire, now: nat): Step {
    var found := FindKey(peers, from);
    if found.None? then Step(peers, [], None, [])
    else
      var i := found.value;
      var o := Decrypt(peers[i], payload, now);
      Step(peers[i := o.peer], [], if Admitted(o) then o.result else None, Tag(c.local, peers[i].pubkey, o.events))
  }

  /** `process_relayed_packet`; `from` is whatever the relay claims. */
  function RelayReceive(c: Config, peers: Peers, from: Key, packet: Wire, inp: RecvInput, now: nat): Step {
    if packet == [] then Step(peers, [], None, [])
    else
      var packetType, payload := Values(packet)[0], packet[1..];
      if packetType == c.magic.handshakeInit then RelayInit(c, peers, from, payload, inp, now)
      else if packetType == c.magic.handshakeResp then RelayResp(c, peers, from, payload, inp, now)
      else if packetType == c.magic.data then RelayData(c, peers, from, payload, now)
      else Step(peers, [], None, [])
  }

  // ---------------------------------------------------------- reconciliation

  /** A peer description that parsed (src/config.rs). */
  datatype ParsedPeer = ParsedPeer(pubkey: Key, endpoint: Option<Endpoint>, allowedIps: seq<Subnet>)

  predicate Wanted(wanted: seq<ParsedPeer>, key: Key) {
    exists w | w in wanted :: w.pubkey == key
  }

  function Retain(peers: Peers, wanted: seq<ParsedPeer>): Peers {
    if peers == [] then []
    else
      var rest := Retain(peers[..|peers| - 1], wanted);
      var p := peers[|peers| - 1];
      if Wanted(wanted, p.pubkey) then rest + [p] else rest
  }

  /** The sessions lost with the peers that are no longer wanted. */
  function Dropped(local: Key, peers: Peers, wanted: seq<ParsedPeer>): seq<LogEntry> {
    if peers == [] then []
    else
      var rest := Dropped(local, peers[..|peers| - 1], wanted);
      var p := peers[|peers| - 1];
      if Wanted(wanted, p.pubkey) then rest else rest + Tag(local, p.pubkey, RetireActive(p))
  }

  datatype Synced = Synced(peers: Peers, newEndpoints: seq<Endpoint>)

  /** Update the first peer with the key in place, or append a new one. */
  function Upsert(peers: Peers, w: ParsedPeer, magic: Magic, now: nat): Synced {
    match FindKey(peers, w.pubkey)
    case Some(i) => Synced(peers[i := peers[i].(endpoint := w.endpoint, allowedIps := w.allowedIps)], [])
    case None => Synced(peers + [NewPeer(w.pubkey, w.endpoint, w.allowedIps, magic, now)],
                        if w.endpoint.Some? then [w.endpoint.value] else [])
  }

  function UpsertAll(peers: Peers, wanted: seq<ParsedPeer>, magic: Magic, now: nat): Synced {
    if wanted == [] then Synced(peers, [])
    else
      var n := |wanted| - 1;
      var rest := UpsertAll(peers, wanted[..n], magic, now);
      var last := Upsert(rest.peers, wanted[n], magic, now);
      Synced(last.peers, rest.newEndpoints + last.newEndpoints)
  }

  function Reconcile(peers: Peers, wanted: seq<ParsedPeer>, magic: Magic, now: nat): Synced {
    UpsertAll(Retain(peers, wanted), wanted, magic, now)
  }
}
