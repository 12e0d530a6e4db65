/**
 * What is delivered: a packet read from one TUN device goes to the peer its destination belongs to,
 * and reaches the other TUN device exactly under the conditions stated here, on the octets of the
 * packet and the fields of the two entries.
 */
module Delivery {
  import opened Wrappers
  import opened Words
  import opened Packet
  import opened Noise
  import opened Replay
  import opened PeerModel
  import opened DaemonModel
  import opened Routing
  import opened Padding
  import opened Arrival
  import opened Ends

  // ------------------------------------------------------------------ receiving

  /** The session in which an entry takes packets for `end`: the active one, or a previous one under 15 s old. */
  function Hearing(q: PeerState, end: SessionKey, now: nat): Option<SessionState> {
    if q.active.Some? && q.active.value.end == end then q.active
    else if q.previous.Some? && q.previous.value.end == end && now < q.previous.value.establishedAt + 15_000
    then q.previous else None
  }

  /** The entry holds the session, and its window takes the nonce. */
  predicate Takes(q: PeerState, end: SessionKey, nonce: u64, now: nat) {
    Hearing(q, end, now).Some? && Accepts(Hearing(q, end, now).value.window, nonce)
  }

  /** The nonce is spent, the time noted, and nothing else changed but where the peer was last heard. */
  predicate Heard(q: PeerState, r: PeerState, end: SessionKey, nonce: u64, size: nat, now: nat) {
    && r == q.(active := r.active, previous := r.previous, lastRx := now, endpoint := r.endpoint,
            lastDirectRx := r.lastDirectRx)
    && (if q.active.Some? && q.active.value.end == end
        then r.previous == q.previous && r.active.Some? && Noted(q.active.value, r.active.value, nonce, size)
        else r.active == q.active && q.previous.Some? && r.previous.Some?
             && Noted(q.previous.value, r.previous.value, nonce, size))
  }

  predicate Noted(s: SessionState, t: SessionState, nonce: u64, size: nat) {
    t == s.(window := s.window + {nonce}, rxBytes := (s.rxBytes + size) % 0x1_0000_0000_0000_0000)
  }

  /** Of all entries only number `i` may hold the session. */
  ghost predicate OnlyAt(ps: Peers, i: nat, end: SessionKey) {
    i < |ps| && forall j | 0 <= j < |ps| && j != i :: Deaf(ps[j], end)
  }

  /** The address in octets 12 to 15 is one the entry may use. */
  predicate MayCome(q: PeerState, packet: Bytes) {
    HasHeader(packet) && exists s | s in q.allowedIps :: s.Contains(Source(packet))
  }

  lemma OpensAtOtherEnd(sealer: SessionKey, nonce: nat, plain: Bytes)
    ensures forall end :: Open(end, nonce, Octets(Sealed(sealer, nonce, plain)))
                          == if end == sealer.OtherEnd() then Some(plain) else None
  {
    hide Octets, Recognize;
    RecognizesItsOwnOctets(Sealed(sealer, nonce, plain));
  }

  lemma DecryptIsHearing(q: PeerState, body: Wire, end: SessionKey, nonce: u64, plain: Bytes, now: nat)
    requires |body| >= 24 && NonceOf(body) == nonce
    requires forall e :: Open(e, nonce, body[8..]) == if e == end then Some(plain) else None
    ensures var o := Decrypt(q, body, now);
            if Takes(q, end, nonce, now)
            then o.result == Some(Unpad(plain)) && Heard(q, o.peer, end, nonce, |body|, now)
                 && o.peer.endpoint == q.endpoint && o.peer.lastDirectRx == q.lastDirectRx
            else o.result == None && o.peer == q
  {
    hide NonceOf, Unpad, Open, Accepts;
  }

  lemma SealedSize(p: PeerState, payload: Bytes, padding: Bytes, now: nat)
    requires p.active.Some?
    ensures var wire := Encrypt(p, payload, padding, now, true).result;
            wire.Some? && |wire.value| == 25 + |payload| + (if HasHeader(payload) then |padding| else 0)
  {
    hide Octets, Bytewise, ToBigEndian;
    HeaderFields(payload);
    hide ParseIpv4TotalLength, HasHeader;
  }

  /** What an entry makes of a packet sealed by the other end: all there is to know of `decrypt_packet`. */
  lemma SealedIsDecrypted(p: PeerState, q: PeerState, payload: Bytes, padding: Bytes, sentAt: nat, now: nat)
    requires p.active.Some? && LengthHonest(payload)
    ensures var end, nonce := p.active.value.end.OtherEnd(), p.active.value.txNonce;
            var wire := Encrypt(p, payload, padding, sentAt, true).result;
            && wire.Some? && |wire.value| == 25 + |payload| + (if HasHeader(payload) then |padding| else 0)
            && wire.value == [Known(p.magic.data)] + wire.value[1..]
            && var o := Decrypt(q, wire.value[1..], now);
            if Takes(q, end, nonce, now)
            then o.result == Some(payload) && Heard(q, o.peer, end, nonce, |wire.value| - 1, now)
                 && o.peer.endpoint == q.endpoint && o.peer.lastDirectRx == q.lastDirectRx
            else o.result == None && o.peer == q
  {
    SealedSize(p, payload, padding, sentAt);
    hide Octets, Bytewise, NonceOf, Unpad, Pad, Open, Decrypt, Takes, Heard, ToBigEndian, HasHeader;
    var s := p.active.value;
    var m := Sealed(s.end, s.txNonce, Pad(payload, padding));
    var wire := Encrypt(p, payload, padding, sentAt, true).result.value;
    assert wire[1..] == Bytewise(ToBigEndian(s.txNonce, 8)) + Octets(m);
    DataPacketLayout(s.txNonce, m);
    OpensAtOtherEnd(s.end, s.txNonce, Pad(payload, padding));
    DecryptIsHearing(q, wire[1..], s.end.OtherEnd(), s.txNonce, Pad(payload, padding), now);
    UnpadUndoesPad(payload, padding);
  }

  lemma AdmittedByOctets(o: Outcome<Bytes>)
    ensures Admitted(o) <==> o.result.Some? && MayCome(o.peer, o.result.value)
  {
    if o.result.Some? {
      HeaderFields(o.result.value);
    }
  }

  /** What the table and TUN are after entry `i` took the packet or did not. */
  ghost predicate Outcomes(ps: Peers, s: Step, i: nat, taken: bool, end: SessionKey, nonce: u64, size: nat,
                           payload: Bytes, now: nat)
    requires i < |ps|
  {
    && |s.peers| == |ps| && (forall j | 0 <= j < |ps| && j != i :: s.peers[j] == ps[j])
    && s.actions == []
    && s.tun == (if taken && MayCome(ps[i], payload) then Some(payload) else None)
    && (if taken then Heard(ps[i], s.peers[i], end, nonce, size, now) else s.peers[i] == ps[i])
  }

  /**
   * A packet over UDP: it is written to TUN, unchanged, exactly if its entry is not shadowed, its
   * session takes the nonce, and its source is one the entry may use. The entry then has the address
   * the packet came from.
   */
  lemma UdpPacketIsWritten(c: Config, ps: Peers, i: nat, p: PeerState, payload: Bytes, padding: Bytes, sentAt: nat,
                           addr: Endpoint, inp: RecvInput, now: nat)
    requires p.active.Some? && OnlyAt(ps, i, p.active.value.end.OtherEnd()) && LengthHonest(payload)
    requires p.magic.data == c.magic.data && BytesDiffer(c.magic)
    ensures var end, nonce := p.active.value.end.OtherEnd(), p.active.value.txNonce;
            var wire := Encrypt(p, payload, padding, sentAt, true).result;
            var taken := Unshadowed(ps, i, addr) && Takes(ps[i], end, nonce, now);
            && wire.Some?
            && var s := UdpReceive(c, ps, wire.value, addr, inp, now);
            && Outcomes(ps, s, i, taken, end, nonce, |wire.value| - 1, payload, now)
            && (if s.tun.Some? then s.peers[i].endpoint == Some(addr) && s.peers[i].lastDirectRx == now
                else s.peers[i].endpoint == ps[i].endpoint && s.peers[i].lastDirectRx == ps[i].lastDirectRx)
  {
    hide Encrypt, Decrypt, UdpData, UdpReceive, Noted, Accepts, Admitted, MayCome, Hearing;
    SealedIsDecrypted(p, ps[i], payload, padding, sentAt, now);
    var wire := Encrypt(p, payload, padding, sentAt, true).result.value;
    OthersRefuseIt(p, ps, i, payload, padding, sentAt, now);
    DataIsDispatched(c, ps, wire[1..], addr, c.local, inp, now);
    DataReachesUnshadowed(c, ps, i, wire[1..], addr, now);
    OfferedByOctets(ps[i], wire[1..], addr, now);
    UdpDataQueuesNothing(c, ps, wire[1..], addr, now);
  }

  lemma OthersRefuseIt(p: PeerState, ps: Peers, i: nat, payload: Bytes, padding: Bytes, sentAt: nat, now: nat)
    requires p.active.Some? && OnlyAt(ps, i, p.active.value.end.OtherEnd())
    ensures var wire := Encrypt(p, payload, padding, sentAt, true).result;
            wire.Some? && |wire.value| > 0 && OthersRefuse(ps, i, wire.value[1..], now)
  {
    var s := p.active.value;
    EncryptSealsAs(p, payload, padding, sentAt);
    var wire := Encrypt(p, payload, padding, sentAt, true).result.value;
    ArrivingPacketOpens(wire, p.magic.data, s.end, s.txNonce);
    forall j | 0 <= j < |ps| && j != i ensures Refuses(ps[j], wire[1..], now) {
      DeafRefuses(ps[j], s.end.OtherEnd(), wire[1..], now);
    }
  }

  lemma EncryptSealsAs(p: PeerState, payload: Bytes, padding: Bytes, now: nat)
    requires p.active.Some?
    ensures var o := Encrypt(p, payload, padding, now, true);
            o.result.Some? && SealedAs(o.result.value, p.magic.data, p.active.value.end, p.active.value.txNonce)
  {
    hide Pad, ToBigEndian, Octets, Bytewise;
    var s, o := p.active.value, Encrypt(p, payload, padding, now, true);
    assert o.result.value == [Known(p.magic.data)] + Bytewise(ToBigEndian(s.txNonce, 8))
                             + Octets(Sealed(s.end, s.txNonce, Pad(payload, padding)));
  }

  lemma OfferedByOctets(q: PeerState, payload: Wire, addr: Endpoint, now: nat)
    ensures var o := Decrypt(q, payload, now);
            && o.peer.allowedIps == q.allowedIps
            && (if o.result.Some? && MayCome(q, o.result.value)
                then Readable(q, payload, now) == o.result
                     && Offered(q, payload, addr, now) == o.peer.(endpoint := Some(addr), lastDirectRx := now)
                else Readable(q, payload, now) == None && Offered(q, payload, addr, now) == o.peer)
  {
    hide Admitted, Open, NonceOf, Accepts, Unpad;
    AdmittedByOctets(Decrypt(q, payload, now));
  }

  lemma {:induction false} TrialQueuesNothing(c: Config, ps: Peers, k: nat, payload: Wire, addr: Endpoint, now: nat)
    requires k <= |ps|
    ensures TrialDecrypt(c, ps, k, payload, addr, now).actions == []
    decreases |ps| - k
  {
    hide Decrypt, Admitted;
    if k < |ps| {
      TrialQueuesNothing(c, if ps[k].endpoint == Some(addr) then ps else ps[k := Decrypt(ps[k], payload, now).peer],
                         k + 1, payload, addr, now);
    }
  }

  lemma UdpDataQueuesNothing(c: Config, ps: Peers, payload: Wire, addr: Endpoint, now: nat)
    ensures UdpData(c, ps, payload, addr, now).actions == []
  {
    hide Decrypt, Admitted, TrialDecrypt;
    var found := FindEndpoint(ps, addr);
    TrialQueuesNothing(c, if found.None? then ps else ps[found.value := Decrypt(ps[found.value], payload, now).peer],
                       0, payload, addr, now);
  }

  /** No earlier entry has the key. */
  predicate FirstOfKey(ps: Peers, i: nat)
    requires i < |ps|
  {
    forall j | 0 <= j < i :: ps[j].pubkey != ps[i].pubkey
  }

  /**
   * A packet over the relay: written to TUN, unchanged, exactly if the relay names the key of its
   * entry, no earlier entry has that key, its session takes the nonce, and its source is one the entry
   * may use. Where the peer is heard directly stays as it was.
   */
  lemma RelayedPacketIsWritten(c: Config, ps: Peers, i: nat, p: PeerState, payload: Bytes, padding: Bytes, sentAt: nat,
                               from: Key, inp: RecvInput, now: nat)
    requires p.active.Some? && OnlyAt(ps, i, p.active.value.end.OtherEnd()) && LengthHonest(payload)
    requires p.magic.data == c.magic.data && BytesDiffer(c.magic)
    ensures var end, nonce := p.active.value.end.OtherEnd(), p.active.value.txNonce;
            var wire := Encrypt(p, payload, padding, sentAt, true).result;
            var taken := from == ps[i].pubkey && FirstOfKey(ps, i) && Takes(ps[i], end, nonce, now);
            && wire.Some?
            && var s := RelayReceive(c, ps, from, wire.value, inp, now);
            && Outcomes(ps, s, i, taken, end, nonce, |wire.value| - 1, payload, now)
            && s.peers[i].endpoint == ps[i].endpoint && s.peers[i].lastDirectRx == ps[i].lastDirectRx
  {
    hide Encrypt, Decrypt, RelayReceive, Heard, Accepts, Admitted, MayCome, Hearing;
    SealedIsDecrypted(p, ps[i], payload, padding, sentAt, now);
    var wire := Encrypt(p, payload, padding, sentAt, true).result.value;
    OthersRefuseIt(p, ps, i, payload, padding, sentAt, now);
    DataIsDispatched(c, ps, wire[1..], Endpoint(0), from, inp, now);
    var found := FindKey(ps, from);
    if found.Some? {
      AdmittedByOctets(Decrypt(ps[found.value], wire[1..], now));
      OfferedByOctets(ps[found.value], wire[1..], Endpoint(0), now);
    }
  }

  // -------------------------------------------------------------------- sending

  /** The address in octets 16 to 19 is one the entry may use. */
  predicate MayGo(p: PeerState, packet: Bytes) {
    HasHeader(packet) && exists s | s in p.allowedIps :: s.Contains(Destination(packet))
  }

  /** What is not an IPv4 packet, or is for an address that no peer may use, is dropped. */
  lemma UnroutedPacketIsDropped(c: Config, ps: Peers, packet: Bytes, inp: SendInput, now: nat)
    requires forall j | 0 <= j < |ps| :: !MayGo(ps[j], packet)
    ensures TunSend(c, ps, packet, inp, now) == Step(ps, [], None, [])
  {
    hide FindBest, SendVia;
    HeaderFields(packet);
    if HasHeader(packet) {
      UnroutedIffNotAllowed(ps, Destination(packet));
      assert forall j | 0 <= j < |ps| :: MayGo(ps[j], packet) <==> Allows(ps[j], Destination(packet));
    }
  }

  /** Directly while the peer was heard directly in the last 10 s, or there is no relay; else over the relay. */
  predicate GoesTo(c: Config, p: PeerState, now: nat, dest: OutboundDest) {
    match dest
    case Udp(addr) => p.endpoint == Some(addr) && (c.hasRelay ==> now < p.lastDirectRx + 10_000)
    case Relay(key) => c.hasRelay && key == p.pubkey && (p.endpoint.None? || p.lastDirectRx + 10_000 <= now)
  }

  /** A packet is queued for the peer if it has an endpoint or there is a relay. */
  ghost predicate QueuedFor(c: Config, p: PeerState, now: nat, actions: seq<Action>, wire: Wire) {
    if p.endpoint.Some? || c.hasRelay then |actions| == 1 && actions[0].0 == wire && GoesTo(c, p, now, actions[0].1)
    else actions == []
  }

  lemma QueueIsRight(c: Config, o: Outcome<Wire>, now: nat)
    requires o.result.Some?
    ensures QueuedFor(c, o.peer, now, Queue(c, o, now), o.result.value)
  {
  }

  lemma WinnerIsFound(ps: Peers, ip: Ipv4Addr, i: nat, winner: Subnet)
    requires i < |ps| && Wins(ps, ip, i, winner)
    ensures FindBest(ps, ip).idx == Some(i)
  {
    hide FindBest;
    assert Allows(ps[i], ip);
    UnroutedIffNotAllowed(ps, ip);
    RouteIsMostSpecific(ps, ip);
    var k := FindBest(ps, ip).idx.value;
    var other :| Wins(ps, ip, k, other);
  }

  /** The whole effect of a packet from TUN that has a route: nobody but its peer is touched. */
  lemma RoutedPacketIsSent(c: Config, ps: Peers, packet: Bytes, inp: SendInput, now: nat, i: nat, winner: Subnet)
    requires HasHeader(packet) && i < |ps| && Wins(ps, Destination(packet), i, winner)
    ensures var s := TunSend(c, ps, packet, inp, now);
            && |s.peers| == |ps| && (forall j | 0 <= j < |ps| && j != i :: s.peers[j] == ps[j]) && s.tun.None?
            && (ps[i].active.Some? ==> SealedAndQueued(c, ps[i], s.peers[i], packet, inp, now, s.actions))
            && (ps[i].active.None? ==> Knocked(c, ps[i], s.peers[i], inp, now, s.actions))
  {
    hide FindBest, Wins, Encrypt, Initiate, QueuedFor, Queue;
    HeaderFields(packet);
    WinnerIsFound(ps, Destination(packet), i, winner);
    SessionSeals(c, ps[i], packet, inp, now);
    NoSessionKnocks(c, ps[i], packet, inp, now);
  }

  /** With a session: the next nonce and the size are counted, and the sealed packet is queued. */
  ghost predicate SealedAndQueued(c: Config, p: PeerState, q: PeerState, packet: Bytes, inp: SendInput, now: nat,
                                  actions: seq<Action>)
    requires p.active.Some?
  {
    && q.active == Some(p.active.value.(txNonce := (p.active.value.txNonce + 1) % 0x1_0000_0000_0000_0000,
                        txBytes := (p.active.value.txBytes + |packet|) % 0x1_0000_0000_0000_0000))
    && q == p.(active := q.active, lastTx := if inp.encryptOk then now else p.lastTx)
    && (if inp.encryptOk then
          var sealed := Encrypt(p, packet, inp.padding, now, true).result;
          sealed.Some? && QueuedFor(c, p, now, actions, sealed.value)
        else actions == [])
  }

  /** Without: a handshake is started and its first message queued, unless one is in flight already. */
  ghost predicate Knocked(c: Config, p: PeerState, q: PeerState, inp: SendInput, now: nat, actions: seq<Action>) {
    if p.handshake.None? && inp.initiateOk then
      var offer := [Known(p.magic.handshakeInit)] + Octets(Init(inp.hs, c.local, p.pubkey)) + Bytewise(inp.padding);
      && q == p.(handshake := Some(inp.hs), attempt := Some(now), packet := Some(offer), lastTx := now)
      && QueuedFor(c, p, now, actions, offer)
    else q == p && actions == []
  }

  lemma SessionSeals(c: Config, p: PeerState, packet: Bytes, inp: SendInput, now: nat)
    ensures var o := SendVia(c, p, packet, inp, now);
            p.active.Some? ==> SealedAndQueued(c, p, o.peer, packet, inp, now, Queue(c, o, now))
  {
    hide Pad, Octets, Bytewise, ToBigEndian;
    if p.active.Some? && inp.encryptOk {
      QueueIsRight(c, SendVia(c, p, packet, inp, now), now);
    }
  }

  lemma NoSessionKnocks(c: Config, p: PeerState, packet: Bytes, inp: SendInput, now: nat)
    ensures var o := SendVia(c, p, packet, inp, now);
            p.active.None? ==> Knocked(c, p, o.peer, inp, now, Queue(c, o, now))
  {
    hide Octets, Bytewise;
    var o := SendVia(c, p, packet, inp, now);
    if p.active.None? && o.result.Some? {
      QueueIsRight(c, o, now);
    }
  }

  // ------------------------------------------------------- from one TUN to the other

  /**
   * A packet read from TUN at one node, queued for its peer with its padding, and received there. It
   * comes out of the other TUN as it went in exactly if it finds its entry there, the session takes its nonce,
   * and its source is one the entry may use; over UDP and over the relay.
   */
  lemma PacketCrosses(a: Config, ps: Peers, i: nat, winner: Subnet, packet: Bytes, inp: SendInput, sentAt: nat,
                      b: Config, qs: Peers, j: nat, addr: Endpoint, from: Key, rin: RecvInput, now: nat)
    requires HasHeader(packet) && LengthHonest(packet)
    requires i < |ps| && Wins(ps, Destination(packet), i, winner) && ps[i].active.Some? && inp.encryptOk
    requires ps[i].endpoint.Some? || a.hasRelay
    requires OnlyAt(qs, j, ps[i].active.value.end.OtherEnd())
    requires ps[i].magic.data == b.magic.data && BytesDiffer(b.magic)
    ensures var actions := TunSend(a, ps, packet, inp, sentAt).actions;
            && |actions| == 1 && GoesTo(a, ps[i], sentAt, actions[0].1)
            && |actions[0].0| == 25 + |packet| + |inp.padding|
            && var takes := Takes(qs[j], ps[i].active.value.end.OtherEnd(), ps[i].active.value.txNonce, now);
            && UdpReceive(b, qs, actions[0].0, addr, rin, now).tun
               == (if Unshadowed(qs, j, addr) && takes && MayCome(qs[j], packet) then Some(packet) else None)
            && RelayReceive(b, qs, from, actions[0].0, rin, now).tun
               == (if from == qs[j].pubkey && FirstOfKey(qs, j) && takes && MayCome(qs[j], packet)
                   then Some(packet) else None)
  {
    hide TunSend, Encrypt, Wins, UdpReceive, RelayReceive, Takes, MayCome, GoesTo;
    RoutedPacketIsSent(a, ps, packet, inp, sentAt, i, winner);
    SealedIsDecrypted(ps[i], qs[j], packet, inp.padding, sentAt, now);
    UdpPacketIsWritten(b, qs, j, ps[i], packet, inp.padding, sentAt, addr, rin, now);
    RelayedPacketIsWritten(b, qs, j, ps[i], packet, inp.padding, sentAt, from, rin, now);
  }
}
