/**
 * The state of one peer and what each operation of `Peer` in src/peer.rs does to it, on values.
 * The class in Peer.dfy is proved to act exactly so; the protocol theorems are about these
 * functions. Time is a millisecond count; randomness and crypto-library failures are arguments.
 */
module PeerModel {
  import opened Wrappers
  import opened Words
  import opened Packet
  import opened Noise
  import opened Replay

  /** A socket address; its text form is left to `Spec.AddrSyntax`. */
  datatype Endpoint = Endpoint(id: nat)

  datatype Magic = Magic(handshakeInit: u8, handshakeResp: u8, data: u8, probe: u8)

  datatype OutboundDest = Udp(addr: Endpoint) | Relay(key: Key)

  /** `window` is the set of nonces accepted so far (see Session.ReplayWindow). */
  datatype SessionState = SessionState(
    end: SessionKey,
    txNonce: u64,
    establishedAt: nat,
    txBytes: u64,
    rxBytes: u64,
    window: set<u64>
  )

  datatype PeerState = PeerState(
    pubkey: Key,
    endpoint: Option<Endpoint>,
    allowedIps: seq<Subnet>,
    active: Option<SessionState>,
    previous: Option<SessionState>,
    handshake: Option<nat>,
    attempt: Option<nat>,
    packet: Option<Wire>,
    lastRx: nat,
    lastTx: nat,
    lastDirectRx: nat,
    magic: Magic
  )

  /** What an observer of the cryptography sees an operation do. */
  datatype Event =
    | Started(hs: nat)
    | Answered(hs: nat, id: nat)
    | Joined(hs: nat, id: nat)
    | Encrypted(sealer: SessionKey, nonce: u64, payload: Bytes, plain: Bytes, sent: bool)
    | Opened(end: SessionKey, nonce: u64, plain: Bytes, payload: Bytes)
    | Retired(end: SessionKey)

  datatype Outcome<T> = Outcome(peer: PeerState, result: Option<T>, events: seq<Event>)

  const U64_LIMIT := 0x1_0000_0000_0000_0000

  /** `since.elapsed().as_secs()` at time `now` */
  function Secs(now: nat, since: nat): nat {
    if now < since then 0 else (now - since) / 1000
  }

  /** `Peer::new` */
  function NewPeer(pubkey: Key, endpoint: Option<Endpoint>, allowedIps: seq<Subnet>, magic: Magic,
                   now: nat): PeerState {
    PeerState(pubkey, endpoint, allowedIps, None, None, None, None, None, now, now, now, magic)
  }

  function DetermineDest(p: PeerState, hasRelay: bool, now: nat): Option<OutboundDest> {
    if hasRelay && (p.endpoint.None? || Secs(now, p.lastDirectRx) >= 10) then Some(Relay(p.pubkey))
    else if p.endpoint.Some? then Some(Udp(p.endpoint.value))
    else None
  }

  /** `hs` names the new handshake; `ok` is false when the Noise library reports an error. */
  function Initiate(p: PeerState, local: Key, hs: nat, padding: Bytes, now: nat, ok: bool): (o: Outcome<Wire>)
    ensures o.peer.pubkey == p.pubkey
  {
    if !ok then Outcome(p, None, [])
    else
      var packet := [Known(p.magic.handshakeInit)] + Octets(Init(hs, local, p.pubkey)) + Bytewise(padding);
      Outcome(p.(handshake := Some(hs), attempt := Some(now), packet := Some(packet), lastTx := now),
              Some(packet), [Started(hs)])
  }

  /** A completed handshake: the active session, if any, becomes the previous one. */
  function Establish(p: PeerState, end: SessionKey, now: nat): (o: PeerState)
    ensures o.pubkey == p.pubkey
  {
    p.(previous := if p.active.Some? then p.active else p.previous,
    active := Some(SessionState(end, 0, now, 0, 0, {})),
    lastRx := now,
    lastTx := now)
  }

  /** The active session stops being the one to send with. */
  function RetireActive(p: PeerState): seq<Event> {
    if p.active.Some? then [Retired(p.active.value.end)] else []
  }

  /** The responder's completion, which the source writes out in three places. */
  function Answer(p: PeerState, magic: Magic, hs: nat, id: nat, padding: Bytes, now: nat, ok: bool): (o: Outcome<Wire>)
    ensures o.peer.pubkey == p.pubkey
  {
    if !ok then Outcome(p, None, [])
    else Outcome(Establish(p, SessionKey(id, Responder), now),
                 Some([Known(magic.handshakeResp)] + Octets(Resp(hs, id)) + Bytewise(padding)),
                 RetireActive(p) + [Answered(hs, id)])
  }

  /** The initiator reads a response; `ok` is false when the switch to transport mode fails. */
  function Join(p: PeerState, payload: Wire, now: nat, ok: bool): (o: Outcome<Wire>)
    ensures o.peer.pubkey == p.pubkey
  {
    if p.handshake.None? then Outcome(p, None, [])
    else
      var hs := p.handshake.value;
      var read := ReadResp(hs, Cut(payload, RESP_LEN));
      if read.None? then Outcome(p, None, [])
      else if !ok then Outcome(p.(handshake := None), None, [])
      else
        Outcome(Establish(p, SessionKey(read.value, Initiator), now)
                .(handshake := None, attempt := None, packet := None),
                None, RetireActive(p) + [Joined(hs, read.value)])
  }

  function HandleHandshake(p: PeerState, local: Key, packetType: u8, payload: Wire,
                           id: nat, padding: Bytes, now: nat, ok: bool): (o: Outcome<Wire>)
    ensures o.peer.pubkey == p.pubkey
  {
    if packetType == p.magic.handshakeInit then
      var read := ReadInit(local, Cut(payload, INIT_LEN));
      if read.None? || read.value.1 != p.pubkey then Outcome(p, None, [])
      else Answer(p, p.magic, read.value.0, id, padding, now, ok)
    else if packetType == p.magic.handshakeResp then Join(p, payload, now, ok)
    else Outcome(p, None, [])
  }

  /** Random padding is sealed behind anything with an IPv4 header, and behind nothing else. */
  function Pad(payload: Bytes, padding: Bytes): Bytes {
    if payload != [] && ParseIpv4TotalLength(payload).Some? then payload + padding else payload
  }

  function Unpad(plain: Bytes): Bytes {
    if plain == [] then plain
    else match ParseIpv4TotalLength(plain)
         case Some(total) => if total <= |plain| then plain[..total] else plain
         case None => plain
  }

  /** The nonce is spent and the unpadded size counted before the cipher runs; both wrap as u64. */
  function Spend(s: SessionState, size: nat): SessionState {
    s.(txNonce := (s.txNonce + 1) % U64_LIMIT, txBytes := (s.txBytes + size) % U64_LIMIT)
  }

  function Encrypt(p: PeerState, payload: Bytes, padding: Bytes, now: nat, ok: bool): (o: Outcome<Wire>)
    ensures o.peer.pubkey == p.pubkey
  {
    if p.active.None? then Outcome(p, None, [])
    else
      var s := p.active.value;
      var nonce := s.txNonce;
      var plain := Pad(payload, padding);
      var counted := p.(active := Some(Spend(s, |payload|)));
      var event := Encrypted(s.end, nonce, payload, plain, ok);
      if !ok then Outcome(counted, None, [event])
      else Outcome(counted.(lastTx := now),
                   Some([Known(p.magic.data)] + Bytewise(ToBigEndian(nonce, 8)) + Octets(Sealed(s.end, nonce, plain))),
                   [event])
  }

  function NonceOf(payload: Wire): (nonce: u64)
    requires |payload| >= 8
  {
    FromBigEndianBelow(Values(payload[..8]));
    WidthValues();
    FromBigEndian(Values(payload[..8]))
  }

  /** A session that has opened `plain`: refused as a replay, or counted. */
  function Receive(s: SessionState, nonce: u64, size: nat): SessionState {
    s.(window := s.window + {nonce}, rxBytes := (s.rxBytes + size) % U64_LIMIT)
  }

  function Decrypt(p: PeerState, payload: Wire, now: nat): (o: Outcome<Bytes>)
    ensures o.peer.pubkey == p.pubkey
  {
    if |payload| < 8 + TAG_LEN then Outcome(p, None, [])
    else
      var nonce := NonceOf(payload);
      var active := if p.active.Some? then Open(p.active.value.end, nonce, payload[8..]) else None;
      if active.Some? then
        if !Accepts(p.active.value.window, nonce) then Outcome(p, None, [])
        else Outcome(p.(active := Some(Receive(p.active.value, nonce, |payload|)), lastRx := now),
                     Some(Unpad(active.value)),
                     [Opened(p.active.value.end, nonce, active.value, Unpad(active.value))])
      else
        var previous :=
          if p.previous.Some? && Secs(now, p.previous.value.establishedAt) < 15
          then Open(p.previous.value.end, nonce, payload[8..]) else None;
        if previous.None? || !Accepts(p.previous.value.window, nonce) then Outcome(p, None, [])
        else Outcome(p.(previous := Some(Receive(p.previous.value, nonce, |payload|)), lastRx := now),
                     Some(Unpad(previous.value)),
                     [Opened(p.previous.value.end, nonce, previous.value, Unpad(previous.value))])
  }

  /** Forget a previous session 15 s after it was established, not after it was replaced. */
  function ExpirePrevious(p: PeerState, now: nat): (o: PeerState)
    ensures o.pubkey == p.pubkey
  {
    if p.previous.Some? && Secs(now, p.previous.value.establishedAt) >= 15 then p.(previous := None) else p
  }

  /** Is the active session older than 120 s or past 1 GB sent? */
  predicate RotationDue(p: PeerState, now: nat) {
    p.active.Some? && (Secs(now, p.active.value.establishedAt) > 120 || p.active.value.txBytes > 1_000_000_000)
  }
}
