/**
 * One end of a session: an entry among the others of its table. What its own daemon does to it from
 * time to time, what it then puts on the link, and what a packet that arrives does to it.
 */
module Ends {
  import opened Wrappers
  import opened Words
  import opened Noise
  import opened PeerModel
  import opened DaemonModel
  import opened Padding
  import opened Entries
  import opened Arrival

  const TICK_GAP := 1000
  const DELAY := 2000

  datatype Parcel = Parcel(sentAt: nat, wire: Wire)

  /**
   * The entry for the other end between the other entries of its table, the configuration, the
   * address its datagrams come from, and the time of the last tick.
   */
  datatype End = End(peer: PeerState, before: Peers, after: Peers, config: Config, addr: Endpoint, lastTick: nat) {
    function Table(): Peers {
      before + [peer] + after
    }

    /** The table is now `ps`, with the entry at `i`. */
    function With(ps: Peers, i: nat): End {
      if i < |ps| then this.(before := ps[..i], peer := ps[i], after := ps[i + 1..]) else this
    }
  }

  ghost predicate OthersDeaf(e: End, end: SessionKey) {
    forall p | p in e.before + e.after :: Deaf(p, end)
  }

  /** No earlier entry has the key of this one, or the address `from`. */
  ghost predicate Foremost(e: End, from: Endpoint) {
    forall p | p in e.before :: p.endpoint != Some(from) && p.pubkey != e.peer.pubkey
  }

  /** The session is held by this entry only, and what comes from `from` finds the entry. */
  ghost predicate Apart(e: End, from: Endpoint) {
    e.peer.active.Some? && OthersDeaf(e, e.peer.active.value.end) && Foremost(e, from)
  }

  /** A handshake in flight is under 2 s old. */
  predicate Patient(p: PeerState, now: nat) {
    && (p.handshake.Some? <==> p.attempt.Some?)
    && (p.attempt.Some? ==> p.attempt.value <= now < p.attempt.value + DELAY)
  }

  /** `w` is the data packet of nonce `n` sealed by `sender`. */
  ghost predicate SealedAs(w: Wire, magic: u8, sender: SessionKey, n: nat) {
    && n < U64_LIMIT
    && exists plain :: w == [Known(magic)] + Bytewise(ToBigEndian(n, 8)) + Octets(Sealed(sender, n, plain))
  }

  // ---------------------------------------------------------- what an end does

  datatype Own =
    | Ticks(inputs: seq<TickInput>)
    | Sends(payload: Bytes, padding: Bytes)
    | Syncs(wanted: seq<ParsedPeer>)
    | Others(before: Peers, after: Peers)

  /** The data packets of one peer's tick; a handshake packet takes its own way. */
  function DataOf(c: Config, p: PeerState, inp: TickInput, now: nat): seq<Action> {
    Queue(c, Keepalive(ClearDead(Rotate(c, p, inp, now).peer, now), inp, now), now)
  }

  function Parcels(actions: seq<Action>, now: nat): (ps: seq<Parcel>)
    ensures |ps| == |actions|
  {
    seq(|actions|, i requires 0 <= i < |actions| => Parcel(now, actions[i].0))
  }

  /**
   * The library does not fail on keepalives, what is sent has a destination, and a sync keeps the
   * entry and gives no earlier one the address `from`. Anything may happen to the other entries that
   * leaves this one the foremost and the only one of its session.
   */
  ghost predicate Allowed(e: End, o: Own, from: Endpoint, now: nat) {
    match o
    case Ticks(inputs) =>
      |inputs| == |e.Table()| && inputs[|e.before|].keepaliveOk && Reachable(e.config, e.peer)
    case Sends(_, _) => Reachable(e.config, e.peer)
    case Syncs(wanted) =>
      && Wanted(wanted, e.peer.pubkey)
      && forall p | p in Done(e, o, now).before :: p.endpoint != Some(from)
    case Others(before, after) => Apart(e.(before := before, after := after), from)
  }

  function Done(e: End, o: Own, now: nat): End
    requires o.Ticks? ==> |o.inputs| == |e.Table()|
  {
    match o
    case Ticks(inputs) => e.With(Tick(e.config, e.Table(), inputs, now).peers, |e.before|).(lastTick := now)
    case Sends(payload, padding) => e.(peer := Encrypt(e.peer, payload, padding, now, true).peer)
    case Syncs(wanted) =>
      e.With(Reconcile(e.Table(), wanted, e.config.magic, now).peers, |Retain(e.before, wanted)|)
    case Others(before, after) => e.(before := before, after := after)
  }

  function Emitted(e: End, o: Own, now: nat): seq<Parcel>
    requires o.Ticks? ==> |o.inputs| == |e.Table()|
  {
    match o
    case Ticks(inputs) => Parcels(DataOf(e.config, e.peer, inputs[|e.before|], now), now)
    case Sends(payload, padding) =>
      var o := Encrypt(e.peer, payload, padding, now, true);
      if o.result.Some? then [Parcel(now, o.result.value)] else []
    case _ => []
  }

  // ----------------------------------------------------------- what that leaves

  /** What receiving depends on, and who the entry is, is as before. */
  predicate SameReceiver(p: PeerState, q: PeerState) {
    && p.active.Some? && q.active.Some? && q.active.value.end == p.active.value.end
    && q.active.value.window == p.active.value.window && q.lastRx == p.lastRx
    && q.active.value.establishedAt == p.active.value.establishedAt
    && q.magic == p.magic && q.pubkey == p.pubkey
  }

  predicate SameHandshake(p: PeerState, q: PeerState) {
    q.handshake == p.handshake && q.attempt == p.attempt && q.packet == p.packet
  }

  /** Nothing was sent. */
  predicate Silent(p: PeerState, q: PeerState) {
    && p.active.Some? && q.active.Some? && q.active.value.txNonce == p.active.value.txNonce
    && q.lastTx == p.lastTx && SameHandshake(p, q)
  }

  ghost predicate IsOffer(w: Wire, c: Config, p: PeerState, hs: nat) {
    exists pad :: w == [Known(p.magic.handshakeInit)] + Octets(Init(hs, c.local, p.pubkey)) + Bytewise(pad)
  }

  /** A rekey was started; to the session it is as if something had been sent. */
  ghost predicate Rekeyed(c: Config, p: PeerState, q: PeerState, now: nat) {
    && p.active.Some? && q.active.Some? && q.active.value.txNonce == p.active.value.txNonce && p.handshake.None?
    && q.handshake.Some? && q.attempt == Some(now) && q.lastTx == now
    && q.packet.Some? && IsOffer(q.packet.value, c, p, q.handshake.value)
  }

  /** One data packet was sealed and sent. */
  ghost predicate Sealing(p: PeerState, q: PeerState, parcel: Parcel, now: nat) {
    && p.active.Some? && q.active.Some?
    && parcel.sentAt == now && SealedAs(parcel.wire, p.magic.data, p.active.value.end, p.active.value.txNonce)
    && q.active.value.txNonce == p.active.value.txNonce + 1 && q.lastTx == now && SameHandshake(p, q)
  }

  ghost predicate Effect(c: Config, p: PeerState, q: PeerState, out: seq<Parcel>, now: nat) {
    && SameReceiver(p, q)
    && (if out == [] then Silent(p, q) || Rekeyed(c, p, q, now) else |out| == 1 && Sealing(p, q, out[0], now))
  }

  /** No session is new, and the key is the same. */
  predicate Tame(p: PeerState, q: PeerState) {
    && (q.active.Some? ==> p.active.Some? && q.active.value.end == p.active.value.end)
    && (q.previous.Some? ==> p.previous.Some? && q.previous.value.end == p.previous.value.end)
    && q.pubkey == p.pubkey
  }

  predicate Blank(p: PeerState) {
    p.active.None? && p.previous.None?
  }

  /** Every other entry comes from another entry and has no new session, or has none at all. */
  ghost predicate OthersTame(e: End, e2: End) {
    && (forall q | q in e2.before :: exists p | p in e.before :: Tame(p, q))
    && (forall q | q in e2.after :: Blank(q) || exists p | p in e.before + e.after :: Tame(p, q))
  }

  lemma TameOthersStayDeaf(e: End, e2: End, end: SessionKey)
    requires OthersTame(e, e2) && OthersDeaf(e, end)
    ensures OthersDeaf(e2, end)
  {
    forall q | q in e2.before + e2.after ensures Deaf(q, end) {
      if q in e2.before {
        var p :| p in e.before && Tame(p, q);
        assert p in e.before + e.after;
      } else if !Blank(q) {
        var p :| p in e.before + e.after && Tame(p, q);
      }
    }
  }

  lemma TameOthersKeepKeys(e: End, e2: End)
    requires OthersTame(e, e2) && e2.peer.pubkey == e.peer.pubkey
    requires forall p | p in e.before :: p.pubkey != e.peer.pubkey
    ensures forall p | p in e2.before :: p.pubkey != e2.peer.pubkey
  {
    forall q | q in e2.before ensures q.pubkey != e2.peer.pubkey {
      var p :| p in e.before && Tame(p, q);
    }
  }

  // -------------------------------------------------------------- one peer's tick

  lemma RotateIsTame(c: Config, p: PeerState, inp: TickInput, now: nat)
    ensures Tame(p, Rotate(c, p, inp, now).peer) && Rotate(c, p, inp, now).peer.endpoint == p.endpoint
  {
    hide RotationDue;
  }

  lemma KeepaliveIsTame(p: PeerState, inp: TickInput, now: nat)
    ensures Tame(p, Keepalive(p, inp, now).peer) && Keepalive(p, inp, now).peer.endpoint == p.endpoint
  {
  }

  lemma RetryIsTame(c: Config, p: PeerState, inp: TickInput, now: nat)
    ensures Tame(p, Retry(c, p, inp, now).peer) && Retry(c, p, inp, now).peer.endpoint == p.endpoint
  {
  }

  lemma TickIsTame(c: Config, p: PeerState, inp: TickInput, now: nat)
    ensures Tame(p, TickPeer(c, p, inp, now).peer) && TickPeer(c, p, inp, now).peer.endpoint == p.endpoint
  {
    hide Rotate, Keepalive, Retry;
    var cleared := ClearDead(Rotate(c, p, inp, now).peer, now);
    RotateIsTame(c, p, inp, now);
    KeepaliveIsTame(cleared, inp, now);
    RetryIsTame(c, Keepalive(cleared, inp, now).peer, inp, now);
  }

  lemma EncryptSeals(p: PeerState, payload: Bytes, padding: Bytes, now: nat)
    requires p.active.Some? && p.active.value.txNonce + 1 < U64_LIMIT
    ensures var o := Encrypt(p, payload, padding, now, true);
            && o.result.Some? && SameReceiver(p, o.peer) && Sealing(p, o.peer, Parcel(now, o.result.value), now)
            && o.peer.endpoint == p.endpoint && Tame(p, o.peer)
  {
    hide Pad, ToBigEndian, Octets, Bytewise;
    var s, o := p.active.value, Encrypt(p, payload, padding, now, true);
    assert SealedAs(o.result.value, p.magic.data, s.end, s.txNonce) by {
      assert o.result.value == [Known(p.magic.data)] + Bytewise(ToBigEndian(s.txNonce, 8))
                               + Octets(Sealed(s.end, s.txNonce, Pad(payload, padding)));
    }
  }

  lemma InitiateOffers(c: Config, p: PeerState, hs: nat, padding: Bytes, now: nat)
    requires p.active.Some? && p.handshake.None?
    ensures var q := Initiate(p, c.local, hs, padding, now, true).peer;
            SameReceiver(p, q) && Rekeyed(c, p, q, now) && q.previous == p.previous
  {
    var q := Initiate(p, c.local, hs, padding, now, true).peer;
    assert IsOffer(q.packet.value, c, p, hs);
  }

  /**
   * A tick of a live, patient end: a rekey if one is due and none is in flight, else a keepalive
   * after 10 s without sending, else nothing but forgetting an old previous session.
   */
  lemma TickShape(c: Config, p: PeerState, inp: TickInput, now: nat)
    requires inp.keepaliveOk && Patient(p, now) && Reachable(c, p)
    requires p.active.Some? && !Dead(p, now) && p.active.value.txNonce + 1 < U64_LIMIT
    ensures var q := ExpirePrevious(p, now);
            var data := DataOf(c, p, inp, now);
            var t := TickPeer(c, p, inp, now);
            if RotationDue(q, now) && q.handshake.None? && inp.rotateOk then
              t.peer == Initiate(q, c.local, inp.hs, inp.padding, now, true).peer && data == []
            else if Secs(now, p.lastTx) >= 10 then
              var o := Encrypt(q, [], [], now, true);
              t.peer == o.peer && |data| == 1 && o.result == Some(data[0].0)
            else
              t.peer == q && data == []
  {
    hide RotationDue, Encrypt, SealedAs;
    EncryptSeals(ExpirePrevious(p, now), [], [], now);
  }

  lemma TickHasEffect(c: Config, p: PeerState, inp: TickInput, now: nat)
    requires inp.keepaliveOk && Patient(p, now) && Reachable(c, p)
    requires p.active.Some? && !Dead(p, now) && p.active.value.txNonce + 1 < U64_LIMIT && p.lastTx <= now
    ensures var q := TickPeer(c, p, inp, now).peer;
            Effect(c, p, q, Parcels(DataOf(c, p, inp, now), now), now) && now < q.lastTx + 10_000
  {
    hide TickPeer, Encrypt, Initiate, DataOf, RotationDue, Dead, SealedAs, IsOffer;
    var q := ExpirePrevious(p, now);
    TickShape(c, p, inp, now);
    EncryptSeals(q, [], [], now);
    if q.handshake.None? {
      InitiateOffers(c, q, inp.hs, inp.padding, now);
      OfferIsSame(c, p, q);
    }
  }

  lemma OfferIsSame(c: Config, p: PeerState, q: PeerState)
    requires q.magic == p.magic && q.pubkey == p.pubkey
    ensures forall w, hs :: IsOffer(w, c, q, hs) <==> IsOffer(w, c, p, hs)
  {
  }

  // ------------------------------------------------------------------ whole tables

  lemma TicksEffect(e: End, inputs: seq<TickInput>, now: nat)
    requires |inputs| == |e.Table()|
    ensures var e2 := Done(e, Ticks(inputs), now);
            && e2.peer == TickPeer(e.config, e.peer, inputs[|e.before|], now).peer
            && e2 == e.(peer := e2.peer, before := e2.before, after := e2.after, lastTick := now)
            && OthersTame(e, e2)
            && forall from | Foremost(e, from) :: forall p | p in e2.before :: p.endpoint != Some(from)
  {
    hide TickPeer, Tick, Tame;
    var ps, i := e.Table(), |e.before|;
    var qs := Tick(e.config, ps, inputs, now).peers;
    var e2 := Done(e, Ticks(inputs), now);
    TickAt(e.config, ps, inputs, now, i);
    forall j | 0 <= j < |ps| ensures Tame(ps[j], qs[j]) && qs[j].endpoint == ps[j].endpoint {
      TickAt(e.config, ps, inputs, now, j);
      TickIsTame(e.config, ps[j], inputs[j], now);
    }
    forall q | q in e2.before ensures exists p | p in e.before :: Tame(p, q) && p.endpoint == q.endpoint {
      var j :| 0 <= j < i && e2.before[j] == q;
      assert ps[j] in e.before;
    }
    forall q | q in e2.after ensures exists p | p in e.before + e.after :: Tame(p, q) {
      var j :| 0 <= j < |e2.after| && e2.after[j] == q;
      assert ps[i + 1 + j] in e.before + e.after;
    }
  }

  /** `qs` keeps the entries of `ps` at the places `picked`, in order and described anew. */
  ghost predicate KeepsPicked(ps: Peers, qs: Peers, picked: seq<nat>) {
    && |picked| <= |qs|
    && (forall k | 0 <= k < |picked| :: picked[k] < |ps| && Redescribed(ps[picked[k]], qs[k]))
    && (forall k, l | 0 <= k < l < |picked| :: picked[k] < picked[l])
  }

  lemma TameBefore(ps: Peers, qs: Peers, picked: seq<nat>, i: nat, j: nat)
    requires KeepsPicked(ps, qs, picked) && i < |ps| && j < |picked| && picked[j] == i
    ensures forall q | q in qs[..j] :: exists p | p in ps[..i] :: Tame(p, q)
  {
    hide Redescribed, Tame;
    forall q | q in qs[..j] ensures exists p | p in ps[..i] :: Tame(p, q) {
      var k: nat :| k < j && qs[k] == q;
      RedescribedIsTame(ps[picked[k]], q);
      assert ps[..i][picked[k]] in ps[..i];
    }
  }

  lemma TameAfter(ps: Peers, qs: Peers, picked: seq<nat>, i: nat, j: nat)
    requires KeepsPicked(ps, qs, picked) && i < |ps| && j < |picked| && picked[j] == i
    requires forall k | |picked| <= k < |qs| :: Blank(qs[k])
    ensures forall q | q in qs[j + 1..] :: Blank(q) || exists p | p in ps[..i] + ps[i + 1..] :: Tame(p, q)
  {
    hide Redescribed, Tame, Blank;
    var others := ps[..i] + ps[i + 1..];
    forall q | q in qs[j + 1..] ensures Blank(q) || exists p | p in others :: Tame(p, q) {
      var k: nat :| k < |qs[j + 1..]| && qs[j + 1..][k] == q;
      if j + 1 + k < |picked| {
        var m := picked[j + 1 + k];
        RedescribedIsTame(ps[m], q);
        assert others[m - 1] == ps[m];
      }
    }
  }

  lemma NewPeerIsBlank(p: PeerState, magic: Magic, now: nat)
    requires p == NewPeer(p.pubkey, p.endpoint, p.allowedIps, magic, now)
    ensures Blank(p)
  {
  }

  lemma SyncsEffect(e: End, wanted: seq<ParsedPeer>, now: nat)
    requires Wanted(wanted, e.peer.pubkey)
    ensures var e2 := Done(e, Syncs(wanted), now);
            && Redescribed(e.peer, e2.peer)
            && e2 == e.(peer := e2.peer, before := e2.before, after := e2.after)
            && OthersTame(e, e2)
  {
    hide Reconcile, Retain, Wanted, Tame, Blank, Redescribed;
    var ps, i := e.Table(), |e.before|;
    var qs := Reconcile(ps, wanted, e.config.magic, now).peers;
    var e2 := Done(e, Syncs(wanted), now);
    assert ps[..i] == e.before && ps[i] == e.peer && ps[i + 1..] == e.after;
    var picked := SyncPlaces(ps, wanted, e.config.magic, now);
    assert i in picked;
    var j: nat :| j < |picked| && picked[j] == i;
    forall k | |picked| <= k < |qs| ensures Blank(qs[k]) {
      NewPeerIsBlank(qs[k], e.config.magic, now);
    }
    TameBefore(ps, qs, picked, i, j);
    TameAfter(ps, qs, picked, i, j);
  }

  lemma RedescribedIsTame(p: PeerState, q: PeerState)
    requires Redescribed(p, q)
    ensures Tame(p, q)
  {
  }

  // -------------------------------------------------------------- every own step

  /** What an end must be for its own steps to be harmless. */
  ghost predicate InOrder(e: End, from: Endpoint, now: nat) {
    && Apart(e, from) && Patient(e.peer, now) && !Dead(e.peer, now)
    && e.peer.lastTx <= now && e.lastTick <= now && e.peer.active.value.txNonce + 1 < U64_LIMIT
  }

  /** Own steps leave the session to the entry, put at most one data packet on the link, and keep ticking in order. */
  lemma OwnStep(e: End, o: Own, from: Endpoint, now: nat)
    requires InOrder(e, from, now) && Allowed(e, o, from, now)
    ensures var e2 := Done(e, o, now);
            && Effect(e.config, e.peer, e2.peer, Emitted(e, o, now), now)
            && e2.config == e.config && e2.addr == e.addr && Apart(e2, from) && Patient(e2.peer, now)
            && e2.peer.lastTx <= now && e.lastTick <= e2.lastTick <= now
            && (e.lastTick < e.peer.lastTx + 10_000 ==> e2.lastTick < e2.peer.lastTx + 10_000)
            && (!o.Others? ==> OthersTame(e, e2) && Tame(e.peer, e2.peer))
  {
    hide TickPeer, Tick, DataOf, Encrypt, SealedAs, Reconcile, Retain, Wanted, OthersTame, OthersDeaf, Deaf, IsOffer,
      Dead;
    var e2 := Done(e, o, now);
    match o
    case Ticks(inputs) =>
      TicksEffect(e, inputs, now);
      TickHasEffect(e.config, e.peer, inputs[|e.before|], now);
      TickIsTame(e.config, e.peer, inputs[|e.before|], now);
      TameOthersStayDeaf(e, e2, e.peer.active.value.end);
      TameOthersKeepKeys(e, e2);
    case Sends(payload, padding) =>
      EncryptSeals(e.peer, payload, padding, now);
      SameOthers(e, e2);
    case Syncs(wanted) =>
      SyncsEffect(e, wanted, now);
      TameOthersStayDeaf(e, e2, e.peer.active.value.end);
      TameOthersKeepKeys(e, e2);
    case Others(before, after) =>
  }

  lemma SameOthers(e: End, e2: End)
    requires e2.before == e.before && e2.after == e.after
    ensures OthersTame(e, e2)
    ensures forall end :: OthersDeaf(e, end) ==> OthersDeaf(e2, end)
  {
    forall q | q in e2.before ensures exists p | p in e.before :: Tame(p, q) {
      assert Tame(q, q);
    }
    forall q | q in e2.after ensures exists p | p in e.before + e.after :: Tame(p, q) {
      assert Tame(q, q);
    }
  }

  // ------------------------------------------------------------------- arrivals

  /** `relayed`: over the relay, which names the sender's key, and not from its address. */
  function Received(r: End, from: Endpoint, wire: Wire, relayed: bool, inp: RecvInput, now: nat): Step {
    if relayed then RelayReceive(r.config, r.Table(), r.peer.pubkey, wire, inp, now)
    else UdpReceive(r.config, r.Table(), wire, from, inp, now)
  }

  function Arriving(r: End, from: Endpoint, wire: Wire, relayed: bool, inp: RecvInput, now: nat): End {
    r.With(Received(r, from, wire, relayed, inp, now).peers, |r.before|)
  }

  /** Each type of packet has its byte. */
  predicate BytesDiffer(m: Magic) {
    m.data != m.handshakeInit && m.data != m.handshakeResp && m.handshakeInit != m.handshakeResp
  }

  lemma ArrivingPacketOpens(w: Wire, magic: u8, s: SessionKey, n: nat)
    requires SealedAs(w, magic, s, n)
    ensures w != [] && w == [Known(magic)] + w[1..]
    ensures |w[1..]| >= 8 + TAG_LEN && NonceOf(w[1..]) == n && Open(s.OtherEnd(), n, w[1..][8..]).Some?
    ensures IsSealed(w[1..][8..], s)
  {
    hide Octets, Bytewise, NonceOf, Recognize, ToBigEndian;
    var plain :| w == [Known(magic)] + Bytewise(ToBigEndian(n, 8)) + Octets(Sealed(s, n, plain));
    var body := w[1..];
    assert body == Bytewise(ToBigEndian(n, 8)) + Octets(Sealed(s, n, plain));
    DataPacketLayout(n, Sealed(s, n, plain));
    RecognizesItsOwnOctets(Sealed(s, n, plain));
  }

  /** Equal but for where and when the peer was last heard directly. */
  predicate Alike(p: PeerState, q: PeerState) {
    q == p.(endpoint := q.endpoint, lastDirectRx := q.lastDirectRx)
  }

  lemma PutBack(e: End, q: PeerState)
    ensures e.With(e.Table()[|e.before| := q], |e.before|) == e.(peer := q)
  {
  }

  lemma ApartStays(e: End, q: PeerState, from: Endpoint)
    requires Apart(e, from) && q.pubkey == e.peer.pubkey
    requires q.active.Some? && q.active.value.end == e.peer.active.value.end
    ensures Apart(e.(peer := q), from)
  {
  }

  /** Either way a data packet comes to the foremost entry, if no other entry can open it. */
  lemma PacketReaches(r: End, from: Endpoint, wire: Wire, sender: SessionKey, n: nat, relayed: bool, inp: RecvInput,
                      now: nat)
    requires SealedAs(wire, r.config.magic.data, sender, n) && BytesDiffer(r.config.magic)
    requires OthersDeaf(r, sender.OtherEnd()) && Foremost(r, from)
    ensures wire != []
    ensures var r2 := Arriving(r, from, wire, relayed, inp, now);
            && r2 == r.(peer := r2.peer) && Alike(Decrypt(r.peer, wire[1..], now).peer, r2.peer)
            && (Deaf(r.peer, sender.OtherEnd()) ==> r2 == r)
  {
    hide SealedAs, Decrypt, UdpData, RelayData, UdpReceive, RelayReceive, Admitted, Deaf;
    var ps, i := r.Table(), |r.before|;
    ArrivingPacketOpens(wire, r.config.magic.data, sender, n);
    DataIsDispatched(r.config, ps, wire[1..], from, r.peer.pubkey, inp, now);
    RelayedReachesFirstOfKey(r.config, ps, i, r.peer.pubkey, wire[1..], now);
    forall j | 0 <= j < |ps| && j != i ensures Refuses(ps[j], wire[1..], now) {
      assert ps[j] in r.before + r.after;
      DeafRefuses(ps[j], sender.OtherEnd(), wire[1..], now);
    }
    DataReachesUnshadowed(r.config, ps, i, wire[1..], from, now);
    PutBack(r, Decrypt(r.peer, wire[1..], now).peer);
    PutBack(r, Offered(r.peer, wire[1..], from, now));
    if Deaf(r.peer, sender.OtherEnd()) {
      DeafRefuses(r.peer, sender.OtherEnd(), wire[1..], now);
      RefusedIsNotAdmitted(r.peer, wire[1..], now);
    }
  }
}
