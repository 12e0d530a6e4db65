/**
 * Session after session: while at most one rekey is in flight at a time, each of its two messages
 * arrives once, and both do within 2 s, neither end is ever found dead.
 */
module Rekeying {
  import opened Wrappers
  import opened Words
  import opened Noise
  import opened PeerModel
  import opened DaemonModel
  import opened Arrival
  import opened Ends
  import opened KeepaliveSafety

  /**
   * Steady: both ends send in one session. Between: the right end has answered rekey `hs` with
   * session `id` and sends in it (`recent`); the left end still has the old session, in which packets
   * of the right end are still under way (`stale`), and waits for the response.
   */
  datatype Stage =
    | Steady(duo: Duo)
    | Between(left: End, right: End, stale: Flow, recent: Flow, hs: nat, id: nat, padding: Bytes, now: nat)

  // ------------------------------------------------------- the two messages

  /** What an end has in flight is the first message of its handshake. */
  ghost predicate OfferKept(e: End) {
    e.peer.handshake.Some? ==>
      e.peer.packet.Some? && IsOffer(e.peer.packet.value, e.config, e.peer, e.peer.handshake.value)
  }

  /** Each end's entry is of the other's key. */
  predicate KeysMatch(left: End, right: End) {
    left.peer.pubkey == right.config.local && right.peer.pubkey == left.config.local
  }

  function Response(c: Config, hs: nat, id: nat, padding: Bytes): Wire {
    [Known(c.magic.handshakeResp)] + Octets(Resp(hs, id)) + Bytewise(padding)
  }

  lemma OfferIsRead(w: Wire, c: Config, p: PeerState, hs: nat)
    requires IsOffer(w, c, p, hs)
    ensures w != [] && w[0] == Known(p.magic.handshakeInit)
    ensures ReadInit(p.pubkey, Cut(w[1..], INIT_LEN)) == Some((hs, c.local))
  {
    hide Octets, Bytewise, Recognize;
    var pad :| w == [Known(p.magic.handshakeInit)] + Octets(Init(hs, c.local, p.pubkey)) + Bytewise(pad);
    assert w[1..] == Octets(Init(hs, c.local, p.pubkey)) + Bytewise(pad);
    CutDropsPadding(Init(hs, c.local, p.pubkey), pad);
    RecognizesItsOwnOctets(Init(hs, c.local, p.pubkey));
  }

  lemma AnswerResponds(c: Config, hs: nat, inp: RecvInput, now: nat)
    requires inp.ok
    ensures forall p :: Answer(p, c.magic, hs, inp.id, inp.padding, now, true).result
                        == Some(Response(c, hs, inp.id, inp.padding))
  {
  }

  /** The entry of the sender's key answers the offer, over UDP or the relay, with the response. */
  lemma OfferReaches(left: End, right: End, wire: Wire, hs: nat, relayed: bool, inp: RecvInput, now: nat)
    returns (seen: PeerState)
    requires IsOffer(wire, left.config, left.peer, hs) && KeysMatch(left, right) && Foremost(right, left.addr)
    requires left.peer.magic.handshakeInit == right.config.magic.handshakeInit
    ensures seen == if relayed then right.peer else right.peer.(endpoint := Some(left.addr), lastDirectRx := now)
    ensures Arriving(right, left.addr, wire, relayed, inp, now)
         == right.(peer := Answer(seen, right.config.magic, hs, inp.id, inp.padding, now, inp.ok).peer)
    ensures var actions := Received(right, left.addr, wire, relayed, inp, now).actions;
            inp.ok ==> |actions| == 1 && actions[0].0 == Response(right.config, hs, inp.id, inp.padding)
  {
    if inp.ok {
      AnswerResponds(right.config, hs, inp, now);
    }
    hide Answer, ReadInit, UdpResp, UdpData, RelayResp, RelayData, IsOffer;
    OfferIsRead(wire, left.config, left.peer, hs);
    var ps, i := right.Table(), |right.before|;
    forall j | 0 <= j < i ensures ps[j].pubkey != ps[i].pubkey {
      assert ps[j] in right.before;
    }
    assert FindKey(ps, right.peer.pubkey) == Some(i);
    seen := if relayed then right.peer else right.peer.(endpoint := Some(left.addr), lastDirectRx := now);
    PutBack(right, Answer(seen, right.config.magic, hs, inp.id, inp.padding, now, inp.ok).peer);
  }

  /** The response is read by the entry that waits for it, if it comes over the relay or from the entry's endpoint. */
  lemma ResponseReaches(left: End, right: End, hs: nat, id: nat, padding: Bytes, relayed: bool, inp: RecvInput,
                        now: nat)
    returns (joined: PeerState)
    requires Foremost(left, right.addr) && left.peer.magic == left.config.magic && BytesDiffer(left.config.magic)
    requires relayed || left.peer.endpoint == Some(right.addr)
    ensures Alike(Join(left.peer, Octets(Resp(hs, id)) + Bytewise(padding), now, inp.ok).peer, joined)
    ensures Arriving(left, right.addr, Response(left.config, hs, id, padding), relayed, inp, now)
         == left.(peer := joined)
  {
    hide Join, UdpInit, UdpData, RelayInit, RelayData, Octets, Bytewise;
    var wire, payload := Response(left.config, hs, id, padding), Octets(Resp(hs, id)) + Bytewise(padding);
    assert wire[1..] == payload;
    var ps, i := left.Table(), |left.before|;
    forall j | 0 <= j < i ensures ps[j].pubkey != ps[i].pubkey && ps[j].endpoint != Some(right.addr) {
      assert ps[j] in left.before;
    }
    assert FindKey(ps, left.peer.pubkey) == Some(i);
    assert !relayed ==> FindEndpoint(ps, right.addr) == Some(i);
    var q := Join(left.peer, payload, now, inp.ok).peer;
    joined := if relayed then q else q.(lastDirectRx := now);
    PutBack(left, joined);
  }

  // ----------------------------------------------------------------- invariants

  ghost predicate SteadyOk(d: Duo) {
    Healthy(d) && OfferKept(d.left) && OfferKept(d.right) && KeysMatch(d.left, d.right)
  }

  /**
   * With nothing more to come than what is under way in `f`, the receiver has still been heard
   * lately enough to outlive the 2 s after `since`.
   */
  ghost predicate Lease(r: End, f: Flow, since: nat, now: nat) {
    && r.peer.active.Some? && since <= now < since + DELAY && OnTime(f, now)
    && (forall n | 0 <= n < |f.sent| ::
          SealedAs(f.sent[n].wire, r.config.magic.data, r.peer.active.value.end.OtherEnd(), n))
    && exists m: nat :: NewestIsBelow(r.peer.active.value.window, f, m) && Owed(r, f, m, since)
  }

  ghost predicate Owed(r: End, f: Flow, m: nat, since: nat)
    requires m <= |f.sent|
  {
    (m < |f.sent| && f.sent[m].sentAt < r.peer.lastRx + 13_000) || since < r.peer.lastRx + 13_000
  }

  /** The left end's table does not hold the new session yet; what comes from one end finds its entry at the other. */
  ghost predicate BetweenPlaced(left: End, right: End, id: nat) {
    && WellPlaced(left, right) && KeysMatch(left, right)
    && OthersDeaf(left, SessionKey(id, Initiator)) && Deaf(left.peer, SessionKey(id, Initiator))
  }

  ghost predicate LeftOk(left: End, stale: Flow, hs: nat, since: nat, now: nat) {
    && Lease(left, stale, since, now) && left.peer.handshake == Some(hs) && OfferKept(left)
    && Patient(left.peer, now) && left.peer.attempt.Some? && left.peer.attempt.value <= since
    && left.peer.lastTx <= now && left.peer.lastRx <= now
    && left.lastTick <= now <= left.lastTick + TICK_GAP
  }

  ghost predicate RightOk(right: End, recent: Flow, id: nat, now: nat) {
    && Awaiting(right, recent, now) && OfferKept(right)
    && right.peer.active.value.end == SessionKey(id, Responder)
  }

  ghost predicate StageOk(s: Stage) {
    match s
    case Steady(d) => SteadyOk(d)
    case Between(left, right, stale, recent, hs, id, padding, now) =>
      && RightOk(right, recent, id, now)
      && LeftOk(left, stale, hs, right.peer.active.value.establishedAt, now)
      && BetweenPlaced(left, right, id)
  }

  // ---------------------------------------------------------------------- leases

  lemma LeaseAlive(r: End, f: Flow, since: nat, now: nat)
    requires Lease(r, f, since, now)
    ensures !Dead(r.peer, now)
  {
    hide SealedAs;
    var m: nat :| NewestIsBelow(r.peer.active.value.window, f, m) && Owed(r, f, m, since);
    if m < |f.sent| {
      assert m !in f.arrived;
    }
  }

  /** The sender stops sending in the session: what it owes by then is enough. */
  lemma FlowGivesLease(s: End, r: End, f: Flow, now: nat)
    requires FlowOk(s, r, f, now) && s.peer.attempt.None? && s.peer.magic == r.config.magic
    ensures Lease(r, f, now, now)
  {
    hide SealedAs;
    var m: nat :| NewestIsBelow(r.peer.active.value.window, f, m) && HeardLately(s, r, f, m);
    assert Owed(r, f, m, now);
  }

  lemma LeaseStays(r: End, f: Flow, since: nat, now: nat, r2: End)
    requires Lease(r, f, since, now) && StillReceives(r.peer, r2.peer) && r2.config == r.config
    ensures Lease(r2, f, since, now)
  {
    hide SealedAs, OnTime;
    var m: nat :| NewestIsBelow(r.peer.active.value.window, f, m) && Owed(r, f, m, since);
    assert NewestIsBelow(r2.peer.active.value.window, f, m) && Owed(r2, f, m, since);
  }

  lemma LeaseWaits(r: End, f: Flow, since: nat, now: nat, until: nat)
    requires Lease(r, f, since, now) && now <= until < since + DELAY && OnTime(f, until)
    ensures Lease(r, f, since, until)
  {
    hide SealedAs;
  }

  lemma LeaseArrive(r: End, f: Flow, since: nat, now: nat, n: nat, r2: End)
    requires Lease(r, f, since, now) && n < |f.sent| && r.peer.lastRx <= now && |f.sent[n].wire| > 0
    requires Alike(Decrypt(r.peer, f.sent[n].wire[1..], now).peer, r2.peer) && r2.config == r.config
    ensures Lease(r2, f.(arrived := f.arrived + {n}), since, now)
    ensures SameSender(r.peer, r2.peer) && SameHandshake(r.peer, r2.peer)
    ensures r2.peer.lastRx <= now && r2.peer.pubkey == r.peer.pubkey
  {
    hide SealedAs;
    var window, g := r.peer.active.value.window, f.(arrived := f.arrived + {n});
    var m: nat :| NewestIsBelow(window, f, m) && Owed(r, f, m, since);
    ArrivingPacketOpens(f.sent[n].wire, r.config.magic.data, r.peer.active.value.end.OtherEnd(), n);
    ArrivalIsTaken(r.peer, f.sent[n].wire[1..], n, now);
    if n >= m {
      assert NewestIsBelow(r2.peer.active.value.window, g, n + 1) && Owed(r2, g, n + 1, since);
    } else {
      assert NewestIsBelow(r2.peer.active.value.window, g, m) && Owed(r2, g, m, since);
    }
  }

  // ----------------------------------------------------------------------- steps

  /** Any packet of any other session arrives, however late, that no other entry of the table opens. */
  ghost predicate HearsOther(e: End, from: Endpoint, now: nat, heard: End) {
    exists wire, sender, n, relayed, inp ::
      Stray(e, wire, sender, n) && heard == Arriving(e, from, wire, relayed, inp, now)
  }

  ghost predicate Stray(e: End, wire: Wire, sender: SessionKey, n: nat) {
    && SealedAs(wire, e.config.magic.data, sender, n) && OthersDeaf(e, sender.OtherEnd())
    && e.peer.active.Some? && e.peer.active.value.end != sender.OtherEnd()
  }

  /** No session of either table has this id. */
  ghost predicate FreshId(left: End, right: End, id: nat) {
    forall p, role | p in left.Table() + right.Table() :: Deaf(p, SessionKey(id, role))
  }

  /** The left end's message in flight reaches the right end, which has none of its own in flight. */
  ghost predicate OfferEnabled(d: Duo, inp: RecvInput) {
    && d.left.peer.handshake.Some? && d.left.peer.packet.Some? && d.right.peer.handshake.None?
    && d.right.peer.attempt.None?
    && inp.ok && FreshId(d.left, d.right, inp.id)
  }

  function OfferTaken(d: Duo, relayed: bool, inp: RecvInput): Stage
    requires d.left.peer.handshake.Some? && d.left.peer.packet.Some?
  {
    Between(d.left, Arriving(d.right, d.left.addr, d.left.peer.packet.value, relayed, inp, d.now), d.toLeft,
            Flow([], {}), d.left.peer.handshake.value, inp.id, inp.padding, d.now)
  }

  datatype Beat =
    | Pause(until: nat)
    | LeftOwn(own: Own)
    | RightOwn(own: Own)
    | StaleArrives(nonce: nat, relayed: bool, recvInput: RecvInput)
    | EarlyArrives(nonce: nat, relayed: bool, recvInput: RecvInput)
    | LeftHears(heard: End)
    | RightHears(heard: End)
    | Deliver(relayed: bool, recvInput: RecvInput)

  /** EarlyArrives: a packet of the new session at the left end, which does not have it yet. */
  ghost predicate BeatEnabled(s: Stage, b: Beat)
    requires s.Between?
  {
    match b
    case Pause(until) =>
      && s.now <= until <= s.left.lastTick + TICK_GAP && until <= s.right.lastTick + TICK_GAP
      && OnTime(s.stale, until) && OnTime(s.recent, until) && Patient(s.left.peer, until)
      && Patient(s.right.peer, until)
    case LeftOwn(o) =>
      && Allowed(s.left, o, s.right.addr, s.now)
      && s.left.peer.active.Some? && s.left.peer.active.value.txNonce + 1 < U64_LIMIT
      && (o.Others? ==> OthersDeaf(s.left.(before := o.before, after := o.after), SessionKey(s.id, Initiator)))
    case RightOwn(o) =>
      && Allowed(s.right, o, s.left.addr, s.now)
      && s.right.peer.active.Some? && s.right.peer.active.value.txNonce + 1 < U64_LIMIT
    case StaleArrives(n, _, _) => n < |s.stale.sent|
    case EarlyArrives(n, _, _) => n < |s.recent.sent|
    case LeftHears(heard) => HearsOther(s.left, s.right.addr, s.now, heard)
    case RightHears(heard) => HearsOther(s.right, s.left.addr, s.now, heard)
    case Deliver(relayed, inp) => inp.ok && (relayed || s.left.peer.endpoint == Some(s.right.addr))
  }

  function Played(s: Stage, b: Beat): Stage
    requires s.Between? && BeatEnabled(s, b)
  {
    match b
    case Pause(until) => s.(now := until)
    case LeftOwn(o) => s.(left := Done(s.left, o, s.now))
    case RightOwn(o) => s.(right := Done(s.right, o, s.now), recent := Launch(s.recent, Emitted(s.right, o, s.now)))
    case StaleArrives(n, relayed, inp) =>
      s.(left := Arriving(s.left, s.right.addr, s.stale.sent[n].wire, relayed, inp, s.now),
      stale := s.stale.(arrived := s.stale.arrived + {n}))
    case EarlyArrives(n, relayed, inp) =>
      s.(left := Arriving(s.left, s.right.addr, s.recent.sent[n].wire, relayed, inp, s.now),
      recent := s.recent.(arrived := s.recent.arrived + {n}))
    case LeftHears(heard) => s.(left := heard)
    case RightHears(heard) => s.(right := heard)
    case Deliver(relayed, inp) =>
      Steady(Duo(Arriving(s.left, s.right.addr, Response(s.left.config, s.hs, s.id, s.padding), relayed, inp, s.now),
                 s.right, Flow([], {}), s.recent, s.now))
  }

  ghost predicate StageNext(s: Stage, t: Stage) {
    match s
    case Steady(d) =>
      || (t.Steady? && Next(d, t.duo))
      || (exists e :: HearsOther(d.left, d.right.addr, d.now, e) && t == Steady(d.(left := e)))
      || (exists e :: HearsOther(d.right, d.left.addr, d.now, e) && t == Steady(d.(right := e)))
      || (exists relayed, inp :: OfferEnabled(d, inp) && t == OfferTaken(d, relayed, inp))
      || (exists relayed, inp :: OfferEnabled(Mirror(d), inp) && t == OfferTaken(Mirror(d), relayed, inp))
    case _ => exists b :: BeatEnabled(s, b) && t == Played(s, b)
  }

  // ---------------------------------------------------------------------- proofs

  lemma OfferStaysKept(e: End, e2: End, out: seq<Parcel>, now: nat)
    requires OfferKept(e) && e2.config == e.config && Effect(e.config, e.peer, e2.peer, out, now)
    ensures OfferKept(e2)
  {
    hide SealedAs;
    OfferIsSame(e.config, e.peer, e2.peer);
  }

  lemma SameOfferIsKept(e: End, e2: End)
    requires OfferKept(e) && e2.config == e.config && SameHandshake(e.peer, e2.peer)
    requires e2.peer.magic == e.peer.magic && e2.peer.pubkey == e.peer.pubkey
    ensures OfferKept(e2)
  {
    OfferIsSame(e.config, e.peer, e2.peer);
  }

  lemma SteadyMoveKeeps(d: Duo, m: Move)
    requires SteadyOk(d) && Enabled(d, m)
    ensures SteadyOk(Do(d, m))
  {
    hide Healthy, OfferKept, Done, Emitted, Arriving, SealedAs, IsOffer;
    MoveKeeps(d, m);
    match m
    case Wait(until) =>
    case OwnLeft(o) =>
      OwnKeeps(d, o);
      DoneKeepsPlace(d.left, o, d.now);
      OfferStaysKept(d.left, Done(d.left, o, d.now), Emitted(d.left, o, d.now), d.now);
    case ArriveRight(n, relayed, inp) =>
      ArriveKeeps(d, n, relayed, inp);
      ArrivalKeepsPlace(d.right, d.left.addr, d.toRight.sent[n].wire, relayed, inp, d.now);
      ArrivalKeepsName(d, n, relayed, inp);
      SameOfferIsKept(d.right, Do(d, m).right);
  }

  lemma DoneKeepsPlace(e: End, o: Own, now: nat)
    requires o.Ticks? ==> |o.inputs| == |e.Table()|
    ensures Done(e, o, now).config == e.config && Done(e, o, now).addr == e.addr
  {
  }

  lemma ArrivalKeepsPlace(e: End, from: Endpoint, wire: Wire, relayed: bool, inp: RecvInput, now: nat)
    ensures Arriving(e, from, wire, relayed, inp, now).config == e.config
    ensures Arriving(e, from, wire, relayed, inp, now).addr == e.addr
  {
  }

  lemma ArrivalKeepsName(d: Duo, n: nat, relayed: bool, inp: RecvInput)
    requires Healthy(d) && Enabled(d, ArriveRight(n, relayed, inp))
    ensures var r2 := Do(d, ArriveRight(n, relayed, inp)).right.peer;
            r2.magic == d.right.peer.magic && r2.pubkey == d.right.peer.pubkey
  {
    hide Decrypt, SealedAs, OnTime, Arriving, OthersDeaf;
    var wire := d.toRight.sent[n].wire;
    PacketReaches(d.right, d.left.addr, wire, d.left.peer.active.value.end, n, relayed, inp, d.now);
    DecryptKeepsName(d.right.peer, wire[1..], d.now);
  }

  lemma DecryptKeepsName(p: PeerState, payload: Wire, now: nat)
    ensures var q := Decrypt(p, payload, now).peer;
            Tame(p, q) && q.magic == p.magic && SameHandshake(p, q) && q.lastTx == p.lastTx
  {
  }

  lemma OfferKeeps(d: Duo, relayed: bool, inp: RecvInput)
    requires SteadyOk(d) && OfferEnabled(d, inp)
    ensures StageOk(OfferTaken(d, relayed, inp))
  {
    hide SealedAs, IsOffer, OnTime, Arriving, Answer, Foremost, OthersDeaf;
    var left, right, wire := d.left, d.right, d.left.peer.packet.value;
    var seen := OfferReaches(left, right, wire, left.peer.handshake.value, relayed, inp, d.now);
    var r2 := Arriving(right, left.addr, wire, relayed, inp, d.now);
    FlowGivesLease(right, left, d.toLeft, d.now);
    AnswerAwaits(right, seen, left.peer.handshake.value, inp, d.now);
    AnswerApart(left, right, r2, inp.id);
  }

  lemma AnswerAwaits(right: End, seen: PeerState, hs: nat, inp: RecvInput, now: nat)
    requires Alike(right.peer, seen) && inp.ok && right.lastTick <= now <= right.lastTick + TICK_GAP
    requires right.peer.handshake.None? && right.peer.attempt.None?
    ensures var q := Answer(seen, right.config.magic, hs, inp.id, inp.padding, now, inp.ok).peer;
            && RightOk(right.(peer := q), Flow([], {}), inp.id, now)
            && q.active.value.establishedAt == now && q.pubkey == right.peer.pubkey && q.magic == right.peer.magic
  {
  }

  /** A fresh id is nobody's, so the right end's entry alone holds the new session. */
  lemma AnswerApart(left: End, right: End, r2: End, id: nat)
    requires FreshId(left, right, id) && Apart(right, left.addr) && Apart(left, right.addr)
    requires r2 == right.(peer := r2.peer) && r2.peer.pubkey == right.peer.pubkey
    requires r2.peer.active.Some? && r2.peer.active.value.end == SessionKey(id, Responder)
    ensures Apart(r2, left.addr)
    ensures OthersDeaf(left, SessionKey(id, Initiator)) && Deaf(left.peer, SessionKey(id, Initiator))
  {
    hide Deaf;
    forall p | p in right.before + right.after ensures Deaf(p, SessionKey(id, Responder)) {
      assert p in left.Table() + right.Table();
    }
    forall p | p in left.before + left.after ensures Deaf(p, SessionKey(id, Initiator)) {
      assert p in left.Table() + right.Table();
    }
    assert left.peer in left.Table() + right.Table();
  }

  lemma LeftOwnKeeps(s: Stage, o: Own)
    requires s.Between? && StageOk(s) && BeatEnabled(s, LeftOwn(o))
    ensures StageOk(Played(s, LeftOwn(o)))
  {
    hide Done, Emitted, SealedAs, IsOffer, Foremost, OthersDeaf, Awaiting, Lease, OfferKept, OthersTame, Deaf, Dead;
    var left, left2 := s.left, Done(s.left, o, s.now);
    var since, end := s.right.peer.active.value.establishedAt, SessionKey(s.id, Initiator);
    LeaseAlive(left, s.stale, since, s.now);
    LeaseIsActive(left, s.stale, since, s.now);
    OwnStep(left, o, s.right.addr, s.now);
    LeaseStays(left, s.stale, since, s.now, left2);
    OfferStaysKept(left, left2, Emitted(left, o, s.now), s.now);
    if o.Others? {
      OthersAreGiven(left, o, s.now);
    } else {
      TameOthersStayDeaf(left, left2, end);
      TameStaysDeaf(left.peer, left2.peer, end);
    }
  }

  lemma LeaseIsActive(r: End, f: Flow, since: nat, now: nat)
    requires Lease(r, f, since, now)
    ensures r.peer.active.Some?
  {
  }

  lemma OthersAreGiven(e: End, o: Own, now: nat)
    requires o.Others?
    ensures Done(e, o, now) == e.(before := o.before, after := o.after)
  {
  }

  lemma TameStaysDeaf(p: PeerState, q: PeerState, end: SessionKey)
    requires Tame(p, q) && Deaf(p, end)
    ensures Deaf(q, end)
  {
  }

  lemma RightOwnKeeps(s: Stage, o: Own)
    requires s.Between? && StageOk(s) && BeatEnabled(s, RightOwn(o))
    ensures StageOk(Played(s, RightOwn(o)))
  {
    hide Done, Emitted, SealedAs, IsOffer, Foremost, OthersDeaf, SealedBy, OnTime, OfferKept, OthersTame, LeftOk, Deaf;
    var right, right2 := s.right, Done(s.right, o, s.now);
    OwnStep(right, o, s.left.addr, s.now);
    AwaitingOwn(right, s.recent, s.now, right2, Emitted(right, o, s.now));
    OfferStaysKept(right, right2, Emitted(right, o, s.now), s.now);
  }

  lemma StaleArrivalKeeps(s: Stage, n: nat, relayed: bool, inp: RecvInput)
    requires s.Between? && StageOk(s) && BeatEnabled(s, StaleArrives(n, relayed, inp))
    ensures StageOk(Played(s, StaleArrives(n, relayed, inp)))
  {
    hide Arriving, Decrypt, SealedAs, IsOffer, OnTime, Awaiting, OfferKept, Deaf;
    var left, wire := s.left, s.stale.sent[n].wire;
    var since := s.right.peer.active.value.establishedAt;
    PacketReaches(left, s.right.addr, wire, left.peer.active.value.end.OtherEnd(), n, relayed, inp, s.now);
    var left2 := Arriving(left, s.right.addr, wire, relayed, inp, s.now);
    LeaseArrive(left, s.stale, since, s.now, n, left2);
    DecryptKeepsName(left.peer, wire[1..], s.now);
    SameOfferIsKept(left, left2);
    TameStaysDeaf(left.peer, left2.peer, SessionKey(s.id, Initiator));
  }

  lemma EarlyArrivalKeeps(s: Stage, n: nat, relayed: bool, inp: RecvInput)
    requires s.Between? && StageOk(s) && BeatEnabled(s, EarlyArrives(n, relayed, inp))
    ensures StageOk(Played(s, EarlyArrives(n, relayed, inp))) && Played(s, EarlyArrives(n, relayed, inp)).left == s.left
  {
    hide Arriving, SealedAs, IsOffer, OfferKept, LeftOk, Apart, Deaf;
    PacketIsRefused(s.left, s.right, s.recent, n, s.id, relayed, inp, s.now);
  }

  lemma PacketIsRefused(left: End, right: End, recent: Flow, n: nat, id: nat, relayed: bool, inp: RecvInput, now: nat)
    requires RightOk(right, recent, id, now) && BetweenPlaced(left, right, id) && n < |recent.sent|
    ensures Arriving(left, right.addr, recent.sent[n].wire, relayed, inp, now) == left
  {
    hide Arriving, SealedAs, OnTime, OthersDeaf, Deaf;
    PacketReaches(left, right.addr, recent.sent[n].wire, SessionKey(id, Responder), n, relayed, inp, now);
  }

  /** A packet of another session may open in the previous one, or not at all. */
  lemma StrayDecrypt(p: PeerState, payload: Wire, sender: SessionKey, now: nat)
    requires p.active.Some? && p.active.value.end != sender.OtherEnd()
    requires |payload| >= 8 && IsSealed(payload[8..], sender) && p.lastRx <= now
    ensures var q := Decrypt(p, payload, now).peer;
            q.active == p.active && p.lastRx <= q.lastRx <= now
  {
    hide Recognize, NonceOf, Unpad;
  }

  /** All that such a packet does to an end that matters here: it may have been heard later. */
  predicate OnlyHeard(e: End, e2: End, now: nat) {
    && e2 == e.(peer := e2.peer) && Tame(e.peer, e2.peer) && e2.peer.active == e.peer.active
    && e.peer.lastRx <= e2.peer.lastRx <= now && e2.peer.lastTx == e.peer.lastTx && e2.peer.magic == e.peer.magic
    && SameHandshake(e.peer, e2.peer)
  }

  lemma OtherIsOnlyHeard(e: End, from: Endpoint, now: nat, e2: End)
    requires HearsOther(e, from, now, e2)
    requires Apart(e, from) && BytesDiffer(e.config.magic) && e.peer.lastRx <= now
    ensures OnlyHeard(e, e2, now) && Apart(e2, from)
  {
    hide Arriving, Decrypt, SealedAs, Deaf, Foremost, OthersDeaf;
    var wire, sender, n, relayed, inp :| Stray(e, wire, sender, n) && e2 == Arriving(e, from, wire, relayed, inp, now);
    ArrivingPacketOpens(wire, e.config.magic.data, sender, n);
    PacketReaches(e, from, wire, sender, n, relayed, inp, now);
    StrayDecrypt(e.peer, wire[1..], sender, now);
    DecryptKeepsName(e.peer, wire[1..], now);
    ApartStays(e, e2.peer, from);
  }

  lemma LeftHearingKeeps(s: Stage, e: End)
    requires s.Between? && StageOk(s) && BeatEnabled(s, LeftHears(e))
    ensures StageOk(Played(s, LeftHears(e)))
  {
    hide HearsOther, IsOffer, OfferKept, Lease, Awaiting, Deaf, Foremost;
    var left, since := s.left, s.right.peer.active.value.establishedAt;
    OtherIsOnlyHeard(left, s.right.addr, s.now, e);
    LeaseStays(left, s.stale, since, s.now, e);
    SameOfferIsKept(left, e);
    TameStaysDeaf(left.peer, e.peer, SessionKey(s.id, Initiator));
  }

  lemma RightHearingKeeps(s: Stage, e: End)
    requires s.Between? && StageOk(s) && BeatEnabled(s, RightHears(e))
    ensures StageOk(Played(s, RightHears(e)))
  {
    hide HearsOther, IsOffer, OfferKept, LeftOk, Deaf, Foremost, SealedAs, OnTime;
    OtherIsOnlyHeard(s.right, s.left.addr, s.now, e);
    SameOfferIsKept(s.right, e);
    AwaitingSame(s.right, s.recent, s.now, e);
  }

  lemma SteadyHearingKeeps(d: Duo, e: End)
    requires SteadyOk(d) && HearsOther(d.right, d.left.addr, d.now, e)
    ensures SteadyOk(d.(right := e))
  {
    hide HearsOther, IsOffer, OfferKept, FlowOk, Deaf, Foremost;
    OtherIsOnlyHeard(d.right, d.left.addr, d.now, e);
    SameOfferIsKept(d.right, e);
    FlowIn(d.left, d.right, d.toRight, d.now, e);
    FlowSame(d.right, d.left, d.toLeft, d.now, e);
  }

  lemma AwaitingSame(r: End, f: Flow, now: nat, r2: End)
    requires Awaiting(r, f, now) && r2.peer.active == r.peer.active && r.peer.lastRx <= r2.peer.lastRx <= now
    requires r2.peer.lastTx == r.peer.lastTx && r2.lastTick == r.lastTick && r2.peer.magic == r.peer.magic
    requires SameHandshake(r.peer, r2.peer)
    ensures Awaiting(r2, f, now)
  {
    hide SealedAs, OnTime;
  }

  lemma DeliverKeeps(s: Stage, relayed: bool, inp: RecvInput)
    requires s.Between? && StageOk(s) && BeatEnabled(s, Deliver(relayed, inp))
    ensures StageOk(Played(s, Deliver(relayed, inp)))
  {
    hide Arriving, Join, SealedAs, IsOffer, OnTime, SealedBy, Awaiting, Lease, OthersDeaf, Deaf, Octets, Bytewise,
      Response;
    var joined := ResponseReaches(s.left, s.right, s.hs, s.id, s.padding, relayed, inp, s.now);
    var left2 := s.left.(peer := joined);
    var d := Duo(left2, s.right, Flow([], {}), s.recent, s.now);
    JoinKeepsName(s.left.peer, s.hs, s.id, s.padding, s.now);
    CompletedHandshakeStartsARun(s.left, s.right, s.recent, s.hs, s.id, s.padding, s.now);
    AlikeIsEstablished(Duo(s.left.(peer := Join(s.left.peer, Octets(Resp(s.hs, s.id)) + Bytewise(s.padding), s.now,
                                                true).peer),
                           s.right, Flow([], {}), s.recent, s.now), joined);
    JoinedApart(s.left, left2, s.right.addr, s.id);
    StartsHealthy(d);
  }

  lemma JoinKeepsName(p: PeerState, hs: nat, id: nat, padding: Bytes, now: nat)
    requires p.handshake == Some(hs)
    ensures var q := Join(p, Octets(Resp(hs, id)) + Bytewise(padding), now, true).peer;
            && q.magic == p.magic && q.pubkey == p.pubkey && q.handshake.None?
            && q.active.Some? && q.active.value.end == SessionKey(id, Initiator)
  {
    hide Octets, Bytewise, Recognize;
    CutDropsPadding(Resp(hs, id), padding);
    RecognizesItsOwnOctets(Resp(hs, id));
  }

  lemma AlikeIsEstablished(d: Duo, joined: PeerState)
    requires JustEstablished(d) && Alike(d.left.peer, joined)
    ensures JustEstablished(d.(left := d.left.(peer := joined)))
  {
    hide Awaiting;
  }

  lemma JoinedApart(left: End, left2: End, from: Endpoint, id: nat)
    requires Apart(left, from) && left2 == left.(peer := left2.peer) && left2.peer.pubkey == left.peer.pubkey
    requires OthersDeaf(left, SessionKey(id, Initiator))
    requires left2.peer.active.Some? && left2.peer.active.value.end == SessionKey(id, Initiator)
    ensures Apart(left2, from)
  {
  }

  lemma PauseKeeps(s: Stage, until: nat)
    requires s.Between? && StageOk(s) && BeatEnabled(s, Pause(until))
    requires until < s.right.peer.active.value.establishedAt + DELAY
    ensures StageOk(Played(s, Pause(until)))
  {
    hide SealedAs, IsOffer, Apart, OthersDeaf, Deaf, OfferKept, Lease;
    LeaseWaits(s.left, s.stale, s.right.peer.active.value.establishedAt, s.now, until);
  }

  lemma BeatKeeps(s: Stage, b: Beat)
    requires s.Between? && StageOk(s) && BeatEnabled(s, b)
    ensures StageOk(Played(s, b))
  {
    hide StageOk, Played, Allowed;
    match b
    case Pause(until) =>
      PauseIsShort(s, until);
      PauseKeeps(s, until);
    case LeftOwn(o) => LeftOwnKeeps(s, o);
    case RightOwn(o) => RightOwnKeeps(s, o);
    case StaleArrives(n, relayed, inp) => StaleArrivalKeeps(s, n, relayed, inp);
    case EarlyArrives(n, relayed, inp) => EarlyArrivalKeeps(s, n, relayed, inp);
    case LeftHears(heard) => LeftHearingKeeps(s, heard);
    case RightHears(heard) => RightHearingKeeps(s, heard);
    case Deliver(relayed, inp) => DeliverKeeps(s, relayed, inp);
  }

  /** The rekey was sent before it was answered, so its 2 s end first. */
  lemma PauseIsShort(s: Stage, until: nat)
    requires s.Between? && StageOk(s) && BeatEnabled(s, Pause(until))
    ensures until < s.right.peer.active.value.establishedAt + DELAY
  {
  }

  lemma MirroredSteady(d: Duo)
    ensures SteadyOk(Mirror(d)) <==> SteadyOk(d)
  {
    hide Healthy, OfferKept;
    MirroredHealth(d);
  }

  lemma StageNextKeeps(s: Stage, t: Stage)
    requires StageOk(s) && StageNext(s, t)
    ensures StageOk(t)
  {
    hide SteadyOk, Enabled, Do, FreshId, OfferTaken, HearsOther, BeatEnabled, Played, RightOk, LeftOk, BetweenPlaced;
    match s
    case Steady(d) =>
      MirroredSteady(d);
      if t.Steady? && Next(d, t.duo) {
        var m :| (Enabled(d, m) && t.duo == Do(d, m)) || (Enabled(Mirror(d), m) && t.duo == Mirror(Do(Mirror(d), m)));
        if Enabled(d, m) && t.duo == Do(d, m) {
          SteadyMoveKeeps(d, m);
        } else {
          SteadyMoveKeeps(Mirror(d), m);
          MirroredSteady(Do(Mirror(d), m));
        }
      } else if e :| HearsOther(d.left, d.right.addr, d.now, e) && t == Steady(d.(left := e)) {
        SteadyHearingKeeps(Mirror(d), e);
        MirroredSteady(t.duo);
        assert Mirror(t.duo) == Mirror(d).(right := e);
      } else if e :| HearsOther(d.right, d.left.addr, d.now, e) && t == Steady(d.(right := e)) {
        SteadyHearingKeeps(d, e);
      } else if relayed, inp :| OfferEnabled(d, inp) && t == OfferTaken(d, relayed, inp) {
        OfferKeeps(d, relayed, inp);
      } else {
        var relayed, inp :| OfferEnabled(Mirror(d), inp) && t == OfferTaken(Mirror(d), relayed, inp);
        OfferKeeps(Mirror(d), relayed, inp);
      }
    case Between(_, _, _, _, _, _, _, _) =>
      var b :| BeatEnabled(s, b) && t == Played(s, b);
      BeatKeeps(s, b);
  }

  // ------------------------------------------------------------------------ runs

  ghost predicate StageRun(ss: seq<Stage>) {
    && ss != [] && ss[0].Steady? && JustEstablished(ss[0].duo) && WellPlaced(ss[0].duo.left, ss[0].duo.right)
    && OfferKept(ss[0].duo.left) && OfferKept(ss[0].duo.right) && KeysMatch(ss[0].duo.left, ss[0].duo.right)
    && forall k | 0 < k < |ss| :: StageNext(ss[k - 1], ss[k])
  }

  ghost predicate NobodyIsDead(s: Stage) {
    match s
    case Steady(d) => !Dead(d.left.peer, d.now) && !Dead(d.right.peer, d.now)
    case Between(left, right, _, _, _, _, _, now) => !Dead(left.peer, now) && !Dead(right.peer, now)
  }

  lemma StageIsAlive(s: Stage)
    requires StageOk(s)
    ensures NobodyIsDead(s)
  {
    hide Healthy, SealedAs, OnTime, OfferKept, BetweenPlaced, Lease;
    match s
    case Steady(d) => Alive(d);
    case Between(left, right, stale, _, _, _, _, now) =>
      LeaseAlive(left, stale, right.peer.active.value.establishedAt, now);
  }

  /** Over any number of sessions: no end is ever found dead. */
  lemma {:induction false} NoEndIsFoundDead(ss: seq<Stage>, k: nat)
    requires StageRun(ss) && k < |ss|
    ensures StageOk(ss[k]) && NobodyIsDead(ss[k])
    decreases k
  {
    hide StageNext, Healthy, JustEstablished, WellPlaced, OfferKept, NobodyIsDead;
    if k == 0 {
      StartsHealthy(ss[0].duo);
    } else {
      NoEndIsFoundDead(ss, k - 1);
      StageNextKeeps(ss[k - 1], ss[k]);
    }
    StageIsAlive(ss[k]);
  }
}
