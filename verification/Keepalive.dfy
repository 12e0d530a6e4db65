/**
 * Two daemons that share one live session over a link that loses nothing: every packet arrives,
 * over UDP or the relay, perhaps repeatedly and out of order, in under 2 s. With ticks at most 1 s
 * apart, the 10 s keepalive keeps both sides clear of the 15 s dead-session test, also while either
 * side waits for the answer to a rekey.
 */
module KeepaliveSafety {
  import opened Wrappers
  import opened Words
  import opened Noise
  import opened Replay
  import opened PeerModel
  import opened DaemonModel
  import opened Ends

  /** One direction: the packet of nonce `n` is `sent[n]`; `arrived` holds the nonces delivered so far. */
  datatype Flow = Flow(sent: seq<Parcel>, arrived: set<nat>)

  function Launch(f: Flow, parcels: seq<Parcel>): Flow {
    f.(sent := f.sent + parcels)
  }

  datatype Duo = Duo(left: End, right: End, toRight: Flow, toLeft: Flow, now: nat)

  function Mirror(d: Duo): Duo {
    Duo(d.right, d.left, d.toLeft, d.toRight, d.now)
  }

  // ------------------------------------------------------------------- steps

  datatype Move =
    | Wait(until: nat)
    | OwnLeft(own: Own)
    | ArriveRight(nonce: nat, relayed: bool, recvInput: RecvInput)

  ghost predicate OnTime(f: Flow, now: nat) {
    forall n | 0 <= n < |f.sent| && n !in f.arrived :: now < f.sent[n].sentAt + DELAY
  }

  /** Steps of the left end and of the link towards the right; the others are mirror images. */
  ghost predicate Enabled(d: Duo, m: Move) {
    match m
    case Wait(until) =>
      && d.now <= until
      && until <= d.left.lastTick + TICK_GAP && until <= d.right.lastTick + TICK_GAP
      && OnTime(d.toRight, until) && OnTime(d.toLeft, until)
      && Patient(d.left.peer, until) && Patient(d.right.peer, until)
    case OwnLeft(o) => Allowed(d.left, o, d.right.addr, d.now) && |d.toRight.sent| + 1 < U64_LIMIT
    case ArriveRight(n, _, _) => n < |d.toRight.sent|
  }

  function Do(d: Duo, m: Move): Duo
    requires Enabled(d, m)
  {
    match m
    case Wait(until) => d.(now := until)
    case OwnLeft(o) => d.(left := Done(d.left, o, d.now), toRight := Launch(d.toRight, Emitted(d.left, o, d.now)))
    case ArriveRight(n, relayed, inp) =>
      d.(right := Arriving(d.right, d.left.addr, d.toRight.sent[n].wire, relayed, inp, d.now),
      toRight := d.toRight.(arrived := d.toRight.arrived + {n}))
  }

  ghost predicate Next(d: Duo, e: Duo) {
    exists m :: || (Enabled(d, m) && e == Do(d, m))
                || (Enabled(Mirror(d), m) && e == Mirror(Do(Mirror(d), m)))
  }

  // -------------------------------------------------------------- invariant

  /** Every nonce from `m` on is still under way; everything delivered lies below. */
  ghost predicate NewestIsBelow(window: set<u64>, f: Flow, m: nat) {
    && m <= |f.sent|
    && (forall n | n in window :: n < m)
    && (forall n | n in f.arrived :: n < m)
  }

  /**
   * The receiver last heard something no more than 13 s before the next packet it still waits
   * for was sent; with none under way, no more than 2 s before the sender's last transmission; or
   * no more than 13 s before the handshake that the sender has in flight.
   */
  ghost predicate HeardLately(s: End, r: End, f: Flow, m: nat)
    requires m <= |f.sent|
  {
    || (if m < |f.sent| then f.sent[m].sentAt < r.peer.lastRx + 13_000 else s.peer.lastTx <= r.peer.lastRx + DELAY)
    || (s.peer.attempt.Some? && s.peer.attempt.value < r.peer.lastRx + 13_000)
  }

  ghost predicate SealedBy(p: PeerState, f: Flow, now: nat) {
    && p.active.Some? && p.active.value.txNonce == |f.sent|
    && forall n | 0 <= n < |f.sent| ::
         SealedAs(f.sent[n].wire, p.magic.data, p.active.value.end, n) && f.sent[n].sentAt <= now
  }

  ghost predicate FlowOk(s: End, r: End, f: Flow, now: nat) {
    && s.peer.active.Some? && r.peer.active.Some?
    && r.peer.active.value.end == s.peer.active.value.end.OtherEnd()
    && SealedBy(s.peer, f, now)
    && s.peer.lastTx <= now && s.lastTick <= now
    && s.lastTick < s.peer.lastTx + 10_000 && now <= s.lastTick + TICK_GAP
    && Patient(s.peer, now)
    && OnTime(f, now)
    && exists m: nat :: NewestIsBelow(r.peer.active.value.window, f, m) && HeardLately(s, r, f, m)
  }

  ghost predicate DuoOk(d: Duo) {
    FlowOk(d.left, d.right, d.toRight, d.now) && FlowOk(d.right, d.left, d.toLeft, d.now)
  }

  /** Both daemons use the same type bytes, and what comes from the one finds its entry at the other. */
  ghost predicate WellPlaced(left: End, right: End) {
    && left.peer.magic == right.config.magic && right.peer.magic == left.config.magic
    && left.config.magic == right.config.magic && BytesDiffer(left.config.magic)
    && Apart(left, right.addr) && Apart(right, left.addr)
  }

  ghost predicate Healthy(d: Duo) {
    DuoOk(d) && WellPlaced(d.left, d.right) && d.left.peer.lastRx <= d.now && d.right.peer.lastRx <= d.now
  }

  /** The heart of the matter: the invariant leaves no room for 15 s of silence. */
  lemma NotDead(s: End, r: End, f: Flow, now: nat)
    requires FlowOk(s, r, f, now)
    ensures !Dead(r.peer, now)
  {
    hide SealedBy;
    var m: nat :| NewestIsBelow(r.peer.active.value.window, f, m) && HeardLately(s, r, f, m);
    if m < |f.sent| {
      assert m !in f.arrived;
    }
  }

  /** Nothing of the sender that the invariant speaks of has changed. */
  predicate SameSender(p: PeerState, q: PeerState) {
    && p.active.Some? && q.active.Some? && q.active.value.end == p.active.value.end
    && q.active.value.txNonce == p.active.value.txNonce && q.lastTx == p.lastTx && q.magic == p.magic
    && q.handshake == p.handshake && q.attempt == p.attempt
  }

  /** The same session, in which nothing new was taken; perhaps something was heard in another one. */
  predicate StillReceives(p: PeerState, q: PeerState) {
    && p.active.Some? && q.active.Some? && q.active.value.end == p.active.value.end
    && q.active.value.window == p.active.value.window && p.lastRx <= q.lastRx
  }

  /** The receiver's own steps do not matter to what it is sent. */
  lemma FlowIn(s: End, r: End, f: Flow, now: nat, r2: End)
    requires FlowOk(s, r, f, now) && StillReceives(r.peer, r2.peer)
    ensures FlowOk(s, r2, f, now)
  {
    hide SealedBy, OnTime;
    var m: nat :| NewestIsBelow(r.peer.active.value.window, f, m) && HeardLately(s, r, f, m);
    assert NewestIsBelow(r2.peer.active.value.window, f, m) && HeardLately(s, r2, f, m);
  }

  /** What arrives at the sender does not matter to what it sent. */
  lemma FlowSame(s: End, r: End, f: Flow, now: nat, s2: End)
    requires FlowOk(s, r, f, now) && SameSender(s.peer, s2.peer) && s2.lastTick == s.lastTick
    ensures FlowOk(s2, r, f, now)
  {
    hide OnTime;
    var m: nat :| NewestIsBelow(r.peer.active.value.window, f, m) && HeardLately(s, r, f, m);
    assert NewestIsBelow(r.peer.active.value.window, f, m) && HeardLately(s2, r, f, m);
  }

  lemma SealedByMore(c: Config, p: PeerState, q: PeerState, f: Flow, out: seq<Parcel>, now: nat)
    requires SealedBy(p, f, now) && Effect(c, p, q, out, now)
    ensures SealedBy(q, Launch(f, out), now)
  {
    hide SealedAs, IsOffer;
    assert out == [] ==> Launch(f, out).sent == f.sent;
  }

  /** The sender's own steps: a packet more on the link, a rekey that the session does not hear of, or nothing. */
  lemma FlowOut(s: End, r: End, f: Flow, now: nat, s2: End, out: seq<Parcel>)
    requires FlowOk(s, r, f, now) && Effect(s.config, s.peer, s2.peer, out, now)
    requires s2.peer.lastTx <= now && s.lastTick <= s2.lastTick <= now && s2.lastTick < s2.peer.lastTx + 10_000
    requires Patient(s2.peer, now)
    ensures FlowOk(s2, r, Launch(f, out), now)
  {
    hide SealedBy, SealedAs, IsOffer;
    SealedByMore(s.config, s.peer, s2.peer, f, out, now);
    SizeIsNonce(s.peer, f, now);
    var g := Launch(f, out);
    var m: nat :| NewestIsBelow(r.peer.active.value.window, f, m) && HeardLately(s, r, f, m);
    assert NewestIsBelow(r.peer.active.value.window, g, m) && HeardLately(s2, r, g, m);
  }

  lemma SizeIsNonce(p: PeerState, f: Flow, now: nat)
    requires SealedBy(p, f, now)
    ensures p.active.Some? && |f.sent| == p.active.value.txNonce
  {
  }

  /** A packet arrives, for the first time or again. */
  lemma FlowArrive(s: End, r: End, f: Flow, now: nat, n: nat, r2: End)
    requires FlowOk(s, r, f, now) && n < |f.sent| && r.peer.lastRx <= now && |f.sent[n].wire| > 0
    requires Alike(Decrypt(r.peer, f.sent[n].wire[1..], now).peer, r2.peer)
    ensures FlowOk(s, r2, f.(arrived := f.arrived + {n}), now)
    ensures SameSender(r.peer, r2.peer) && r2.peer.lastRx <= now && r2.peer.pubkey == r.peer.pubkey
    ensures SameHandshake(r.peer, r2.peer)
  {
    hide SealedAs;
    var window := r.peer.active.value.window;
    var m: nat :| NewestIsBelow(window, f, m) && HeardLately(s, r, f, m);
    ArrivingPacketOpens(f.sent[n].wire, s.peer.magic.data, s.peer.active.value.end, n);
    var g := f.(arrived := f.arrived + {n});
    ArrivalIsTaken(r.peer, f.sent[n].wire[1..], n, now);
    if n >= m {
      assert Accepts(window, n);
      assert NewestIsBelow(r2.peer.active.value.window, g, n + 1) && HeardLately(s, r2, g, n + 1);
    } else {
      assert NewestIsBelow(r2.peer.active.value.window, g, m) && HeardLately(s, r2, g, m);
    }
  }

  lemma ArrivalIsTaken(p: PeerState, payload: Wire, n: u64, now: nat)
    requires p.active.Some? && |payload| >= 8 + TAG_LEN && NonceOf(payload) == n
    requires Open(p.active.value.end, n, payload[8..]).Some?
    ensures var q := Decrypt(p, payload, now).peer;
            && SameSender(p, q) && SameHandshake(p, q) && q.pubkey == p.pubkey
            && (if Accepts(p.active.value.window, n)
                then q.active.value.window == p.active.value.window + {n} && q.lastRx == now
                else q == p)
  {
    hide NonceOf, Open;
  }

  // ------------------------------------------------------------ every step

  lemma OwnKeeps(d: Duo, o: Own)
    requires Healthy(d) && Enabled(d, OwnLeft(o))
    ensures Healthy(Do(d, OwnLeft(o)))
    ensures var left := Done(d.left, o, d.now);
            Effect(d.left.config, d.left.peer, left.peer, Emitted(d.left, o, d.now), d.now)
  {
    hide Done, Emitted, SealedAs, IsOffer, OthersDeaf, Foremost, OnTime, Dead;
    NotDead(d.right, d.left, d.toLeft, d.now);
    SizeIsNonce(d.left.peer, d.toRight, d.now);
    OwnStep(d.left, o, d.right.addr, d.now);
    var left := Done(d.left, o, d.now);
    FlowOut(d.left, d.right, d.toRight, d.now, left, Emitted(d.left, o, d.now));
    FlowIn(d.right, d.left, d.toLeft, d.now, left);
  }

  lemma ArriveKeeps(d: Duo, n: nat, relayed: bool, inp: RecvInput)
    requires Healthy(d) && Enabled(d, ArriveRight(n, relayed, inp))
    ensures Healthy(Do(d, ArriveRight(n, relayed, inp)))
    ensures SameHandshake(d.right.peer, Do(d, ArriveRight(n, relayed, inp)).right.peer)
  {
    hide Decrypt, SealedAs, OnTime, Arriving, OthersDeaf;
    var wire := d.toRight.sent[n].wire;
    PacketReaches(d.right, d.left.addr, wire, d.left.peer.active.value.end, n, relayed, inp, d.now);
    var r2 := Arriving(d.right, d.left.addr, wire, relayed, inp, d.now);
    FlowArrive(d.left, d.right, d.toRight, d.now, n, r2);
    ApartStays(d.right, r2.peer, d.left.addr);
    FlowSame(d.right, d.left, d.toLeft, d.now, r2);
  }

  lemma WaitKeeps(s: End, r: End, f: Flow, now: nat, until: nat)
    requires FlowOk(s, r, f, now) && now <= until <= s.lastTick + TICK_GAP && OnTime(f, until) && Patient(s.peer, until)
    ensures FlowOk(s, r, f, until)
  {
    hide SealedAs;
  }

  lemma MoveKeeps(d: Duo, m: Move)
    requires Healthy(d) && Enabled(d, m)
    ensures Healthy(Do(d, m))
  {
    hide FlowOk, OthersDeaf, Foremost, Done, Emitted, Arriving, OnTime, Allowed;
    match m
    case Wait(until) =>
      WaitKeeps(d.left, d.right, d.toRight, d.now, until);
      WaitKeeps(d.right, d.left, d.toLeft, d.now, until);
    case OwnLeft(o) => OwnKeeps(d, o);
    case ArriveRight(n, relayed, inp) => ArriveKeeps(d, n, relayed, inp);
  }

  lemma MirroredHealth(d: Duo)
    ensures Healthy(Mirror(d)) <==> Healthy(d)
  {
    hide FlowOk, Apart;
  }

  lemma NextKeeps(d: Duo, e: Duo)
    requires Healthy(d) && Next(d, e)
    ensures Healthy(e)
  {
    hide Enabled, Do, Healthy;
    var m :| (Enabled(d, m) && e == Do(d, m)) || (Enabled(Mirror(d), m) && e == Mirror(Do(Mirror(d), m)));
    MirroredHealth(d);
    if Enabled(d, m) && e == Do(d, m) {
      MoveKeeps(d, m);
    } else {
      MoveKeeps(Mirror(d), m);
      MirroredHealth(Do(Mirror(d), m));
    }
  }

  // ------------------------------------------------------------------ the start

  /**
   * An end that answered a handshake less than 2 s ago and has not heard in the new session yet. It
   * may have sent any packets in it since, and any of them may have arrived, too early to open.
   */
  ghost predicate Awaiting(r: End, f: Flow, now: nat) {
    && SealedBy(r.peer, f, now) && OnTime(f, now) && (forall n | n in f.arrived :: n < |f.sent|)
    && r.peer.active.value.window == {}
    && r.peer.active.value.establishedAt <= r.peer.lastRx <= now
    && r.peer.active.value.establishedAt <= r.peer.lastTx <= now < r.peer.active.value.establishedAt + DELAY
    && r.lastTick <= now <= r.lastTick + TICK_GAP && Patient(r.peer, now)
  }

  /** The left end has just joined the session that the right one answered with. */
  ghost predicate JustEstablished(d: Duo) {
    && Awaiting(d.right, d.toLeft, d.now) && d.toRight == Flow([], {})
    && d.left.peer.active.Some? && d.right.peer.active.value.end == d.left.peer.active.value.end.OtherEnd()
    && d.left.peer.active.value.txNonce == 0 && d.left.peer.active.value.window == {}
    && d.left.peer.lastRx == d.left.peer.lastTx == d.now
    && d.left.lastTick <= d.now <= d.left.lastTick + TICK_GAP && Patient(d.left.peer, d.now)
  }

  lemma AnswerStartsAwaiting(right: End, magic: Magic, hs: nat, id: nat, padding: Bytes, now: nat)
    requires right.lastTick <= now <= right.lastTick + TICK_GAP && Patient(right.peer, now)
    ensures Awaiting(right.(peer := Answer(right.peer, magic, hs, id, padding, now, true).peer), Flow([], {}), now)
  {
  }

  lemma AwaitingOwn(r: End, f: Flow, now: nat, r2: End, out: seq<Parcel>)
    requires Awaiting(r, f, now) && Effect(r.config, r.peer, r2.peer, out, now)
    requires r2.peer.lastTx <= now && r.lastTick <= r2.lastTick <= now && Patient(r2.peer, now)
    ensures Awaiting(r2, Launch(f, out), now)
  {
    hide SealedBy, SealedAs, IsOffer;
    SealedByMore(r.config, r.peer, r2.peer, f, out, now);
  }

  /**
   * How runs start: whatever the responder did since it answered, when the response reaches the side
   * that started the handshake, less than 2 s after, the two are the ends of one session.
   */
  lemma CompletedHandshakeStartsARun(left: End, right: End, toLeft: Flow, hs: nat, id: nat, padding: Bytes, now: nat)
    requires Awaiting(right, toLeft, now) && right.peer.active.value.end == SessionKey(id, Responder)
    requires left.peer.handshake == Some(hs) && left.lastTick <= now <= left.lastTick + TICK_GAP
    ensures var joined := Join(left.peer, Octets(Resp(hs, id)) + Bytewise(padding), now, true).peer;
            JustEstablished(Duo(left.(peer := joined), right, Flow([], {}), toLeft, now))
  {
    hide Octets, Bytewise, Recognize, SealedBy, OnTime;
    CutDropsPadding(Resp(hs, id), padding);
    RecognizesItsOwnOctets(Resp(hs, id));
  }

  lemma StartsHealthy(d: Duo)
    requires JustEstablished(d) && WellPlaced(d.left, d.right)
    ensures Healthy(d)
  {
    hide Apart;
    assert NewestIsBelow({}, d.toRight, 0) && HeardLately(d.left, d.right, d.toRight, 0);
    assert NewestIsBelow({}, d.toLeft, |d.toLeft.sent|) && HeardLately(d.right, d.left, d.toLeft, |d.toLeft.sent|);
  }

  // ------------------------------------------------------------------- runs

  ghost predicate TimedRun(ds: seq<Duo>) {
    && ds != [] && JustEstablished(ds[0]) && WellPlaced(ds[0].left, ds[0].right)
    && forall k | 0 < k < |ds| :: Next(ds[k - 1], ds[k])
  }

  /** In every timed run, neither side's session is ever found dead. */
  lemma {:induction false} SessionsStayAlive(ds: seq<Duo>, k: nat)
    requires TimedRun(ds) && k < |ds|
    ensures Healthy(ds[k])
    ensures !Dead(ds[k].left.peer, ds[k].now) && !Dead(ds[k].right.peer, ds[k].now)
    ensures ds[k].left.peer.active.Some? && ds[k].right.peer.active.Some?
    decreases k
  {
    hide Next, Healthy, JustEstablished, WellPlaced;
    if k == 0 {
      StartsHealthy(ds[0]);
    } else {
      SessionsStayAlive(ds, k - 1);
      NextKeeps(ds[k - 1], ds[k]);
    }
    Alive(ds[k]);
  }

  lemma Alive(d: Duo)
    requires Healthy(d)
    ensures !Dead(d.left.peer, d.now) && !Dead(d.right.peer, d.now)
    ensures d.left.peer.active.Some? && d.right.peer.active.Some?
  {
    hide SealedBy, OnTime, Apart;
    NotDead(d.left, d.right, d.toRight, d.now);
    NotDead(d.right, d.left, d.toLeft, d.now);
  }
}
