/** Timestamps, handshakes in flight and retransmission, over every run of a daemon. */
module Timers {
  import opened Wrappers
  import opened Words
  import opened Noise
  import opened PeerModel
  import opened DaemonModel
  import opened World
  import opened Entries

  /**
   * Kept by every step: a previous session only beside a younger active one, a handshake only
   * with its packet and the time of its last attempt, no timestamp from the future; and after
   * the last tick a pending attempt was less than 2 s old.
   */
  ghost predicate TimersOk(p: PeerState, clock: nat, lastTick: nat) {
    && (p.previous.Some? ==> p.active.Some? && p.previous.value.establishedAt <= p.active.value.establishedAt)
    && (p.active.Some? ==> p.active.value.establishedAt <= clock)
    && (p.handshake.Some? ==> p.attempt.Some?)
    && (p.attempt.Some? <==> p.packet.Some?)
    && (p.attempt.Some? ==> p.attempt.value <= clock)
    && (p.handshake.Some? ==> lastTick < p.attempt.value + 2000)
    && p.lastRx <= clock && p.lastTx <= clock && p.lastDirectRx <= clock
  }

  ghost predicate TableOk(ps: Peers, clock: nat, lastTick: nat) {
    forall i | 0 <= i < |ps| :: TimersOk(ps[i], clock, lastTick)
  }

  // ------------------------------------------------------ one peer at a time

  lemma DecryptKeepsTimers(p: PeerState, payload: Wire, clock: nat, lastTick: nat, now: nat)
    requires TimersOk(p, clock, lastTick) && lastTick <= clock <= now
    ensures TimersOk(Decrypt(p, payload, now).peer, now, lastTick)
  {
  }

  lemma AnswerKeepsTimers(p: PeerState, magic: Magic, hs: nat, id: nat, padding: Bytes, clock: nat, lastTick: nat,
                          now: nat, ok: bool)
    requires TimersOk(p, clock, lastTick) && lastTick <= clock <= now
    ensures TimersOk(Answer(p, magic, hs, id, padding, now, ok).peer, now, lastTick)
  {
  }

  lemma HandleHandshakeKeepsTimers(p: PeerState, local: Key, packetType: u8, payload: Wire, id: nat, padding: Bytes,
                                   clock: nat, lastTick: nat, now: nat, ok: bool)
    requires TimersOk(p, clock, lastTick) && lastTick <= clock <= now
    ensures TimersOk(HandleHandshake(p, local, packetType, payload, id, padding, now, ok).peer, now, lastTick)
  {
  }

  lemma SendViaKeepsTimers(c: Config, p: PeerState, packet: Bytes, inp: SendInput, clock: nat, lastTick: nat, now: nat)
    requires TimersOk(p, clock, lastTick) && lastTick <= clock <= now
    ensures TimersOk(SendVia(c, p, packet, inp, now).peer, now, lastTick)
  {
  }

  lemma EncryptKeepsTimers(p: PeerState, payload: Bytes, padding: Bytes, clock: nat, lastTick: nat, now: nat, ok: bool)
    requires TimersOk(p, clock, lastTick) && lastTick <= clock <= now
    ensures TimersOk(Encrypt(p, payload, padding, now, ok).peer, now, lastTick)
  {
  }

  lemma RotateKeepsTimers(c: Config, p: PeerState, inp: TickInput, clock: nat, lastTick: nat, now: nat)
    requires TimersOk(p, clock, lastTick) && lastTick <= clock <= now
    ensures TimersOk(Rotate(c, p, inp, now).peer, now, lastTick)
  {
  }

  lemma KeepaliveKeepsTimers(p: PeerState, inp: TickInput, clock: nat, lastTick: nat, now: nat)
    requires TimersOk(p, clock, lastTick) && lastTick <= clock <= now
    ensures TimersOk(Keepalive(ClearDead(p, now), inp, now).peer, now, lastTick)
  {
    hide Encrypt;
    EncryptKeepsTimers(ClearDead(p, now), [], [], clock, lastTick, now, inp.keepaliveOk);
  }

  lemma RetryKeepsTimers(c: Config, p: PeerState, inp: TickInput, clock: nat, lastTick: nat, now: nat)
    requires TimersOk(p, clock, lastTick) && lastTick <= clock <= now
    ensures TimersOk(Retry(c, p, inp, now).peer, now, now)
  {
  }

  lemma TickPeerKeepsTimers(c: Config, p: PeerState, inp: TickInput, clock: nat, lastTick: nat, now: nat)
    requires TimersOk(p, clock, lastTick) && lastTick <= clock <= now
    ensures TimersOk(TickPeer(c, p, inp, now).peer, now, now)
  {
    hide TimersOk, Rotate, ClearDead, Keepalive, Retry;
    var rotated := Rotate(c, p, inp, now).peer;
    RotateKeepsTimers(c, p, inp, clock, lastTick, now);
    KeepaliveKeepsTimers(rotated, inp, now, lastTick, now);
    RetryKeepsTimers(c, Keepalive(ClearDead(rotated, now), inp, now).peer, inp, now, lastTick, now);
  }

  // ------------------------------------------------------------ whole tables

  /** Whatever one step does to an entry keeps its timers in order. */
  lemma PerformKeepsTimers(c: Config, p: PeerState, op: EntryOp, clock: nat, lastTick: nat, now: nat)
    requires TimersOk(p, clock, lastTick) && lastTick <= clock <= now
    ensures TimersOk(Perform(c, p, op, now).peer, now, if op.TicksWith? then now else lastTick)
  {
    hide TickPeer, SendVia, Decrypt, Answer, HandleHandshake;
    match op
    case Rests =>
    case TicksWith(inp) =>
      TickPeerKeepsTimers(c, p, inp, clock, lastTick, now);
    case SendsWith(packet, inp) =>
      SendViaKeepsTimers(c, p, packet, inp, clock, lastTick, now);
    case Decrypts(payload) =>
      DecryptKeepsTimers(p, payload, clock, lastTick, now);
    case DecryptsFrom(payload, addr) =>
      DecryptKeepsTimers(p, payload, clock, lastTick, now);
    case Answers(hs, inp) =>
      AnswerKeepsTimers(p, c.magic, hs, inp.id, inp.padding, clock, lastTick, now, inp.ok);
    case AnswersTo(hs, addr, inp) =>
      var seen := p.(endpoint := Some(addr), lastDirectRx := now);
      AnswerKeepsTimers(seen, c.magic, hs, inp.id, inp.padding, now, lastTick, now, inp.ok);
    case Handles(payload, inp) =>
      HandleHandshakeKeepsTimers(p, c.local, c.magic.handshakeResp, payload, inp.id, inp.padding,
                                 clock, lastTick, now, inp.ok);
    case HandlesDirectly(payload, inp) =>
      HandleHandshakeKeepsTimers(p, c.local, c.magic.handshakeResp, payload, inp.id, inp.padding,
                                 clock, lastTick, now, inp.ok);
    case Follows(_, _) =>
  }

  lemma LaterTickIsStronger(p: PeerState, clock: nat, tick: nat, lastTick: nat)
    requires TimersOk(p, clock, tick) && lastTick <= tick
    ensures TimersOk(p, clock, lastTick)
  {
  }

  lemma ActKeepsTimers(c: Config, ps: Peers, a: Activity, clock: nat, lastTick: nat, now: nat)
    requires TableOk(ps, clock, lastTick) && lastTick <= clock <= now
    requires a.Ticks? ==> |a.inputs| == |ps|
    ensures TableOk(Act(c, ps, a, now).peers, now, if a.Ticks? then now else lastTick)
  {
    hide Act, Perform, TimersOk;
    var qs := Act(c, ps, a, now).peers;
    forall j | 0 <= j < |qs| ensures TimersOk(qs[j], now, if a.Ticks? then now else lastTick) {
      if a.Ticks? {
        SameSize(c, ps, a, now);
        var op := EntryStep(c, ps, a, now, j);
        PerformKeepsTimers(c, ps[j], op, clock, lastTick, now);
      } else {
        EntryOrigin(c, ps, a, now, j);
        if i :| 0 <= i < |ps| && OneOp(c, ps[i], qs[j], now) {
          var op :| qs[j] == Perform(c, ps[i], op, now).peer;
          PerformKeepsTimers(c, ps[i], op, clock, lastTick, now);
          LaterTickIsStronger(qs[j], now, if op.TicksWith? then now else lastTick, lastTick);
        } else {
          NewPeerIsInOrder(qs[j], c.magic, lastTick, now);
        }
      }
    }
  }

  lemma NewPeerIsInOrder(p: PeerState, magic: Magic, lastTick: nat, now: nat)
    requires p == NewPeer(p.pubkey, p.endpoint, p.allowedIps, magic, now)
    ensures TimersOk(p, now, lastTick)
  {
  }

  // -------------------------------------------------------- what follows

  /** A replaced session opens packets only while less than 15 s old, counted from its own start. */
  lemma PreviousOpensOnlyWhileYoung(p: PeerState, payload: Wire, now: nat, e: Event)
    requires e in Decrypt(p, payload, now).events
    requires p.active.None? || e.end != p.active.value.end
    ensures e.Opened? && p.previous.Some? && e.end == p.previous.value.end
    ensures now < p.previous.value.establishedAt + 15_000
  {
  }

  /** Absent library failures, a tick leaves every reachable peer with a session or a handshake. */
  lemma NoReachablePeerIsStuck(c: Config, p: PeerState, inp: TickInput, now: nat)
    requires Reachable(c, p) && inp.initiateOk
    ensures var q := TickPeer(c, p, inp, now).peer; Reachable(c, q) && (q.active.Some? || q.handshake.Some?)
  {
  }

  /**
   * Absent library failures, no tick leaves a timer overdue: sessions unheard of for 15 s, idle
   * for 10 s, or due for rotation, old previous sessions and stale handshake packets are all dealt with.
   */
  lemma TickSettlesEveryTimer(c: Config, p: PeerState, inp: TickInput, clock: nat, lastTick: nat, now: nat)
    requires TimersOk(p, clock, lastTick) && lastTick <= clock <= now
    requires inp.rotateOk && inp.keepaliveOk && inp.initiateOk
    ensures var q := TickPeer(c, p, inp, now).peer;
            && (q.active.Some? ==> now < q.lastRx + 15_000 && now < q.lastTx + 10_000)
            && (q.previous.Some? ==> now < q.previous.value.establishedAt + 15_000)
            && (q.attempt.Some? ==> now < q.attempt.value + 2_000)
            && (RotationDue(q, now) ==> q.handshake.Some?)
  {
    hide Initiate;
    var rotated := Rotate(c, p, inp, now).peer;
    RotationStarts(c, p, inp, clock, lastTick, now);
    var cleared := ClearDead(rotated, now);
    assert RotationDue(cleared, now) ==> cleared.handshake.Some?;
    var kept := Keepalive(cleared, inp, now).peer;
    KeepaliveSettles(cleared, inp, now);
    RetrySettles(c, kept, inp, now);
  }

  lemma RotationStarts(c: Config, p: PeerState, inp: TickInput, clock: nat, lastTick: nat, now: nat)
    requires TimersOk(p, clock, lastTick) && lastTick <= clock <= now && inp.rotateOk
    ensures var q := Rotate(c, p, inp, now).peer;
            && (RotationDue(q, now) ==> q.handshake.Some?)
            && (q.previous.Some? ==> now < q.previous.value.establishedAt + 15_000)
            && q.lastRx <= now && q.lastTx <= now
  {
  }

  lemma KeepaliveSettles(p: PeerState, inp: TickInput, now: nat)
    requires inp.keepaliveOk && p.lastTx <= now
    ensures var q := Keepalive(p, inp, now).peer;
            && (q.active.Some? ==> now < q.lastTx + 10_000)
            && q.lastRx == p.lastRx && q.previous == p.previous && q.handshake == p.handshake && q.lastTx <= now
            && (q.active.Some? <==> p.active.Some?)
            && (RotationDue(q, now) <==> RotationDue(p, now))
  {
  }

  lemma RetrySettles(c: Config, p: PeerState, inp: TickInput, now: nat)
    requires inp.initiateOk && p.lastTx <= now
    ensures var q := Retry(c, p, inp, now).peer;
            && (q.attempt.Some? ==> now < q.attempt.value + 2_000)
            && q.lastRx == p.lastRx && q.previous == p.previous && q.active == p.active
            && p.lastTx <= q.lastTx
            && (p.handshake.Some? ==> q.handshake.Some?)
  {
  }

  /** Not heard for 15 s. */
  predicate Lapsed(p: PeerState, now: nat) {
    p.active.Some? && p.lastRx + 15_000 <= now
  }

  /** More than 120 s old in whole seconds, or more than 10^9 bytes sent. */
  predicate Worn(s: SessionState, now: nat) {
    s.establishedAt + 121_000 <= now || s.txBytes > 1_000_000_000
  }

  /**
   * By the numbers: a tick rekeys a live session exactly if none is in flight and the session is worn;
   * it buries sessions exactly after 15 s of silence, a previous one also 15 s after its own start; and
   * it seals a keepalive exactly after 10 s without sending, unless it rekeys.
   */
  lemma TickByTheNumbers(c: Config, p: PeerState, inp: TickInput, now: nat)
    requires inp.rotateOk && inp.keepaliveOk && p.active.Some?
    ensures var q := TickPeer(c, p, inp, now).peer;
            var rekeys := p.handshake.None? && Worn(p.active.value, now);
            && (q.active.Some? <==> !Lapsed(p, now))
            && (q.previous == if Lapsed(p, now) || (p.previous.Some? && p.previous.value.establishedAt + 15_000 <= now)
                              then None else p.previous)
            && (!Lapsed(p, now) ==>
                  && (q.handshake == if rekeys then Some(inp.hs) else p.handshake)
                  && (rekeys ==> q.attempt == Some(now) && q.lastTx == now && q.active == p.active)
                  && (!rekeys && now < p.lastTx + 10_000 ==> q.lastTx == p.lastTx && q.active == p.active)
                  && (!rekeys && p.lastTx + 10_000 <= now ==>
                        q.lastTx == now
                        && q.active.value.txNonce == (p.active.value.txNonce + 1) % 0x1_0000_0000_0000_0000))
  {
    hide Rotate, Keepalive, ClearDead, Retry, Worn;
    var rotated := Rotate(c, p, inp, now).peer;
    RotateByTheNumbers(c, p, inp, now);
    KeepaliveByTheNumbers(rotated, inp, now);
    RetryLeavesSessions(c, Keepalive(ClearDead(rotated, now), inp, now).peer, inp, now);
  }

  lemma KeepaliveByTheNumbers(p: PeerState, inp: TickInput, now: nat)
    requires inp.keepaliveOk && p.active.Some?
    ensures var q := Keepalive(ClearDead(p, now), inp, now).peer;
            && (q.active.Some? <==> !Lapsed(p, now)) && q.handshake == p.handshake && q.attempt == p.attempt
            && q.previous == (if Lapsed(p, now) then None else p.previous)
            && (!Lapsed(p, now) && now < p.lastTx + 10_000 ==> q.lastTx == p.lastTx && q.active == p.active)
            && (!Lapsed(p, now) && p.lastTx + 10_000 <= now ==>
                  q.lastTx == now
                  && q.active.value.txNonce == (p.active.value.txNonce + 1) % 0x1_0000_0000_0000_0000)
  {
  }

  lemma RetryLeavesSessions(c: Config, p: PeerState, inp: TickInput, now: nat)
    ensures var q := Retry(c, p, inp, now).peer;
            && q.active == p.active && q.previous == p.previous
            && (p.active.Some? ==> q.handshake == p.handshake && q.lastTx == p.lastTx
                                   && (p.attempt == Some(now) ==> q.attempt == Some(now)))
  {
  }

  lemma RotateByTheNumbers(c: Config, p: PeerState, inp: TickInput, now: nat)
    requires inp.rotateOk && p.active.Some?
    ensures var q := Rotate(c, p, inp, now).peer;
            var rekeys := p.handshake.None? && Worn(p.active.value, now);
            && q.active == p.active && q.lastRx == p.lastRx
            && (q.previous == if p.previous.Some? && p.previous.value.establishedAt + 15_000 <= now
                              then None else p.previous)
            && (if rekeys then q.handshake == Some(inp.hs) && q.attempt == Some(now) && q.lastTx == now
                else q.handshake == p.handshake && q.attempt == p.attempt && q.lastTx == p.lastTx)
  {
  }

  lemma RetransmissionIsLast(c: Config, p: PeerState, inp: TickInput, now: nat)
    requires var kept := Keepalive(ClearDead(Rotate(c, p, inp, now).peer, now), inp, now).peer;
             kept.handshake.Some? && kept.attempt.Some? && kept.packet.Some? && Reachable(c, kept)
    ensures var kept := Keepalive(ClearDead(Rotate(c, p, inp, now).peer, now), inp, now).peer;
            var t := TickPeer(c, p, inp, now);
            && t.peer.handshake == kept.handshake && t.peer.packet == kept.packet
            && (Secs(now, kept.attempt.value) >= 2 ==>
                  t.peer.attempt == Some(now) && exists a | a in t.actions :: a.0 == kept.packet.value)
  {
    hide Rotate, ClearDead, Keepalive;
    var t := TickPeer(c, p, inp, now);
    var kept := Keepalive(ClearDead(Rotate(c, p, inp, now).peer, now), inp, now).peer;
    if Secs(now, kept.attempt.value) >= 2 {
      assert t.actions[|t.actions| - 1].0 == kept.packet.value;
    }
  }

  /**
   * With ticks at most 1 s apart, the first tick that finds an unanswered packet 2 s old counts as a
   * new attempt, less than 3 s after the last one, and queues the packet exactly if the peer can be
   * reached.
   */
  lemma PendingHandshakeIsRetransmitted(c: Config, p: PeerState, inp: TickInput, clock: nat, lastTick: nat, now: nat)
    requires TimersOk(p, clock, lastTick) && lastTick <= clock <= now <= lastTick + 1000
    requires p.handshake.Some?
    ensures now < p.attempt.value + 3000
    ensures var t := TickPeer(c, p, inp, now);
            && t.peer.handshake == p.handshake && t.peer.packet == p.packet
            && t.peer.attempt == (if now >= p.attempt.value + 2000 then Some(now) else p.attempt)
            && (now >= p.attempt.value + 2000 ==>
                  (Reachable(c, p) <==> exists a | a in t.actions :: a.0 == p.packet.value))
  {
    var kept := Keepalive(ClearDead(Rotate(c, p, inp, now).peer, now), inp, now).peer;
    assert kept.handshake == p.handshake && kept.packet == p.packet && kept.attempt == p.attempt;
    assert Reachable(c, kept) == Reachable(c, p);
    if Reachable(c, p) {
      RetransmissionIsLast(c, p, inp, now);
    } else {
      UnreachableQueuesNothing(c, p, inp, now);
    }
  }

  /** For a peer with neither endpoint nor relay a tick queues nothing, whatever it records. */
  lemma UnreachableQueuesNothing(c: Config, p: PeerState, inp: TickInput, now: nat)
    requires !Reachable(c, p)
    ensures TickPeer(c, p, inp, now).actions == []
  {
  }

  // --------------------------------------------------------- a daemon's runs

  /** Table, time, time of the last tick, and what the last step queued. */
  datatype Timed = Timed(peers: Peers, clock: nat, lastTick: nat, actions: seq<Action>)

  ghost predicate TimedStep(c: Config, s: Timed, a: Activity, t: Timed) {
    && s.clock <= t.clock && (a.Ticks? ==> |a.inputs| == |s.peers|)
    && var r := Act(c, s.peers, a, t.clock);
    t == Timed(r.peers, t.clock, if a.Ticks? then t.clock else s.lastTick, r.actions)
  }

  ghost predicate TimedRun(c: Config, run: seq<Timed>, acts: seq<Activity>) {
    && |run| == |acts| + 1
    && run[0].lastTick <= run[0].clock
    && (forall p | p in run[0].peers :: Untouched(p, run[0].clock))
    && forall k | 0 <= k < |acts| :: TimedStep(c, run[k], acts[k], run[k + 1])
  }

  lemma {:induction false} TimersHoldInEveryRun(c: Config, run: seq<Timed>, acts: seq<Activity>, k: nat)
    requires TimedRun(c, run, acts) && k < |run|
    ensures run[k].lastTick <= run[k].clock && TableOk(run[k].peers, run[k].clock, run[k].lastTick)
    decreases k
  {
    hide Act;
    if k == 0 {
      forall i | 0 <= i < |run[0].peers| ensures TimersOk(run[0].peers[i], run[0].clock, run[0].lastTick) {
        assert Untouched(run[0].peers[i], run[0].clock);
      }
    } else {
      TimersHoldInEveryRun(c, run, acts, k - 1);
      var s, t := run[k - 1], run[k];
      assert TimedStep(c, s, acts[k - 1], t);
      ActKeepsTimers(c, s.peers, acts[k - 1], s.clock, s.lastTick, t.clock);
    }
  }

  /** While the ticks come on time, no pending handshake's recorded attempt is ever 3 s old. */
  lemma NoHandshakeWaitsThreeSeconds(c: Config, run: seq<Timed>, acts: seq<Activity>, k: nat, i: nat)
    requires TimedRun(c, run, acts) && k < |run| && i < |run[k].peers|
    requires run[k].clock <= run[k].lastTick + 1000
    requires run[k].peers[i].handshake.Some?
    ensures var p := run[k].peers[i];
            p.attempt.Some? && p.packet.Some? && run[k].clock < p.attempt.value + 3000
  {
    TimersHoldInEveryRun(c, run, acts, k);
    assert TimersOk(run[k].peers[i], run[k].clock, run[k].lastTick);
  }

  /**
   * In every run, a tick without library failure leaves each reachable peer of the table with a
   * session or a handshake in flight, and the packet of a handshake it started is queued.
   */
  lemma TicksLeaveNobodyStuck(c: Config, run: seq<Timed>, acts: seq<Activity>, k: nat, i: nat)
    requires TimedRun(c, run, acts) && k < |acts| && acts[k].Ticks? && i < |run[k].peers| == |acts[k].inputs|
    requires Reachable(c, run[k].peers[i]) && acts[k].inputs[i].initiateOk
    ensures i < |run[k + 1].peers|
    ensures var p, q := run[k].peers[i], run[k + 1].peers[i];
            && q.pubkey == p.pubkey && Reachable(c, q) && (q.active.Some? || q.handshake.Some?)
            && (p.handshake.None? && q.handshake.Some? ==> exists a | a in run[k + 1].actions :: q.packet == Some(a.0))
  {
    hide TickPeer, Tick;
    assert TimedStep(c, run[k], acts[k], run[k + 1]);
    var inputs, now := acts[k].inputs, run[k + 1].clock;
    TickAt(c, run[k].peers, inputs, now, i);
    NoReachablePeerIsStuck(c, run[k].peers[i], inputs[i], now);
    if run[k].peers[i].handshake.None? && run[k + 1].peers[i].handshake.Some? {
      StartedHandshakeIsQueued(c, run[k].peers[i], inputs[i], now);
    }
  }

  lemma StartedHandshakeIsQueued(c: Config, p: PeerState, inp: TickInput, now: nat)
    requires Reachable(c, p) && p.handshake.None? && TickPeer(c, p, inp, now).peer.handshake.Some?
    ensures var t := TickPeer(c, p, inp, now);
            exists a | a in t.actions :: t.peer.packet == Some(a.0)
  {
    hide Encrypt;
    var t := TickPeer(c, p, inp, now);
    var rotated := Rotate(c, p, inp, now);
    EncryptLeavesHandshake(ClearDead(rotated.peer, now), [], [], now, inp.keepaliveOk);
    if rotated.result.Some? {
      assert t.actions[0].0 == t.peer.packet.value;
    } else {
      assert t.actions[|t.actions| - 1].0 == t.peer.packet.value;
    }
  }

  // ------------------------------------------------- one entry along such a run

  /** The entry that stands at `at[from]` is followed to `at[to]`; no sync drops it on the way. */
  ghost predicate Traced(run: seq<Timed>, acts: seq<Activity>, from: nat, till: nat, at: seq<nat>) {
    && from <= till < |run| == |at| && |run| == |acts| + 1
    && (forall k | from <= k <= till :: at[k] < |run[k].peers|)
    && forall k | from <= k < till :: NextPlace(run[k].peers, acts[k], at[k]) == Some(at[k + 1])
  }

  ghost function EntryAt(run: seq<Timed>, at: seq<nat>, k: nat): PeerState
    requires k < |run| == |at| && at[k] < |run[k].peers|
  {
    run[k].peers[at[k]]
  }

  /** `packet` is queued for wherever the peer is to be reached. */
  ghost predicate Queued(actions: seq<Action>, packet: Option<Wire>) {
    exists a | a in actions :: packet == Some(a.0)
  }

  /** While a handshake is pending its packet stays the same, and only a tick makes a new attempt. */
  lemma PendingThroughOp(c: Config, p: PeerState, op: EntryOp, now: nat)
    requires p.handshake.Some? && p.attempt.Some? && p.packet.Some? && Reachable(c, p)
    requires Perform(c, p, op, now).peer.handshake.Some?
    ensures var q := Perform(c, p, op, now).peer;
            && q.packet == p.packet
            && (q.attempt == p.attempt
                || (op.TicksWith? && q.attempt == Some(now)
                    && Queued(TickPeer(c, p, op.tickInput, now).actions, p.packet)))
  {
    hide Encrypt, Initiate;
    if op.TicksWith? {
      var kept := Keepalive(ClearDead(Rotate(c, p, op.tickInput, now).peer, now), op.tickInput, now).peer;
      KeepaliveLeavesHandshake(c, p, op.tickInput, now);
      RetransmissionIsLast(c, p, op.tickInput, now);
    } else if op.SendsWith? {
      EncryptLeavesHandshake(p, op.packet, op.sendInput.padding, now, op.sendInput.encryptOk);
    }
  }

  lemma EncryptLeavesHandshake(p: PeerState, payload: Bytes, padding: Bytes, now: nat, ok: bool)
    ensures var q := Encrypt(p, payload, padding, now, ok).peer;
            q.handshake == p.handshake && q.attempt == p.attempt && q.packet == p.packet && q.endpoint == p.endpoint
  {
  }

  lemma KeepaliveLeavesHandshake(c: Config, p: PeerState, inp: TickInput, now: nat)
    requires p.handshake.Some?
    ensures var q := Keepalive(ClearDead(Rotate(c, p, inp, now).peer, now), inp, now).peer;
            q.handshake == p.handshake && q.attempt == p.attempt && q.packet == p.packet && q.endpoint == p.endpoint
  {
  }

  lemma PendingThroughStep(c: Config, s: Timed, a: Activity, t: Timed, i: nat, j: nat)
    requires TimedStep(c, s, a, t) && i < |s.peers| && NextPlace(s.peers, a, i) == Some(j) && j < |t.peers|
    requires TimersOk(s.peers[i], s.clock, s.lastTick)
    requires s.peers[i].handshake.Some? && Reachable(c, s.peers[i]) && t.peers[j].handshake.Some?
    ensures t.peers[j].packet == s.peers[i].packet
    ensures t.peers[j].attempt == s.peers[i].attempt
            || (a.Ticks? && t.peers[j].attempt == Some(t.clock) && Queued(t.actions, s.peers[i].packet))
  {
    hide Perform, TickPeer, Tick, Retain;
    var op := EntryStep(c, s.peers, a, t.clock, i);
    PendingThroughOp(c, s.peers[i], op, t.clock);
    if a.Ticks? {
      TickAt(c, s.peers, a.inputs, t.clock, i);
    }
  }

  /** The entry can be reached and waits for an answer all along. */
  ghost predicate Waiting(c: Config, run: seq<Timed>, acts: seq<Activity>, from: nat, till: nat, at: seq<nat>)
    requires Traced(run, acts, from, till, at)
  {
    forall k | from <= k <= till :: EntryAt(run, at, k).handshake.Some? && Reachable(c, EntryAt(run, at, k))
  }

  /** No step ends more than 1 s after the last tick before it. */
  ghost predicate TicksOnTime(run: seq<Timed>, from: nat, till: nat)
    requires from <= till < |run|
  {
    forall k | from < k <= till :: run[k].clock <= run[k - 1].lastTick + 1000
  }

  /** The facts about one step of such a stretch. */
  lemma WaitingStep(c: Config, run: seq<Timed>, acts: seq<Activity>, from: nat, till: nat, at: seq<nat>, k: nat)
    requires TimedRun(c, run, acts) && Traced(run, acts, from, till, at) && Waiting(c, run, acts, from, till, at)
    requires TicksOnTime(run, from, till) && from <= k < till
    ensures k + 1 < |run| == |at| && at[k] < |run[k].peers| && at[k + 1] < |run[k + 1].peers|
    ensures var p, q := EntryAt(run, at, k), EntryAt(run, at, k + 1);
            && p.attempt.Some? && p.attempt.value <= run[k].clock
            && run[k + 1].clock < p.attempt.value + 3000
            && q.packet == p.packet
            && (q.attempt == p.attempt
                || (acts[k].Ticks? && q.attempt == Some(run[k + 1].clock) && Queued(run[k + 1].actions, p.packet)))
  {
    hide Reachable, Queued, NextPlace, Act;
    TimersHoldInEveryRun(c, run, acts, k);
    assert TimersOk(EntryAt(run, at, k), run[k].clock, run[k].lastTick);
    assert TimedStep(c, run[k], acts[k], run[k + 1]);
    assert EntryAt(run, at, k + 1).handshake.Some?;
    assert run[k + 1].clock <= run[k + 1 - 1].lastTick + 1000;
    PendingThroughStep(c, run[k], acts[k], run[k + 1], at[k], at[k + 1]);
  }

  /** From state `k` on, the first tick that makes a new attempt comes in time and queues the packet. */
  lemma {:induction false} NextAttempt(c: Config, run: seq<Timed>, acts: seq<Activity>, from: nat, till: nat,
                                       at: seq<nat>,
                                       k: nat, start: nat)
    returns (n: nat)
    requires TimedRun(c, run, acts) && Traced(run, acts, from, till, at) && Waiting(c, run, acts, from, till, at)
    requires TicksOnTime(run, from, till) && from <= k < till && start + 3000 <= run[till].clock
    requires EntryAt(run, at, k).attempt.Some? && EntryAt(run, at, k).attempt.value <= start
    ensures k <= n < till && acts[n].Ticks? && run[n + 1].clock < start + 3000
    ensures Queued(run[n + 1].actions, EntryAt(run, at, k).packet)
    decreases |run| - k
  {
    hide TimedRun, Traced, Waiting, TicksOnTime, Queued;
    WaitingStep(c, run, acts, from, till, at, k);
    if EntryAt(run, at, k + 1).attempt == EntryAt(run, at, k).attempt {
      n := NextAttempt(c, run, acts, from, till, at, k + 1, start);
    } else {
      n := k;
    }
  }

  /**
   * In every run, along any stretch of 3 s in which ticks come at most 1 s apart and an entry stays
   * reachable with its handshake unanswered, some tick queues the packet of that handshake.
   */
  lemma PendingPacketIsQueuedEvery3Seconds(c: Config, run: seq<Timed>, acts: seq<Activity>, from: nat, till: nat,
                                           at: seq<nat>)
    requires TimedRun(c, run, acts) && Traced(run, acts, from, till, at) && Waiting(c, run, acts, from, till, at)
    requires TicksOnTime(run, from, till) && run[from].clock + 3000 <= run[till].clock
    ensures exists n :: && from <= n < till && acts[n].Ticks? && run[n + 1].clock < run[from].clock + 3000
                        && Queued(run[n + 1].actions, EntryAt(run, at, from).packet)
  {
    assert from < till;
    hide TimedRun, Traced, Waiting, TicksOnTime, Queued;
    WaitingStep(c, run, acts, from, till, at, from);
    var n := NextAttempt(c, run, acts, from, till, at, from, run[from].clock);
  }
}
