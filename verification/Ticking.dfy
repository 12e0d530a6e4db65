/** Everything a tick sends, and when. */
module Ticking {
  import opened Wrappers
  import opened Words
  import opened Noise
  import opened PeerModel
  import opened DaemonModel
  import opened Ends
  import opened Timers
  import opened Delivery

  /** A handshake is started: none is pending, and there is no session, or one that is worn or not heard for 15 s. */
  predicate Starts(p: PeerState, now: nat) {
    p.handshake.None? && (p.active.Some? ==> Worn(p.active.value, now) || Lapsed(p, now))
  }

  /** A keepalive is due: a live session in which nothing was sent for 10 s. */
  predicate KeepsAlive(p: PeerState, now: nat) {
    p.active.Some? && !Lapsed(p, now) && !Starts(p, now) && p.lastTx + 10_000 <= now
  }

  /** The last handshake packet is sent again after 2 s. */
  predicate Resends(p: PeerState, now: nat) {
    !Starts(p, now) && p.attempt.Some? && p.attempt.value + 2_000 <= now
  }

  function Count(b: bool): nat {
    if b then 1 else 0
  }

  lemma SomewhereToGo(c: Config, p: PeerState, now: nat)
    requires Reachable(c, p)
    ensures DetermineDest(p, c.hasRelay, now).Some? && GoesTo(c, p, now, DetermineDest(p, c.hasRelay, now).value)
  {
  }

  /** Endpoint and direct-receive time decide where to, and a tick leaves both. */
  lemma QueueForSame(c: Config, o: Outcome<Wire>, p: PeerState, now: nat)
    requires Reachable(c, p) && o.peer.pubkey == p.pubkey
    requires o.peer.endpoint == p.endpoint && o.peer.lastDirectRx == p.lastDirectRx
    ensures |Queue(c, o, now)| == Count(o.result.Some?)
    ensures o.result.Some? ==> Queue(c, o, now)[0].0 == o.result.value && GoesTo(c, p, now, Queue(c, o, now)[0].1)
  {
    SomewhereToGo(c, p, now);
    SomewhereToGo(c, o.peer, now);
  }

  predicate SamePlace(p: PeerState, q: PeerState) {
    q.pubkey == p.pubkey && q.endpoint == p.endpoint && q.lastDirectRx == p.lastDirectRx && q.magic == p.magic
  }

  /** The first timer step. */
  lemma RotateSends(c: Config, p: PeerState, inp: TickInput, now: nat)
    requires inp.rotateOk
    ensures var o := Rotate(c, p, inp, now);
            && SamePlace(p, o.peer) && o.peer.active == p.active && o.peer.lastRx == p.lastRx
            && (if p.handshake.None? && p.active.Some? && Worn(p.active.value, now) then
                  && o.result == Some([Known(p.magic.handshakeInit)] + Octets(Init(inp.hs, c.local, p.pubkey))
                                      + Bytewise(inp.padding))
                  && o.peer.handshake.Some? && o.peer.attempt == Some(now) && o.peer.lastTx == now
                else
                  && o.result.None? && o.peer.handshake == p.handshake && o.peer.attempt == p.attempt
                  && o.peer.packet == p.packet && o.peer.lastTx == p.lastTx)
  {
    hide Octets, Bytewise;
  }

  /** The second and third. */
  lemma KeepaliveSends(p: PeerState, inp: TickInput, now: nat)
    requires inp.keepaliveOk
    ensures var o := Keepalive(ClearDead(p, now), inp, now);
            && SamePlace(p, o.peer) && o.peer.handshake == p.handshake && o.peer.attempt == p.attempt
            && o.peer.packet == p.packet && (o.peer.active.Some? <==> p.active.Some? && !Lapsed(p, now))
            && (if p.active.Some? && !Lapsed(p, now) && p.lastTx + 10_000 <= now then
                  && o.result.Some? && |o.result.value| == 25
                  && SealedAs(o.result.value, p.magic.data, p.active.value.end, p.active.value.txNonce)
                else o.result.None?)
  {
    hide SealedAs, ToBigEndian, Octets, Bytewise;
    if p.active.Some? {
      EncryptSealsAs(p, [], [], now);
    }
  }

  /** And the last. */
  lemma RetrySends(c: Config, p: PeerState, inp: TickInput, now: nat)
    requires inp.initiateOk && Reachable(c, p) && (p.attempt.Some? ==> p.packet.Some?)
    ensures var o := Retry(c, p, inp, now);
            && SamePlace(p, o.peer)
            && o.result == if p.active.None? && p.handshake.None?
                           then Some([Known(p.magic.handshakeInit)] + Octets(Init(inp.hs, c.local, p.pubkey))
                                     + Bytewise(inp.padding))
                           else if p.attempt.Some? && p.attempt.value + 2_000 <= now then p.packet else None
  {
    hide Octets, Bytewise;
  }

  /** Everything a tick sends to a reachable peer: a first message, or a keepalive and the last packet again. */
  lemma TickSends(c: Config, p: PeerState, inp: TickInput, now: nat)
    requires inp.rotateOk && inp.keepaliveOk && inp.initiateOk && Reachable(c, p)
    requires p.attempt.Some? ==> p.packet.Some?
    ensures var actions := TickPeer(c, p, inp, now).actions;
            && |actions| == Count(Starts(p, now)) + Count(KeepsAlive(p, now)) + Count(Resends(p, now))
            && (forall i | 0 <= i < |actions| :: GoesTo(c, p, now, actions[i].1))
            && (Starts(p, now) ==>
                  actions[0].0 == [Known(p.magic.handshakeInit)] + Octets(Init(inp.hs, c.local, p.pubkey))
                  + Bytewise(inp.padding))
            && (KeepsAlive(p, now) ==>
                  |actions[0].0| == 25
                  && SealedAs(actions[0].0, p.magic.data, p.active.value.end, p.active.value.txNonce))
            && (Resends(p, now) ==> actions[|actions| - 1].0 == p.packet.value)
  {
    hide Rotate, Keepalive, ClearDead, Retry, Queue, GoesTo, SealedAs, Octets, Bytewise, Worn;
    var rotated := Rotate(c, p, inp, now);
    var kept := Keepalive(ClearDead(rotated.peer, now), inp, now);
    RotateSends(c, p, inp, now);
    KeepaliveSends(rotated.peer, inp, now);
    if rotated.result.Some? {
      RestSendsNothing(c, kept.peer, inp, now);
    } else {
      RetrySends(c, kept.peer, inp, now);
    }
    QueueForSame(c, rotated, p, now);
    QueueForSame(c, kept, p, now);
    QueueForSame(c, Retry(c, kept.peer, inp, now), p, now);
  }

  lemma RestSendsNothing(c: Config, p: PeerState, inp: TickInput, now: nat)
    requires p.handshake.Some? && p.attempt == Some(now)
    ensures Retry(c, p, inp, now) == Outcome(p, None, [])
  {
  }

  lemma TickLast(c: Config, ps: Peers, inputs: seq<TickInput>, now: nat)
    requires |inputs| == |ps| > 0
    ensures var n := |ps| - 1;
            var s, t := Tick(c, ps[..n], inputs[..n], now), TickPeer(c, ps[n], inputs[n], now);
            Tick(c, ps, inputs, now)
            == Step(s.peers + [t.peer], s.actions + t.actions, None, s.log + Tag(c.local, ps[n].pubkey, t.events))
  {
    hide TickPeer, Tag;
  }

  lemma Regroup<T>(a: seq<T>, b: seq<T>, c: seq<T>)
    ensures (a + b) + c == a + (b + c)
  {
  }

  /** The ticks of a table are those of its parts, one after the other. */
  lemma {:induction false} TickSplits(c: Config, ps: Peers, qs: Peers, inputs: seq<TickInput>, more: seq<TickInput>,
                                      now: nat)
    requires |inputs| == |ps| && |more| == |qs|
    ensures var s, t := Tick(c, ps, inputs, now), Tick(c, qs, more, now);
            Tick(c, ps + qs, inputs + more, now) == Step(s.peers + t.peers, s.actions + t.actions, None, s.log + t.log)
    decreases |qs|
  {
    hide TickPeer, Tag, Tick;
    if qs == [] {
      TickSplitsFromNone(c, ps, inputs, now);
      assert ps + qs == ps && inputs + more == inputs;
    } else {
      var n := |qs| - 1;
      TickSplits(c, ps, qs[..n], inputs, more[..n], now);
      TickLast(c, qs, more, now);
      TickLast(c, ps + qs, inputs + more, now);
      assert (ps + qs)[..|ps| + n] == ps + qs[..n] && (inputs + more)[..|ps| + n] == inputs + more[..n];
      var s, t, u := Tick(c, ps, inputs, now), Tick(c, qs[..n], more[..n], now), TickPeer(c, qs[n], more[n], now);
      Regroup(s.peers, t.peers, [u.peer]);
      Regroup(s.actions, t.actions, u.actions);
      Regroup(s.log, t.log, Tag(c.local, qs[n].pubkey, u.events));
    }
  }

  lemma TickSplitsFromNone(c: Config, ps: Peers, inputs: seq<TickInput>, now: nat)
    requires |inputs| == |ps|
    ensures var s, t := Tick(c, ps, inputs, now), Tick(c, [], [], now);
            s == Step(s.peers + t.peers, s.actions + t.actions, None, s.log + t.log)
  {
    hide TickPeer, Tag;
    TickGivesNothing(c, ps, inputs, now);
  }

  lemma TickGivesNothing(c: Config, ps: Peers, inputs: seq<TickInput>, now: nat)
    requires |inputs| == |ps|
    ensures Tick(c, ps, inputs, now).tun.None?
  {
    hide TickPeer;
  }

  lemma TickOfOne(c: Config, p: PeerState, inp: TickInput, now: nat)
    ensures var s, t := Tick(c, [p], [inp], now), TickPeer(c, p, inp, now);
            s.peers == [t.peer] && s.actions == t.actions && s.tun.None?
  {
    hide TickPeer;
    assert [p][..0] == [] && [inp][..0] == [];
  }
}
