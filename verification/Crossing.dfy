/** In every run of the network: what a node reads from TUN comes out of the TUN of the node it is for. */
module Crossing {
  import opened Wrappers
  import opened Words
  import opened Packet
  import opened Noise
  import opened PeerModel
  import opened DaemonModel
  import opened Routing
  import opened Padding
  import opened Arrival
  import opened Ends
  import opened Protocol
  import opened PeerSafety
  import opened Network
  import opened World
  import opened Guarantees
  import opened Delivery

  // ------------------------------------------------------- what a run guarantees

  /** While no nonce has wrapped, everything delivered has a nonce below the next one. */
  lemma {:induction false} DeliveredIsBelow(h: History, end: SessionKey)
    requires HistoryOk(h) && SealCount(h, end.OtherEnd()) < U64_LIMIT
    ensures forall n | n in OpenedNonces(h, end) :: n < SealCount(h, end.OtherEnd())
  {
    hide HistoryOk;
    if h != [] {
      var past, e := h[..|h| - 1], h[|h| - 1];
      assert h == past + [e];
      PastIsOk(past, e);
      CountsAfter(past, e, end);
      CountsAfter(past, e, end.OtherEnd());
      DeliveredIsBelow(past, end);
      if e.event.Opened? && e.event.end == end {
        RulesAt(h, |past|);
        var s :| s in past && Explains(s, e);
        SealedIsBelow(past, s, end.OtherEnd());
      }
    }
  }

  lemma PastIsOk(past: History, e: LogEntry)
    requires HistoryOk(past + [e])
    ensures HistoryOk(past)
  {
    forall i | 0 <= i < |past| ensures EventOk(past[..i], past[i]) {
      assert (past + [e])[..i] == past[..i] && (past + [e])[i] == past[i];
    }
  }

  lemma SealedIsBelow(h: History, s: LogEntry, end: SessionKey)
    requires HistoryOk(h) && s in h && Seals(s, end) && SealCount(h, end) < U64_LIMIT
    ensures s.event.nonce < SealCount(h, end)
  {
    hide HistoryOk, SealCount;
    var t: nat :| t < |h| && h[t] == s;
    RulesAt(h, t);
    assert h[..t + 1] == h[..t] + [s] && h[..|h|] == h;
    CountsAfter(h[..t], s, end);
    SealCountGrows(h, t + 1, |h|, end);
    SealedHasCount(h[..t], s, end);
  }

  lemma SealedHasCount(past: History, s: LogEntry, end: SessionKey)
    requires EventOk(past, s) && Seals(s, end) && SealCount(past, end) < U64_LIMIT
    ensures s.event.nonce == SealCount(past, end)
  {
    hide SealCount, Established, RetiredBefore, Carries;
  }

  lemma {:induction false} TwoEntriesHold(local: Key, ps: Peers, i: nat, j: nat)
    requires i < j < |ps|
    ensures Secrets(local, ps[i]) + Secrets(local, ps[j]) <= All(local, ps)
  {
    hide Secrets;
    var n := |ps| - 1;
    if j < n {
      TwoEntriesHold(local, ps[..n], i, j);
    } else {
      SlotIsInTable(local, ps[..n], i);
    }
  }

  ghost predicate HeldBy(p: PeerState, end: SessionKey) {
    (p.active.Some? && p.active.value.end == end) || (p.previous.Some? && p.previous.value.end == end)
  }

  lemma HeldIsSecret(local: Key, p: PeerState, end: SessionKey) returns (x: Secret)
    requires HeldBy(p, end)
    ensures x in Secrets(local, p) && x.Live? && x.session.end == end
  {
    if p.active.Some? && p.active.value.end == end {
      x := Live(local, p.pubkey, p.active.value, true);
    } else {
      x := Live(local, p.pubkey, p.previous.value, false);
    }
  }

  lemma HeldTwiceIsNotUnique(pool: Pool, local: Key, ps: Peers, i: nat, j: nat, end: SessionKey)
    requires i < |ps| && j < |ps| && i != j && HeldBy(ps[i], end) && HeldBy(ps[j], end) && All(local, ps) <= pool
    ensures !Unique(pool)
  {
    hide Secrets, Unique;
    var x := HeldIsSecret(local, ps[i], end);
    var y := HeldIsSecret(local, ps[j], end);
    TwoEntriesHold(local, ps, if i < j then i else j, if i < j then j else i);
    assert (Secrets(local, ps[i]) + Secrets(local, ps[j]))[x] <= pool[x];
    assert (Secrets(local, ps[i]) + Secrets(local, ps[j]))[y] <= pool[y];
    ClashIsNotUnique(pool, x, y);
  }

  lemma ClashIsNotUnique(pool: Pool, x: Secret, y: Secret)
    requires x in pool && y in pool && Clash(x, y) && (x == y ==> pool[x] >= 2)
    ensures !Unique(pool)
  {
  }

  /** In every run no two entries of a table hold the same session. */
  lemma SessionIsOnlyThere(ws: seq<World>, k: nat, n: nat, i: nat, end: SessionKey)
    requires Run(ws) && k < |ws| && n < |ws[k].nodes| && i < |ws[k].nodes[n].peers|
    requires HeldBy(ws[k].nodes[n].peers[i], end)
    ensures OnlyAt(ws[k].nodes[n].peers, i, end)
  {
    hide Run, HistoryOk, Unique;
    RunsAreSafe(ws, k);
    TableIsInWorld(ws[k].nodes, n);
    var ps, local := ws[k].nodes[n].peers, ws[k].nodes[n].config.local;
    forall j | 0 <= j < |ps| && j != i ensures Deaf(ps[j], end) {
      if HeldBy(ps[j], end) {
        HeldTwiceIsNotUnique(Everyone(ws[k].nodes), local, ps, i, j, end);
      }
    }
  }

  /** Two entries, anywhere in the network, that send in one session to each other. */
  ghost predicate Facing(w: World, m: nat, i: nat, n: nat, j: nat) {
    && m < |w.nodes| && i < |w.nodes[m].peers| && n < |w.nodes| && j < |w.nodes[n].peers|
    && var p, q := w.nodes[m].peers[i], w.nodes[n].peers[j];
    p.active.Some? && q.active.Some? && q.active.value.end == p.active.value.end.OtherEnd()
  }

  /** What the one seals next the other takes, whatever happened before. */
  lemma NextIsTaken(ws: seq<World>, k: nat, m: nat, i: nat, n: nat, j: nat, now: nat)
    requires Run(ws) && k < |ws| && Facing(ws[k], m, i, n, j)
    requires SealCount(ws[k].history, ws[k].nodes[m].peers[i].active.value.end) < U64_LIMIT
    ensures var p, q := ws[k].nodes[m].peers[i], ws[k].nodes[n].peers[j];
            Takes(q, p.active.value.end.OtherEnd(), p.active.value.txNonce, now)
  {
    hide Run, HistoryOk, WorldSafe;
    var p, q := ws[k].nodes[m].peers[i], ws[k].nodes[n].peers[j];
    CountersAgreeWithHistory(ws, k, m, i, p.active.value);
    CountersAgreeWithHistory(ws, k, n, j, q.active.value);
    RunsAreSafe(ws, k);
    RunHasOkHistory(ws[k]);
    DeliveredIsBelow(ws[k].history, q.active.value.end);
  }

  lemma RunHasOkHistory(w: World)
    requires WorldSafe(w)
    ensures HistoryOk(w.history)
  {
    hide HistoryOk, Unique;
  }

  /**
   * In every state of every run, for two entries that send in one session: a packet for an address
   * that routes to the one comes out of the other's TUN, unchanged, exactly if it finds its entry
   * there and its source is one that entry may use. Nothing is asked of windows, nonces or other peers.
   */
  lemma PacketsCrossInEveryRun(ws: seq<World>, k: nat, m: nat, i: nat, n: nat, j: nat, winner: Subnet, packet: Bytes,
                               inp: SendInput, sentAt: nat, addr: Endpoint, from: Key, rin: RecvInput, now: nat)
    requires Run(ws) && k < |ws| && Facing(ws[k], m, i, n, j)
    requires SealCount(ws[k].history, ws[k].nodes[m].peers[i].active.value.end) < 0x1_0000_0000_0000_0000
    requires HasHeader(packet) && LengthHonest(packet) && inp.encryptOk
    requires Wins(ws[k].nodes[m].peers, Destination(packet), i, winner)
    requires ws[k].nodes[m].peers[i].endpoint.Some? || ws[k].nodes[m].config.hasRelay
    requires ws[k].nodes[m].peers[i].magic.data == ws[k].nodes[n].config.magic.data
    requires BytesDiffer(ws[k].nodes[n].config.magic)
    ensures var a, b := ws[k].nodes[m], ws[k].nodes[n];
            var actions := Act(a.config, a.peers, Activity.Sends(packet, inp), sentAt).actions;
            && |actions| == 1 && GoesTo(a.config, a.peers[i], sentAt, actions[0].1)
            && Act(b.config, b.peers, ReceivesUdp(actions[0].0, addr, rin), now).tun
               == (if Unshadowed(b.peers, j, addr) && MayCome(b.peers[j], packet) then Some(packet) else None)
            && Act(b.config, b.peers, ReceivesRelayed(from, actions[0].0, rin), now).tun
               == (if from == b.peers[j].pubkey && FirstOfKey(b.peers, j) && MayCome(b.peers[j], packet)
                   then Some(packet) else None)
  {
    hide Run, SealCount, TunSend, UdpReceive, RelayReceive, Takes, MayCome, GoesTo, Wins, OnlyAt;
    var a, b := ws[k].nodes[m], ws[k].nodes[n];
    SessionIsOnlyThere(ws, k, n, j, b.peers[j].active.value.end);
    NextIsTaken(ws, k, m, i, n, j, now);
    PacketCrosses(a.config, a.peers, i, winner, packet, inp, sentAt, b.config, b.peers, j, addr, from, rin, now);
  }
}
