/** All runs of all daemons, and what every run guarantees about sessions and packets. */
module World {
  import opened Wrappers
  import opened Words
  import opened Noise
  import opened PeerModel
  import opened DaemonModel
  import opened Protocol
  import opened PeerSafety
  import opened Network

  // --------------------------------------------------------- reconciliation

  lemma Shuffle(a: Pool, b: Pool, c: Pool)
    ensures a + (b + c) == (a + c) + b == (a + b) + c
  {
  }

  lemma {:induction false} RetainIsSafe(rest: Pool, local: Key, ps: Peers, wanted: seq<ParsedPeer>, h: History)
    requires TableSafe(rest, local, ps, h)
    ensures TableSafe(rest, local, Retain(ps, wanted), h + Dropped(local, ps, wanted))
    decreases |ps|
  {
    hide PoolInv, Secrets, Wanted;
    if ps == [] {
      assert h + [] == h;
    } else {
      var n := |ps| - 1;
      var init, p := ps[..n], ps[n];
      var ours := Secrets(local, p);
      Shuffle(rest, All(local, init), ours);
      RetainIsSafe(rest + ours, local, init, wanted, h);
      var kept, g := Retain(init, wanted), h + Dropped(local, init, wanted);
      var others := rest + All(local, kept);
      Shuffle(rest, All(local, kept), ours);
      if Wanted(wanted, p.pubkey) {
        assert (kept + [p])[..|kept|] == kept;
      } else {
        BuryIsSafe(others, local, p, g);
        assert g + Tag(local, p.pubkey, RetireActive(p)) == h + Dropped(local, ps, wanted);
      }
    }
  }

  lemma UpsertIsSafe(rest: Pool, local: Key, ps: Peers, w: ParsedPeer, magic: Magic, now: nat, h: History)
    requires TableSafe(rest, local, ps, h)
    ensures TableSafe(rest, local, Upsert(ps, w, magic, now).peers, h)
  {
    match FindKey(ps, w.pubkey)
    case Some(i) =>
      hide TableSafe;
      Retouch(rest, local, ps, i, w.endpoint, w.allowedIps, ps[i].lastDirectRx, h);
    case None =>
      hide PoolInv;
      var p := NewPeer(w.pubkey, w.endpoint, w.allowedIps, magic, now);
      assert (ps + [p])[..|ps|] == ps;
      assert All(local, ps + [p]) == All(local, ps) + Secrets(local, p);
      assert All(local, ps) + Secrets(local, p) == All(local, ps);
  }

  lemma {:induction false} UpsertAllIsSafe(rest: Pool, local: Key, ps: Peers, wanted: seq<ParsedPeer>, magic: Magic,
                                           now: nat, h: History)
    requires TableSafe(rest, local, ps, h)
    ensures TableSafe(rest, local, UpsertAll(ps, wanted, magic, now).peers, h)
    decreases |wanted|
  {
    hide TableSafe, Upsert;
    if wanted != [] {
      var n := |wanted| - 1;
      UpsertAllIsSafe(rest, local, ps, wanted[..n], magic, now, h);
      UpsertIsSafe(rest, local, UpsertAll(ps, wanted[..n], magic, now).peers, wanted[n], magic, now, h);
    }
  }

  // ------------------------------------------------------------------- runs

  datatype Node = Node(config: Config, clock: nat, peers: Peers)

  datatype World = World(nodes: seq<Node>, history: History)

  /** One iteration of one task of one daemon. */
  datatype Activity =
    | Ticks(inputs: seq<TickInput>)
    | Sends(packet: Bytes, sendInput: SendInput)
    | ReceivesUdp(datagram: Wire, addr: Endpoint, udpInput: RecvInput)
    | ReceivesRelayed(from: Key, frame: Wire, relayInput: RecvInput)
    | Syncs(wanted: seq<ParsedPeer>)

  function Act(c: Config, ps: Peers, a: Activity, now: nat): Step
    requires a.Ticks? ==> |a.inputs| == |ps|
  {
    match a
    case Ticks(inputs) => Tick(c, ps, inputs, now)
    case Sends(packet, inp) => TunSend(c, ps, packet, inp, now)
    case ReceivesUdp(datagram, addr, inp) => UdpReceive(c, ps, datagram, addr, inp, now)
    case ReceivesRelayed(from, frame, inp) => RelayReceive(c, ps, from, frame, inp, now)
    case Syncs(wanted) =>
      Step(Reconcile(ps, wanted, c.magic, now).peers, [], None, Dropped(c.local, ps, wanted))
  }

  lemma SyncAct(c: Config, ps: Peers, a: Activity, now: nat)
    requires a.Syncs?
    ensures Act(c, ps, a, now).peers == Reconcile(ps, a.wanted, c.magic, now).peers
  {
  }

  /** Ids are fresh, and what arrives was put together from octets seen before. */
  ghost predicate Possible(h: History, ps: Peers, a: Activity) {
    match a
    case Ticks(inputs) => |inputs| == |ps| && FreshInputs(h, inputs)
    case Sends(_, inp) => !HandshakeUsed(h, inp.hs)
    case ReceivesUdp(datagram, _, inp) => Derivable(h, datagram) && !SessionUsed(h, inp.id)
    case ReceivesRelayed(_, frame, inp) => Derivable(h, frame) && !SessionUsed(h, inp.id)
    case Syncs(_) => true
  }

  ghost predicate NextBy(w: World, v: World, i: nat, a: Activity, now: nat) {
    && i < |w.nodes|
    && w.nodes[i].clock <= now
    && Possible(w.history, w.nodes[i].peers, a)
    && var s := Act(w.nodes[i].config, w.nodes[i].peers, a, now);
    v == World(w.nodes[i := w.nodes[i].(clock := now, peers := s.peers)], w.history + s.log)
  }

  ghost predicate Next(w: World, v: World) {
    exists i: nat, a, now: nat :: NextBy(w, v, i, a, now)
  }

  /** A peer as `Peer::new` leaves it, made no later than `now`. */
  predicate Untouched(p: PeerState, now: nat) {
    p.lastRx <= now && p == NewPeer(p.pubkey, p.endpoint, p.allowedIps, p.magic, p.lastRx)
  }

  predicate Initial(w: World) {
    w.history == [] && forall n, p | n in w.nodes && p in n.peers :: Untouched(p, n.clock)
  }

  ghost predicate Run(ws: seq<World>) {
    ws != [] && Initial(ws[0]) && forall k | 0 < k < |ws| :: Next(ws[k - 1], ws[k])
  }

  // ------------------------------------------------- everyone's secrets at once

  function Held(n: Node): Pool {
    All(n.config.local, n.peers)
  }

  function Everyone(nodes: seq<Node>): Pool {
    if nodes == [] then multiset{} else Everyone(nodes[..|nodes| - 1]) + Held(nodes[|nodes| - 1])
  }

  function Elsewhere(nodes: seq<Node>, i: nat): Pool
    requires i < |nodes|
  {
    if i == |nodes| - 1 then Everyone(nodes[..i])
    else Elsewhere(nodes[..|nodes| - 1], i) + Held(nodes[|nodes| - 1])
  }

  lemma {:induction false} SplitWorld(nodes: seq<Node>, i: nat)
    requires i < |nodes|
    ensures Everyone(nodes) == Elsewhere(nodes, i) + Held(nodes[i])
  {
    hide Held;
    if i < |nodes| - 1 {
      var init := nodes[..|nodes| - 1];
      SplitWorld(init, i);
      var others, ours, last := Elsewhere(init, i), Held(nodes[i]), Held(nodes[|nodes| - 1]);
      assert (others + ours) + last == (others + last) + ours;
    } else {
      assert nodes[..i] == nodes[..|nodes| - 1];
    }
  }

  lemma {:induction false} ElsewhereUnchanged(nodes: seq<Node>, i: nat, n: Node)
    requires i < |nodes|
    ensures Elsewhere(nodes[i := n], i) == Elsewhere(nodes, i)
  {
    hide Held;
    var init := nodes[..|nodes| - 1];
    if i < |nodes| - 1 {
      assert nodes[i := n][..|nodes| - 1] == init[i := n];
      ElsewhereUnchanged(init, i, n);
    } else {
      assert nodes[i := n][..i] == nodes[..i];
    }
  }

  ghost predicate WorldSafe(w: World) {
    PoolInv(Everyone(w.nodes), w.history)
  }

  lemma ActIsSafe(rest: Pool, c: Config, ps: Peers, a: Activity, now: nat, h: History)
    requires TableSafe(rest, c.local, ps, h) && Possible(h, ps, a)
    ensures StepSafe(rest, c, Act(c, ps, a, now), h)
  {
    hide TableSafe, Derivable, HandshakeUsed, SessionUsed;
    match a
    case Ticks(inputs) =>
      TickIsSafe(rest, c, ps, inputs, now, h);
    case Sends(packet, inp) =>
      TunSendIsSafe(rest, c, ps, packet, inp, now, h);
    case ReceivesUdp(datagram, addr, inp) =>
      UdpReceiveIsSafe(rest, c, ps, datagram, addr, inp, now, h);
    case ReceivesRelayed(from, frame, inp) =>
      RelayReceiveIsSafe(rest, c, ps, from, frame, inp, now, h);
    case Syncs(wanted) =>
      RetainIsSafe(rest, c.local, ps, wanted, h);
      UpsertAllIsSafe(rest, c.local, Retain(ps, wanted), wanted, c.magic, now, h + Dropped(c.local, ps, wanted));
  }

  lemma NextIsSafe(w: World, v: World)
    requires WorldSafe(w) && Next(w, v)
    ensures WorldSafe(v)
  {
    hide PoolInv, Everyone, Elsewhere, Act, Possible;
    var i: nat, a, now: nat :| NextBy(w, v, i, a, now);
    var n := w.nodes[i];
    SplitWorld(w.nodes, i);
    ActIsSafe(Elsewhere(w.nodes, i), n.config, n.peers, a, now, w.history);
    ElsewhereUnchanged(w.nodes, i, v.nodes[i]);
    SplitWorld(v.nodes, i);
  }

  lemma {:induction false} NothingHeld(local: Key, ps: Peers, now: nat)
    requires forall p | p in ps :: Untouched(p, now)
    ensures All(local, ps) == multiset{}
  {
    if ps != [] {
      NothingHeld(local, ps[..|ps| - 1], now);
      assert Untouched(ps[|ps| - 1], now);
    }
  }

  lemma {:induction false} NobodyHoldsAnything(nodes: seq<Node>)
    requires forall n, p | n in nodes && p in n.peers :: Untouched(p, n.clock)
    ensures Everyone(nodes) == multiset{}
  {
    if nodes != [] {
      NobodyHoldsAnything(nodes[..|nodes| - 1]);
      var n := nodes[|nodes| - 1];
      assert n in nodes;
      NothingHeld(n.config.local, n.peers, n.clock);
    }
  }

  /** Main result: the history of every run obeys all the rules of `Protocol.EventOk`. */
  lemma {:induction false} RunsAreSafe(ws: seq<World>, k: nat)
    requires Run(ws) && k < |ws|
    ensures WorldSafe(ws[k]) && HistoryOk(ws[k].history)
    decreases k
  {
    if k == 0 {
      NobodyHoldsAnything(ws[0].nodes);
    } else {
      RunsAreSafe(ws, k - 1);
      NextIsSafe(ws[k - 1], ws[k]);
    }
  }
}
