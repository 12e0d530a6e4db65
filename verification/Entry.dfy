/** One entry of the peer table through the steps of a daemon, wherever in the table it stands. */
module Entries {
  import opened Wrappers
  import opened Words
  import opened Packet
  import opened Noise
  import opened PeerModel
  import opened DaemonModel
  import opened World
  import opened Reconciliation

  /** What one step of a daemon can do to one entry. */
  datatype EntryOp =
    | Rests
    | TicksWith(tickInput: TickInput)
    | SendsWith(packet: Bytes, sendInput: SendInput)
    | Decrypts(payload: Wire)
    | DecryptsFrom(payload: Wire, addr: Endpoint)
    | Answers(hs: nat, recvInput: RecvInput)
    | AnswersTo(hs: nat, addr: Endpoint, recvInput: RecvInput)
    | Handles(payload: Wire, recvInput: RecvInput)
    | HandlesDirectly(payload: Wire, recvInput: RecvInput)
    | Follows(endpoint: Option<Endpoint>, allowedIps: seq<Subnet>)

  datatype Effect = Effect(peer: PeerState, events: seq<Event>)

  function Perform(c: Config, p: PeerState, op: EntryOp, now: nat): (e: Effect)
    ensures e.peer.pubkey == p.pubkey
  {
    match op
    case Rests => Effect(p, [])
    case TicksWith(inp) =>
      var t := TickPeer(c, p, inp, now);
      Effect(t.peer, t.events)
    case SendsWith(packet, inp) =>
      var o := SendVia(c, p, packet, inp, now);
      Effect(o.peer, o.events)
    case Decrypts(payload) =>
      var o := Decrypt(p, payload, now);
      Effect(o.peer, o.events)
    case DecryptsFrom(payload, addr) =>
      var o := Decrypt(p, payload, now);
      Effect(o.peer.(endpoint := Some(addr), lastDirectRx := now), o.events)
    case Answers(hs, inp) =>
      var o := Answer(p, c.magic, hs, inp.id, inp.padding, now, inp.ok);
      Effect(o.peer, o.events)
    case AnswersTo(hs, addr, inp) =>
      var o := Answer(p.(endpoint := Some(addr), lastDirectRx := now), c.magic, hs, inp.id, inp.padding, now, inp.ok);
      Effect(o.peer, o.events)
    case Handles(payload, inp) =>
      var o := HandleHandshake(p, c.local, c.magic.handshakeResp, payload, inp.id, inp.padding, now, inp.ok);
      Effect(o.peer, o.events)
    case HandlesDirectly(payload, inp) =>
      var o := HandleHandshake(p, c.local, c.magic.handshakeResp, payload, inp.id, inp.padding, now, inp.ok);
      Effect(o.peer.(lastDirectRx := now), o.events)
    case Follows(endpoint, allowedIps) => Effect(p.(endpoint := endpoint, allowedIps := allowedIps), [])
  }

  /** Everything the operation does to sessions and handshakes is on record. */
  ghost predicate Logged(c: Config, p: PeerState, op: EntryOp, now: nat, log: seq<LogEntry>) {
    forall e | e in Perform(c, p, op, now).events :: LogEntry(c.local, p.pubkey, e) in log
  }

  lemma TagHas(local: Key, remote: Key, events: seq<Event>)
    ensures forall e | e in events :: LogEntry(local, remote, e) in Tag(local, remote, events)
  {
    forall e | e in events ensures LogEntry(local, remote, e) in Tag(local, remote, events) {
      var k :| 0 <= k < |events| && events[k] == e;
      assert Tag(local, remote, events)[k] == LogEntry(local, remote, e);
    }
  }

  /** The step turns `p` into `q` by one operation. */
  ghost predicate OneOp(c: Config, p: PeerState, q: PeerState, now: nat) {
    exists op :: q == Perform(c, p, op, now).peer
  }

  // ------------------------------------------------------------ steps on a table

  lemma {:induction false} TickAt(c: Config, ps: Peers, inputs: seq<TickInput>, now: nat, i: nat)
    requires |inputs| == |ps| && i < |ps|
    ensures Tick(c, ps, inputs, now).peers[i] == TickPeer(c, ps[i], inputs[i], now).peer
    ensures forall a | a in TickPeer(c, ps[i], inputs[i], now).actions :: a in Tick(c, ps, inputs, now).actions
    ensures Logged(c, ps[i], TicksWith(inputs[i]), now, Tick(c, ps, inputs, now).log)
    decreases |ps|
  {
    hide TickPeer;
    var n := |ps| - 1;
    TagHas(c.local, ps[i].pubkey, TickPeer(c, ps[i], inputs[i], now).events);
    if i < n {
      TickAt(c, ps[..n], inputs[..n], now, i);
    }
  }

  /** Trial decryption passes over entries before `k` and entries at the packet's own address. */
  lemma {:induction false} TrialAt(c: Config, ps: Peers, k: nat, payload: Wire, addr: Endpoint, now: nat, i: nat)
    returns (op: EntryOp)
    requires k <= |ps| && i < |ps|
    ensures var qs := TrialDecrypt(c, ps, k, payload, addr, now).peers;
            |qs| == |ps| && qs[i] == Perform(c, ps[i], op, now).peer && !op.TicksWith?
    ensures Logged(c, ps[i], op, now, TrialDecrypt(c, ps, k, payload, addr, now).log)
    ensures i < k || ps[i].endpoint == Some(addr) ==> op == Rests
    decreases |ps| - k
  {
    hide Decrypt, Admitted;
    op := Rests;
    if k < |ps| && ps[k].endpoint == Some(addr) {
      op := TrialAt(c, ps, k + 1, payload, addr, now, i);
    } else if k < |ps| {
      var o := Decrypt(ps[k], payload, now);
      var found := Admitted(o);
      if !found {
        op := TrialAt(c, ps[k := o.peer], k + 1, payload, addr, now, i);
      }
      if i == k {
        op := if found then DecryptsFrom(payload, addr) else Decrypts(payload);
        TagHas(c.local, ps[i].pubkey, o.events);
      }
    }
  }

  lemma UdpDataAt(c: Config, ps: Peers, payload: Wire, addr: Endpoint, now: nat, i: nat) returns (op: EntryOp)
    requires i < |ps|
    ensures var qs := UdpData(c, ps, payload, addr, now).peers;
            |qs| == |ps| && qs[i] == Perform(c, ps[i], op, now).peer && !op.TicksWith?
    ensures Logged(c, ps[i], op, now, UdpData(c, ps, payload, addr, now).log)
  {
    hide Decrypt, Admitted, TrialDecrypt;
    var found := FindEndpoint(ps, addr);
    if found.None? {
      op := TrialAt(c, ps, 0, payload, addr, now, i);
    } else {
      var j := found.value;
      var o := Decrypt(ps[j], payload, now);
      DecryptKeepsEndpoint(ps[j], payload, now);
      TagHas(c.local, ps[j].pubkey, o.events);
      if Admitted(o) {
        op := if i == j then DecryptsFrom(payload, addr) else Rests;
      } else {
        op := TrialAt(c, ps[j := o.peer], 0, payload, addr, now, i);
        if i == j {
          op := Decrypts(payload);
        }
      }
    }
  }

  lemma DecryptKeepsEndpoint(p: PeerState, payload: Wire, now: nat)
    ensures Decrypt(p, payload, now).peer.endpoint == p.endpoint
  {
  }

  lemma UdpReceiveAt(c: Config, ps: Peers, datagram: Wire, addr: Endpoint, inp: RecvInput, now: nat, i: nat)
    returns (op: EntryOp)
    requires i < |ps|
    ensures var qs := UdpReceive(c, ps, datagram, addr, inp, now).peers;
            |qs| == |ps| && qs[i] == Perform(c, ps[i], op, now).peer && !op.TicksWith?
    ensures Logged(c, ps[i], op, now, UdpReceive(c, ps, datagram, addr, inp, now).log)
  {
    hide Decrypt, Answer, HandleHandshake, ReadInit, UdpData;
    op := Rests;
    if datagram != [] {
      var packetType, payload := Values(datagram)[0], datagram[1..];
      var read, found := ReadInit(c.local, Cut(payload, INIT_LEN)), FindEndpoint(ps, addr);
      if packetType == c.magic.handshakeInit {
        if read.Some? && FindKey(ps, read.value.1) == Some(i) {
          op := AnswersTo(read.value.0, addr, inp);
          TagHas(c.local, ps[i].pubkey, Perform(c, ps[i], op, now).events);
        }
      } else if packetType == c.magic.handshakeResp {
        if found == Some(i) {
          op := HandlesDirectly(payload, inp);
          TagHas(c.local, ps[i].pubkey, Perform(c, ps[i], op, now).events);
        }
      } else if packetType == c.magic.data {
        op := UdpDataAt(c, ps, payload, addr, now, i);
      }
    }
  }

  lemma RelayReceiveAt(c: Config, ps: Peers, from: Key, packet: Wire, inp: RecvInput, now: nat, i: nat)
    returns (op: EntryOp)
    requires i < |ps|
    ensures var qs := RelayReceive(c, ps, from, packet, inp, now).peers;
            |qs| == |ps| && qs[i] == Perform(c, ps[i], op, now).peer && !op.TicksWith?
    ensures Logged(c, ps[i], op, now, RelayReceive(c, ps, from, packet, inp, now).log)
  {
    hide Decrypt, Answer, HandleHandshake, ReadInit, Admitted;
    op := Rests;
    if packet != [] && FindKey(ps, from) == Some(i) {
      var packetType, payload := Values(packet)[0], packet[1..];
      var read := ReadInit(c.local, Cut(payload, INIT_LEN));
      if packetType == c.magic.handshakeInit {
        if read.Some? && read.value.1 == from {
          op := Answers(read.value.0, inp);
        }
      } else if packetType == c.magic.handshakeResp {
        op := Handles(payload, inp);
      } else if packetType == c.magic.data {
        op := Decrypts(payload);
      }
      TagHas(c.local, ps[i].pubkey, Perform(c, ps[i], op, now).events);
    }
  }

  /** Where the entry at `i` stands after a step; a sync may drop it. */
  function NextPlace(ps: Peers, a: Activity, i: nat): Option<nat>
    requires i < |ps|
  {
    if !a.Syncs? then Some(i)
    else if Wanted(a.wanted, ps[i].pubkey) then Some(|Retain(ps[..i], a.wanted)|)
    else None
  }

  lemma {:induction false} RetainedPlace(ps: Peers, wanted: seq<ParsedPeer>, i: nat)
    requires i < |ps| && Wanted(wanted, ps[i].pubkey)
    ensures |Retain(ps[..i], wanted)| < |Retain(ps, wanted)|
    ensures Retain(ps, wanted)[|Retain(ps[..i], wanted)|] == ps[i]
    decreases |ps|
  {
    hide Wanted;
    var n := |ps| - 1;
    if i < n {
      RetainedPlace(ps[..n], wanted, i);
      assert ps[..n][..i] == ps[..i];
    }
  }

  lemma SyncAt(c: Config, ps: Peers, wanted: seq<ParsedPeer>, magic: Magic, now: nat, i: nat) returns (op: EntryOp)
    requires i < |ps| && Wanted(wanted, ps[i].pubkey)
    ensures var qs, j := Reconcile(ps, wanted, magic, now).peers, |Retain(ps[..i], wanted)|;
            j < |qs| && qs[j] == Perform(c, ps[i], op, now).peer && (op.Rests? || op.Follows?)
  {
    hide Reconcile, Retain, Newcomers, First, Wanted;
    var j := |Retain(ps[..i], wanted)|;
    RetainedPlace(ps, wanted, i);
    SyncInClosedForm(ps, wanted, magic, now);
    op := Rests;
    var kept := Retain(ps, wanted);
    if First(kept + Created(Newcomers(kept, wanted), magic, now), j) && LastFor(wanted, ps[i].pubkey).Some? {
      var w := LastFor(wanted, ps[i].pubkey).value;
      op := Follows(w.endpoint, w.allowedIps);
    }
  }

  /** Every step does one operation to every entry it keeps. */
  lemma EntryStep(c: Config, ps: Peers, a: Activity, now: nat, i: nat) returns (op: EntryOp)
    requires i < |ps| && (a.Ticks? ==> |a.inputs| == |ps|) && NextPlace(ps, a, i).Some?
    ensures var qs, j := Act(c, ps, a, now).peers, NextPlace(ps, a, i).value;
            j < |qs| && qs[j] == Perform(c, ps[i], op, now).peer
    ensures if a.Ticks? then op == TicksWith(a.inputs[i]) else !op.TicksWith?
    ensures Logged(c, ps[i], op, now, Act(c, ps, a, now).log)
  {
    hide Tick, UdpReceive, RelayReceive, FindBest, SendVia, Reconcile, Retain, Wanted;
    match a
    case Ticks(inputs) =>
      op := TicksWith(inputs[i]);
      TickAt(c, ps, inputs, now, i);
    case Sends(packet, inp) =>
      var header := ParseIpv4Header(packet);
      op := if header.Some? && FindBest(ps, header.value.1).idx == Some(i) then SendsWith(packet, inp) else Rests;
      TagHas(c.local, ps[i].pubkey, Perform(c, ps[i], op, now).events);
    case ReceivesUdp(datagram, addr, inp) =>
      op := UdpReceiveAt(c, ps, datagram, addr, inp, now, i);
    case ReceivesRelayed(from, frame, inp) =>
      op := RelayReceiveAt(c, ps, from, frame, inp, now, i);
    case Syncs(wanted) =>
      op := SyncAt(c, ps, wanted, c.magic, now, i);
  }

  /** Every entry after a step comes from one before it, or is new. */
  lemma EntryOrigin(c: Config, ps: Peers, a: Activity, now: nat, j: nat)
    requires (a.Ticks? ==> |a.inputs| == |ps|) && j < |Act(c, ps, a, now).peers|
    ensures var q := Act(c, ps, a, now).peers[j];
            || (exists i | 0 <= i < |ps| :: OneOp(c, ps[i], q, now))
            || q == NewPeer(q.pubkey, q.endpoint, q.allowedIps, c.magic, now)
  {
    hide Act, Perform;
    if !a.Syncs? {
      SameSize(c, ps, a, now);
      var op := EntryStep(c, ps, a, now, j);
      assert OneOp(c, ps[j], Act(c, ps, a, now).peers[j], now);
    } else {
      SyncAct(c, ps, a, now);
      var picked := SyncPlaces(ps, a.wanted, c.magic, now);
      if j < |picked| {
        RedescribedIsOneOp(c, ps[picked[j]], Act(c, ps, a, now).peers[j], now);
      }
    }
  }

  lemma SameSize(c: Config, ps: Peers, a: Activity, now: nat)
    requires !a.Syncs? && (a.Ticks? ==> |a.inputs| == |ps|)
    ensures |Act(c, ps, a, now).peers| == |ps|
  {
    hide Tick, FindBest, SendVia, UdpReceive, RelayReceive;
    if ps != [] && a.ReceivesUdp? {
      var op := UdpReceiveAt(c, ps, a.datagram, a.addr, a.udpInput, now, 0);
    } else if ps != [] && a.ReceivesRelayed? {
      var op := RelayReceiveAt(c, ps, a.from, a.frame, a.relayInput, now, 0);
    } else if ps == [] {
      NothingToReceive(c, a, now);
    }
  }

  lemma NothingToReceive(c: Config, a: Activity, now: nat)
    requires !a.Syncs? && (a.Ticks? ==> a.inputs == [])
    ensures Act(c, [], a, now).peers == []
  {
  }

  /** The same entry, but for what the coordinator says of it. */
  predicate Redescribed(p: PeerState, q: PeerState) {
    q == p.(endpoint := q.endpoint, allowedIps := q.allowedIps)
  }

  lemma RedescribedIsOneOp(c: Config, p: PeerState, q: PeerState, now: nat)
    requires Redescribed(p, q)
    ensures OneOp(c, p, q, now)
  {
    assert q == Perform(c, p, Follows(q.endpoint, q.allowedIps), now).peer;
  }

  lemma RefreshRedescribes(p: PeerState, wanted: seq<ParsedPeer>)
    ensures Redescribed(p, p) && Redescribed(p, Refresh(p, wanted))
  {
    hide LastFor;
  }

  lemma RefreshedNewcomer(w: ParsedPeer, wanted: seq<ParsedPeer>, magic: Magic, now: nat)
    ensures var p := NewPeer(w.pubkey, w.endpoint, w.allowedIps, magic, now);
            var q := Refresh(p, wanted);
            q == NewPeer(q.pubkey, q.endpoint, q.allowedIps, magic, now)
  {
    hide LastFor;
  }

  /** After a sync the kept entries, those at `picked`, come first, described anew; the rest is new. */
  lemma SyncPlaces(ps: Peers, wanted: seq<ParsedPeer>, magic: Magic, now: nat) returns (picked: seq<nat>)
    ensures |picked| <= |Reconcile(ps, wanted, magic, now).peers|
    ensures forall k | 0 <= k < |picked| ::
              picked[k] < |ps| && Redescribed(ps[picked[k]], Reconcile(ps, wanted, magic, now).peers[k])
    ensures forall k, l | 0 <= k < l < |picked| :: picked[k] < picked[l]
    ensures forall k | 0 <= k < |picked| :: |Retain(ps[..picked[k]], wanted)| == k
    ensures forall i | 0 <= i < |ps| && Wanted(wanted, ps[i].pubkey) :: i in picked
    ensures forall k | |picked| <= k < |Reconcile(ps, wanted, magic, now).peers| ::
              var q := Reconcile(ps, wanted, magic, now).peers[k];
              q == NewPeer(q.pubkey, q.endpoint, q.allowedIps, magic, now)
  {
    hide Reconcile, Retain, Newcomers, First, Wanted, Refresh, Redescribed, Distinct, HasKey, EndpointsOf;
    picked := RetainKeepsOrder(ps, wanted);
    var kept := Retain(ps, wanted);
    var ws := Newcomers(kept, wanted);
    SyncInClosedForm(ps, wanted, magic, now);
    var qs := Reconcile(ps, wanted, magic, now).peers;
    forall k | 0 <= k < |picked| ensures Redescribed(ps[picked[k]], qs[k]) {
      RefreshRedescribes(kept[k], wanted);
    }
    forall k | |picked| <= k < |qs|
      ensures qs[k] == NewPeer(qs[k].pubkey, qs[k].endpoint, qs[k].allowedIps, magic, now) {
      RefreshedNewcomer(ws[k - |kept|], wanted, magic, now);
    }
  }

  // ------------------------------------------------------------- lives of entries

  /** The states of one entry with the operations that lead from each to the next. */
  ghost predicate Life(c: Config, ps: seq<PeerState>, ops: seq<EntryOp>, times: seq<nat>) {
    && |ps| == |ops| + 1 == |times|
    && (forall k | 0 <= k < |ops| :: times[k] <= times[k + 1])
    && forall k {:trigger ops[k]} | 0 <= k < |ops| :: ps[k + 1] == Perform(c, ps[k], ops[k], times[k + 1]).peer
  }

  lemma {:induction false} TimesAreMonotone(times: seq<nat>, i: nat, j: nat)
    requires forall k | 0 <= k < |times| - 1 :: times[k] <= times[k + 1]
    requires i <= j < |times|
    ensures times[i] <= times[j]
    decreases j
  {
    if i < j {
      TimesAreMonotone(times, i, j - 1);
    }
  }
}
