/**
 * Any number of daemons and an attacker who owns the network. Each daemon's mutex makes every
 * task iteration one atomic step; the attacker drops, repeats, reorders, splices and injects.
 */
module Network {
  import opened Wrappers
  import opened Words
  import opened Packet
  import opened Noise
  import opened PeerModel
  import opened DaemonModel
  import opened Protocol
  import opened PeerSafety

  // ------------------------------------------------------------- peer tables

  function All(local: Key, ps: Peers): Pool {
    if ps == [] then multiset{} else All(local, ps[..|ps| - 1]) + Secrets(local, ps[|ps| - 1])
  }

  ghost predicate TableSafe(rest: Pool, local: Key, ps: Peers, h: History) {
    PoolInv(rest + All(local, ps), h)
  }

  /** All secrets of the table but those of peer `i`. */
  function Others(local: Key, ps: Peers, i: nat): Pool
    requires i < |ps|
  {
    if i == |ps| - 1 then All(local, ps[..i])
    else Others(local, ps[..|ps| - 1], i) + Secrets(local, ps[|ps| - 1])
  }

  lemma {:induction false} SplitTable(local: Key, ps: Peers, i: nat)
    requires i < |ps|
    ensures All(local, ps) == Others(local, ps, i) + Secrets(local, ps[i])
  {
    hide Secrets;
    if i < |ps| - 1 {
      var init := ps[..|ps| - 1];
      SplitTable(local, init, i);
      var others, ours, last := Others(local, init, i), Secrets(local, ps[i]), Secrets(local, ps[|ps| - 1]);
      assert (others + ours) + last == (others + last) + ours;
    } else {
      assert ps[..i] == ps[..|ps| - 1];
    }
  }

  lemma Regroup(a: Pool, b: Pool, c: Pool)
    ensures a + (b + c) == a + b + c
  {
  }

  lemma {:induction false} OthersUnchanged(local: Key, ps: Peers, i: nat, q: PeerState)
    requires i < |ps|
    ensures Others(local, ps[i := q], i) == Others(local, ps, i)
  {
    hide Secrets;
    var init := ps[..|ps| - 1];
    if i < |ps| - 1 {
      assert ps[i := q][..|ps| - 1] == init[i := q];
      OthersUnchanged(local, init, i, q);
    } else {
      assert ps[i := q][..i] == ps[..i];
    }
  }

  lemma Focus(rest: Pool, local: Key, ps: Peers, i: nat, h: History)
    requires i < |ps| && TableSafe(rest, local, ps, h)
    ensures Safe(rest + Others(local, ps, i), local, ps[i], h)
  {
    hide PoolInv, All, Others, Secrets;
    SplitTable(local, ps, i);
    Regroup(rest, Others(local, ps, i), Secrets(local, ps[i]));
  }

  lemma Unfocus(rest: Pool, local: Key, ps: Peers, i: nat, q: PeerState, h: History)
    requires i < |ps| && Safe(rest + Others(local, ps, i), local, q, h)
    ensures TableSafe(rest, local, ps[i := q], h)
  {
    hide PoolInv, All, Others, Secrets;
    OthersUnchanged(local, ps, i, q);
    SplitTable(local, ps[i := q], i);
    Regroup(rest, Others(local, ps, i), Secrets(local, q));
  }

  /** Endpoints, allowed addresses and timestamps are not secrets. */
  lemma SecretsUnaffected(local: Key, p: PeerState, endpoint: Option<Endpoint>, allowedIps: seq<Subnet>,
                          lastDirectRx: nat)
    ensures Secrets(local, p.(endpoint := endpoint, allowedIps := allowedIps, lastDirectRx := lastDirectRx))
         == Secrets(local, p)
  {
  }

  lemma Retouch(rest: Pool, local: Key, ps: Peers, i: nat, endpoint: Option<Endpoint>, allowedIps: seq<Subnet>,
                lastDirectRx: nat, h: History)
    requires i < |ps| && TableSafe(rest, local, ps, h)
    ensures TableSafe(rest, local,
                      ps[i := ps[i].(endpoint := endpoint, allowedIps := allowedIps, lastDirectRx := lastDirectRx)], h)
  {
    hide PoolInv, All, Others, Secrets;
    Focus(rest, local, ps, i, h);
    SecretsUnaffected(local, ps[i], endpoint, allowedIps, lastDirectRx);
    Unfocus(rest, local, ps, i, ps[i].(endpoint := endpoint, allowedIps := allowedIps, lastDirectRx := lastDirectRx),
            h);
  }

  lemma DerivableLater(h: History, more: History, w: Wire)
    requires Derivable(h, w)
    ensures Derivable(h + more, w)
  {
    forall i | 0 <= i < |w| && w[i].Part? ensures Produced(h + more, w[i].msg) {
      var e :| e in h && Yield(e) == Some(w[i].msg);
      assert e in h + more;
    }
  }

  // ------------------------------------------------------- steps of the tasks

  ghost predicate StepSafe(rest: Pool, c: Config, s: Step, h: History) {
    TableSafe(rest, c.local, s.peers, h + s.log)
  }

  ghost predicate FreshInputs(h: History, inputs: seq<TickInput>) {
    && (forall i | 0 <= i < |inputs| :: !HandshakeUsed(h, inputs[i].hs))
    && (forall i, j | 0 <= i < j < |inputs| :: inputs[i].hs != inputs[j].hs)
  }

  lemma {:induction false} TickStartsOnlyInputs(c: Config, ps: Peers, inputs: seq<TickInput>, now: nat, hs: nat)
    requires |inputs| == |ps| && forall i | 0 <= i < |inputs| :: inputs[i].hs != hs
    ensures forall e | e in Tick(c, ps, inputs, now).log && e.event.Started? :: e.event.hs != hs
  {
    hide TickPeer;
    if ps != [] {
      var n := |ps| - 1;
      TickStartsOnlyInputs(c, ps[..n], inputs[..n], now, hs);
      TickStartsOnly(c, ps[n], inputs[n], now);
    }
  }

  lemma {:induction false} TickIsSafe(rest: Pool, c: Config, ps: Peers, inputs: seq<TickInput>, now: nat, h: History)
    requires TableSafe(rest, c.local, ps, h)
    requires |inputs| == |ps| && FreshInputs(h, inputs)
    ensures StepSafe(rest, c, Tick(c, ps, inputs, now), h)
    decreases |ps|
  {
    hide PoolInv, Secrets, TickPeer, HandshakeUsed;
    if ps == [] {
      assert h + [] == h;
    } else {
      var n := |ps| - 1;
      var init, p, inp := ps[..n], ps[n], inputs[n];
      var ours := Secrets(c.local, p);
      assert rest + All(c.local, ps) == (rest + ours) + All(c.local, init);
      TickIsSafe(rest + ours, c, init, inputs[..n], now, h);
      var s, t := Tick(c, init, inputs[..n], now), TickPeer(c, p, inp, now);
      StillUnused(c, init, inputs[..n], now, h, inp.hs);
      var others := rest + All(c.local, s.peers);
      assert (rest + ours) + All(c.local, s.peers) == others + ours;
      TickPeerIsSafe(others, c, p, h + s.log, inp, now);
      assert (s.peers + [t.peer])[..n] == s.peers;
      assert others + Secrets(c.local, t.peer) == rest + All(c.local, s.peers + [t.peer]);
      assert (h + s.log) + Tag(c.local, p.pubkey, t.events) == h + (s.log + Tag(c.local, p.pubkey, t.events));
    }
  }

  lemma StillUnused(c: Config, ps: Peers, inputs: seq<TickInput>, now: nat, h: History, hs: nat)
    requires |inputs| == |ps| && !HandshakeUsed(h, hs)
    requires forall i | 0 <= i < |inputs| :: inputs[i].hs != hs
    ensures !HandshakeUsed(h + Tick(c, ps, inputs, now).log, hs)
  {
    hide Tick;
    TickStartsOnlyInputs(c, ps, inputs, now, hs);
  }

  lemma NothingHappens(rest: Pool, c: Config, ps: Peers, h: History)
    requires TableSafe(rest, c.local, ps, h)
    ensures StepSafe(rest, c, Step(ps, [], None, []), h)
  {
    assert h + [] == h;
  }

  lemma TunSendIsSafe(rest: Pool, c: Config, ps: Peers, packet: Bytes, inp: SendInput, now: nat, h: History)
    requires TableSafe(rest, c.local, ps, h) && !HandshakeUsed(h, inp.hs)
    ensures StepSafe(rest, c, TunSend(c, ps, packet, inp, now), h)
  {
    hide PoolInv, Secrets, All, Others, FindBest, SendVia;
    NothingHappens(rest, c, ps, h);
    var header := ParseIpv4Header(packet);
    if header.Some? {
      var best := FindBest(ps, header.value.1).idx;
      if best.Some? {
        var i := best.value;
        Focus(rest, c.local, ps, i, h);
        SendViaIsSafe(rest + Others(c.local, ps, i), c, ps[i], h, packet, inp, now);
        var o := SendVia(c, ps[i], packet, inp, now);
        Unfocus(rest, c.local, ps, i, o.peer, h + Tag(c.local, ps[i].pubkey, o.events));
      }
    }
  }

  lemma AnswerStepIsSafe(rest: Pool, c: Config, ps: Peers, i: nat, hs: nat, inp: RecvInput, now: nat, h: History)
    requires i < |ps| && TableSafe(rest, c.local, ps, h)
    requires !SessionUsed(h, inp.id) && Produced(h, Init(hs, ps[i].pubkey, c.local))
    ensures var o := Answer(ps[i], c.magic, hs, inp.id, inp.padding, now, inp.ok);
            TableSafe(rest, c.local, ps[i := o.peer], h + Tag(c.local, ps[i].pubkey, o.events))
  {
    hide PoolInv, Secrets, All, Others, Answer;
    var o := Answer(ps[i], c.magic, hs, inp.id, inp.padding, now, inp.ok);
    Focus(rest, c.local, ps, i, h);
    AnswerIsSafe(rest + Others(c.local, ps, i), c.local, ps[i], h, c.magic, hs, inp.id, inp.padding, now, inp.ok);
    Unfocus(rest, c.local, ps, i, o.peer, h + Tag(c.local, ps[i].pubkey, o.events));
  }

  lemma HandleStepIsSafe(rest: Pool, c: Config, ps: Peers, i: nat, payload: Wire, inp: RecvInput, now: nat, h: History)
    requires i < |ps| && TableSafe(rest, c.local, ps, h)
    requires !SessionUsed(h, inp.id) && Derivable(h, payload)
    ensures var o := HandleHandshake(ps[i], c.local, c.magic.handshakeResp, payload, inp.id, inp.padding, now, inp.ok);
            TableSafe(rest, c.local, ps[i := o.peer], h + Tag(c.local, ps[i].pubkey, o.events))
  {
    hide PoolInv, Secrets, All, Others, HandleHandshake;
    var o := HandleHandshake(ps[i], c.local, c.magic.handshakeResp, payload, inp.id, inp.padding, now, inp.ok);
    Focus(rest, c.local, ps, i, h);
    HandleHandshakeIsSafe(rest + Others(c.local, ps, i), c.local, ps[i], h, c.magic.handshakeResp, payload,
                          inp.id, inp.padding, now, inp.ok);
    Unfocus(rest, c.local, ps, i, o.peer, h + Tag(c.local, ps[i].pubkey, o.events));
  }

  lemma DecryptStepIsSafe(rest: Pool, c: Config, ps: Peers, i: nat, payload: Wire, now: nat, h: History)
    requires i < |ps| && TableSafe(rest, c.local, ps, h) && Derivable(h, payload)
    ensures var o := Decrypt(ps[i], payload, now);
            TableSafe(rest, c.local, ps[i := o.peer], h + Tag(c.local, ps[i].pubkey, o.events))
  {
    hide PoolInv, Secrets, All, Others, Decrypt;
    var o := Decrypt(ps[i], payload, now);
    Focus(rest, c.local, ps, i, h);
    DecryptIsSafe(rest + Others(c.local, ps, i), c.local, ps[i], h, payload, now);
    Unfocus(rest, c.local, ps, i, o.peer, h + Tag(c.local, ps[i].pubkey, o.events));
  }

  lemma ReadInitIsProduced(h: History, local: Key, payload: Wire)
    requires Derivable(h, payload) && ReadInit(local, Cut(payload, INIT_LEN)).Some?
    ensures var read := ReadInit(local, Cut(payload, INIT_LEN)).value;
            Produced(h, Init(read.0, read.1, local))
  {
    RecognizedIsProduced(h, Cut(payload, INIT_LEN));
  }

  lemma UdpInitIsSafe(rest: Pool, c: Config, ps: Peers, payload: Wire, addr: Endpoint, inp: RecvInput, now: nat,
                      h: History)
    requires TableSafe(rest, c.local, ps, h) && Derivable(h, payload) && !SessionUsed(h, inp.id)
    ensures StepSafe(rest, c, UdpInit(c, ps, payload, addr, inp, now), h)
  {
    hide TableSafe, Derivable, Answer;
    NothingHappens(rest, c, ps, h);
    var read := ReadInit(c.local, Cut(payload, INIT_LEN));
    if read.Some? && FindKey(ps, read.value.1).Some? {
      var i := FindKey(ps, read.value.1).value;
      ReadInitIsProduced(h, c.local, payload);
      var seen := ps[i].(endpoint := Some(addr), lastDirectRx := now);
      Retouch(rest, c.local, ps, i, Some(addr), ps[i].allowedIps, now, h);
      AnswerStepIsSafe(rest, c, ps[i := seen], i, read.value.0, inp, now, h);
      var o := Answer(seen, c.magic, read.value.0, inp.id, inp.padding, now, inp.ok);
      assert ps[i := seen][i := o.peer] == ps[i := o.peer];
    }
  }

  lemma UdpRespIsSafe(rest: Pool, c: Config, ps: Peers, payload: Wire, addr: Endpoint, inp: RecvInput, now: nat,
                      h: History)
    requires TableSafe(rest, c.local, ps, h) && Derivable(h, payload) && !SessionUsed(h, inp.id)
    ensures StepSafe(rest, c, UdpResp(c, ps, payload, addr, inp, now), h)
  {
    hide TableSafe, Derivable, HandleHandshake;
    NothingHappens(rest, c, ps, h);
    if FindEndpoint(ps, addr).Some? {
      var i := FindEndpoint(ps, addr).value;
      var o := HandleHandshake(ps[i], c.local, c.magic.handshakeResp, payload, inp.id, inp.padding, now, inp.ok);
      HandleStepIsSafe(rest, c, ps, i, payload, inp, now, h);
      Retouch(rest, c.local, ps[i := o.peer], i, o.peer.endpoint, o.peer.allowedIps, now,
              h + Tag(c.local, ps[i].pubkey, o.events));
      assert ps[i := o.peer][i := o.peer.(lastDirectRx := now)] == ps[i := o.peer.(lastDirectRx := now)];
    }
  }

  lemma {:induction false} TrialDecryptIsSafe(rest: Pool, c: Config, ps: Peers, k: nat, payload: Wire, addr: Endpoint,
                                              now: nat, h: History)
    requires k <= |ps| && TableSafe(rest, c.local, ps, h) && Derivable(h, payload)
    ensures StepSafe(rest, c, TrialDecrypt(c, ps, k, payload, addr, now), h)
    decreases |ps| - k
  {
    hide TableSafe, Derivable, Decrypt, Admitted;
    NothingHappens(rest, c, ps, h);
    if k < |ps| && ps[k].endpoint == Some(addr) {
      TrialDecryptIsSafe(rest, c, ps, k + 1, payload, addr, now, h);
    } else if k < |ps| {
      var o := Decrypt(ps[k], payload, now);
      var log := Tag(c.local, ps[k].pubkey, o.events);
      DecryptStepIsSafe(rest, c, ps, k, payload, now, h);
      if Admitted(o) {
        Retouch(rest, c.local, ps[k := o.peer], k, Some(addr), o.peer.allowedIps, now, h + log);
        assert ps[k := o.peer][k := o.peer.(endpoint := Some(addr), lastDirectRx := now)]
            == ps[k := o.peer.(endpoint := Some(addr), lastDirectRx := now)];
      } else {
        DerivableLater(h, log, payload);
        TrialDecryptIsSafe(rest, c, ps[k := o.peer], k + 1, payload, addr, now, h + log);
        var more := TrialDecrypt(c, ps[k := o.peer], k + 1, payload, addr, now);
        assert (h + log) + more.log == h + (log + more.log);
      }
    }
  }

  lemma UdpDataIsSafe(rest: Pool, c: Config, ps: Peers, payload: Wire, addr: Endpoint, now: nat, h: History)
    requires TableSafe(rest, c.local, ps, h) && Derivable(h, payload)
    ensures StepSafe(rest, c, UdpData(c, ps, payload, addr, now), h)
  {
    hide TableSafe, Derivable, Decrypt, Admitted, TrialDecrypt;
    TrialDecryptIsSafe(rest, c, ps, 0, payload, addr, now, h);
    if FindEndpoint(ps, addr).Some? {
      var i := FindEndpoint(ps, addr).value;
      var o := Decrypt(ps[i], payload, now);
      var log := Tag(c.local, ps[i].pubkey, o.events);
      DecryptStepIsSafe(rest, c, ps, i, payload, now, h);
      if Admitted(o) {
        Retouch(rest, c.local, ps[i := o.peer], i, o.peer.endpoint, o.peer.allowedIps, now, h + log);
        assert ps[i := o.peer][i := o.peer.(lastDirectRx := now)] == ps[i := o.peer.(lastDirectRx := now)];
      } else {
        DerivableLater(h, log, payload);
        TrialDecryptIsSafe(rest, c, ps[i := o.peer], 0, payload, addr, now, h + log);
        var more := TrialDecrypt(c, ps[i := o.peer], 0, payload, addr, now);
        assert (h + log) + more.log == h + (log + more.log);
      }
    }
  }

  lemma TailIsDerivable(h: History, w: Wire)
    requires Derivable(h, w) && w != []
    ensures Derivable(h, w[1..])
  {
  }

  lemma UdpReceiveIsSafe(rest: Pool, c: Config, ps: Peers, datagram: Wire, addr: Endpoint, inp: RecvInput, now: nat,
                         h: History)
    requires TableSafe(rest, c.local, ps, h) && Derivable(h, datagram) && !SessionUsed(h, inp.id)
    ensures StepSafe(rest, c, UdpReceive(c, ps, datagram, addr, inp, now), h)
  {
    hide TableSafe, Derivable, UdpInit, UdpResp, UdpData;
    NothingHappens(rest, c, ps, h);
    if datagram != [] {
      TailIsDerivable(h, datagram);
      UdpInitIsSafe(rest, c, ps, datagram[1..], addr, inp, now, h);
      UdpRespIsSafe(rest, c, ps, datagram[1..], addr, inp, now, h);
      UdpDataIsSafe(rest, c, ps, datagram[1..], addr, now, h);
    }
  }

  lemma RelayReceiveIsSafe(rest: Pool, c: Config, ps: Peers, from: Key, packet: Wire, inp: RecvInput, now: nat,
                           h: History)
    requires TableSafe(rest, c.local, ps, h) && Derivable(h, packet) && !SessionUsed(h, inp.id)
    ensures StepSafe(rest, c, RelayReceive(c, ps, from, packet, inp, now), h)
  {
    hide TableSafe, Derivable, Answer, HandleHandshake, Decrypt, Admitted;
    NothingHappens(rest, c, ps, h);
    if packet != [] && FindKey(ps, from).Some? {
      var i, payload := FindKey(ps, from).value, packet[1..];
      TailIsDerivable(h, packet);
      HandleStepIsSafe(rest, c, ps, i, payload, inp, now, h);
      DecryptStepIsSafe(rest, c, ps, i, payload, now, h);
      var read := ReadInit(c.local, Cut(payload, INIT_LEN));
      if read.Some? && read.value.1 == from {
        ReadInitIsProduced(h, c.local, payload);
        AnswerStepIsSafe(rest, c, ps, i, read.value.0, inp, now, h);
      }
    }
  }
}
