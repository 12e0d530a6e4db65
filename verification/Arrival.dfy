/** Which entry of the table a data packet reaches, and when it reaches none. */
module Arrival {
  import opened Wrappers
  import opened Words
  import opened Noise
  import opened Replay
  import opened PeerModel
  import opened DaemonModel
  import opened Entries

  /** The entry cannot open the packet and is left as it is. */
  predicate Refuses(p: PeerState, payload: Wire, now: nat) {
    Decrypt(p, payload, now) == Outcome(p, None, [])
  }

  predicate OthersRefuse(ps: Peers, i: nat, payload: Wire, now: nat) {
    forall j | 0 <= j < |ps| && j != i :: Refuses(ps[j], payload, now)
  }

  /** No earlier entry has the address that this one has and the packet comes from. */
  predicate Unshadowed(ps: Peers, i: nat, addr: Endpoint)
    requires i < |ps|
  {
    ps[i].endpoint == Some(addr) ==> forall j | 0 <= j < i :: ps[j].endpoint != Some(addr)
  }

  /** The entry after it was offered a packet from `addr`. */
  function Offered(p: PeerState, payload: Wire, addr: Endpoint, now: nat): PeerState {
    var o := Decrypt(p, payload, now);
    if Admitted(o) then o.peer.(endpoint := Some(addr), lastDirectRx := now) else o.peer
  }

  /** What the entry has for TUN when it is offered the packet. */
  function Readable(p: PeerState, payload: Wire, now: nat): Option<Bytes> {
    var o := Decrypt(p, payload, now);
    if Admitted(o) then o.result else None
  }

  lemma {:induction false} TrialReaches(c: Config, ps: Peers, k: nat, i: nat, payload: Wire, addr: Endpoint, now: nat)
    requires k <= |ps| && i < |ps| && OthersRefuse(ps, i, payload, now)
    ensures TrialDecrypt(c, ps, k, payload, addr, now).peers
         == if k <= i && ps[i].endpoint != Some(addr) then ps[i := Offered(ps[i], payload, addr, now)] else ps
    ensures TrialDecrypt(c, ps, k, payload, addr, now).tun
         == if k <= i && ps[i].endpoint != Some(addr) then Readable(ps[i], payload, now) else None
    decreases |ps| - k
  {
    hide Decrypt, Admitted;
    if k < |ps| && ps[k].endpoint == Some(addr) {
      TrialReaches(c, ps, k + 1, i, payload, addr, now);
    } else if k < |ps| {
      var o := Decrypt(ps[k], payload, now);
      if k != i {
        assert Refuses(ps[k], payload, now) && ps[k := o.peer] == ps;
        RefusedIsNotAdmitted(ps[k], payload, now);
        TrialReaches(c, ps, k + 1, i, payload, addr, now);
      } else if !Admitted(o) {
        TrialReaches(c, ps[k := o.peer], k + 1, i, payload, addr, now);
      }
    }
  }

  lemma RefusedIsNotAdmitted(p: PeerState, payload: Wire, now: nat)
    requires Refuses(p, payload, now)
    ensures !Admitted(Decrypt(p, payload, now))
  {
  }

  /**
   * A data packet that only entry `i` can open is offered to it exactly if the entry is not shadowed;
   * a shadowed entry never sees the packet, and nothing changes.
   */
  lemma DataReachesUnshadowed(c: Config, ps: Peers, i: nat, payload: Wire, addr: Endpoint, now: nat)
    requires i < |ps| && OthersRefuse(ps, i, payload, now)
    ensures UdpData(c, ps, payload, addr, now).peers
         == if Unshadowed(ps, i, addr) then ps[i := Offered(ps[i], payload, addr, now)] else ps
    ensures UdpData(c, ps, payload, addr, now).tun
         == if Unshadowed(ps, i, addr) then Readable(ps[i], payload, now) else None
  {
    hide Decrypt, Admitted, TrialDecrypt;
    var found := FindEndpoint(ps, addr);
    TrialReaches(c, ps, 0, i, payload, addr, now);
    if found.Some? {
      var j := found.value;
      var o := Decrypt(ps[j], payload, now);
      if j != i {
        assert Refuses(ps[j], payload, now) && ps[j := o.peer] == ps;
        RefusedIsNotAdmitted(ps[j], payload, now);
      } else {
        DecryptKeepsEndpoint(ps[i], payload, now);
        TrialReaches(c, ps[i := o.peer], 0, i, payload, addr, now);
        assert Admitted(o) ==> o.peer.(endpoint := Some(addr), lastDirectRx := now) == o.peer.(lastDirectRx := now);
      }
    }
  }

  /** The ciphertext is a transport message of this end of a session. */
  predicate IsSealed(ciphertext: Wire, sealer: SessionKey) {
    match Recognize(ciphertext)
    case Some(Sealed(end, _, _)) => end == sealer
    case _ => false
  }

  /** Neither session of the entry is this one. */
  predicate Deaf(p: PeerState, end: SessionKey) {
    && (p.active.Some? ==> p.active.value.end != end)
    && (p.previous.Some? ==> p.previous.value.end != end)
  }

  lemma DeafRefuses(p: PeerState, end: SessionKey, payload: Wire, now: nat)
    requires Deaf(p, end)
    requires |payload| >= 8 && IsSealed(payload[8..], end.OtherEnd())
    ensures Refuses(p, payload, now)
  {
    hide Recognize, NonceOf, Accepts, Unpad;
  }

  /** A relayed data packet is offered to the first entry of the sender's key. */
  lemma RelayedReachesFirstOfKey(c: Config, ps: Peers, i: nat, from: Key, payload: Wire, now: nat)
    requires i < |ps| && ps[i].pubkey == from && forall j | 0 <= j < i :: ps[j].pubkey != from
    ensures RelayData(c, ps, from, payload, now).peers == ps[i := Decrypt(ps[i], payload, now).peer]
    ensures RelayData(c, ps, from, payload, now).tun == Readable(ps[i], payload, now)
  {
    hide Decrypt, Admitted;
  }

  /** A datagram with the data byte is a data packet, if the other types have other bytes. */
  lemma DataIsDispatched(c: Config, ps: Peers, payload: Wire, addr: Endpoint, from: Key, inp: RecvInput, now: nat)
    requires c.magic.data != c.magic.handshakeInit && c.magic.data != c.magic.handshakeResp
    ensures var datagram := [Known(c.magic.data)] + payload;
            && UdpReceive(c, ps, datagram, addr, inp, now) == UdpData(c, ps, payload, addr, now)
            && RelayReceive(c, ps, from, datagram, inp, now) == RelayData(c, ps, from, payload, now)
  {
    hide UdpInit, UdpResp, UdpData, RelayInit, RelayResp, RelayData;
    assert ([Known(c.magic.data)] + payload)[1..] == payload;
  }
}
