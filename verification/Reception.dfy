/** What handshake messages and plain bytes that arrive do to a table of peers, and what is sent back. */
module Reception {
  import opened Wrappers
  import opened Words
  import opened Noise
  import opened Replay
  import opened PeerModel
  import opened DaemonModel
  import opened Arrival
  import opened Ends
  import opened Delivery

  function Offer(hs: nat, from: Key, to: Key, c: Config, padding: Bytes): Wire {
    [Known(c.magic.handshakeInit)] + Octets(Init(hs, from, to)) + Bytewise(padding)
  }

  function Reply(hs: nat, id: nat, c: Config, padding: Bytes): Wire {
    [Known(c.magic.handshakeResp)] + Octets(Resp(hs, id)) + Bytewise(padding)
  }

  /** A session of its own, with nothing sent or heard in it, in place of the one before. */
  predicate Renewed(p: PeerState, q: PeerState, end: SessionKey, now: nat) {
    && q.active == Some(SessionState(end, 0, now, 0, 0, {}))
    && q.previous == (if p.active.Some? then p.active else p.previous)
    && q.lastRx == now && q.lastTx == now
    && q.pubkey == p.pubkey && q.allowedIps == p.allowedIps && q.magic == p.magic
  }

  /** Only entry `i` is touched, and nothing is for TUN. */
  ghost predicate OnlyTouches(ps: Peers, s: Step, i: nat)
    requires i < |ps|
  {
    |s.peers| == |ps| && (forall j | 0 <= j < |ps| && j != i :: s.peers[j] == ps[j]) && s.tun.None?
  }

  lemma OfferIsRead(hs: nat, from: Key, c: Config, padding: Bytes)
    ensures var w := Offer(hs, from, c.local, c, padding);
            w != [] && Values(w)[0] == c.magic.handshakeInit
            && ReadInit(c.local, Cut(w[1..], INIT_LEN)) == Some((hs, from))
  {
    hide Octets, Bytewise, Recognize;
    assert Offer(hs, from, c.local, c, padding)[1..] == Octets(Init(hs, from, c.local)) + Bytewise(padding);
    CutDropsPadding(Init(hs, from, c.local), padding);
    RecognizesItsOwnOctets(Init(hs, from, c.local));
  }

  /**
   * A first message over UDP is answered at the address it came from, and the entry of its sender has
   * that address from then on: for 10 s, or as long as there is no relay, packets go there.
   */
  lemma OfferTeachesAddress(c: Config, ps: Peers, i: nat, hs: nat, padding: Bytes, addr: Endpoint, inp: RecvInput,
                            now: nat, later: nat)
    requires i < |ps| && FirstOfKey(ps, i)
    ensures var s := UdpReceive(c, ps, Offer(hs, ps[i].pubkey, c.local, c, padding), addr, inp, now);
            && OnlyTouches(ps, s, i) && s.peers[i].endpoint == Some(addr) && s.peers[i].lastDirectRx == now
            && (if inp.ok then s.actions == [(Reply(hs, inp.id, c, inp.padding), Udp(addr))]
                               && Renewed(ps[i], s.peers[i], SessionKey(inp.id, Responder), now)
                else s.actions == [] && s.peers[i].active == ps[i].active && s.peers[i].previous == ps[i].previous)
            && (c.hasRelay ==> now <= later < now + 10_000 ==>
                    DetermineDest(s.peers[i], c.hasRelay, later) == Some(Udp(addr)))
            && (!c.hasRelay ==> DetermineDest(s.peers[i], c.hasRelay, later) == Some(Udp(addr)))
  {
    hide Octets, Bytewise, ReadInit, UdpResp, UdpData;
    var w := Offer(hs, ps[i].pubkey, c.local, c, padding);
    OfferIsRead(hs, ps[i].pubkey, c, padding);
    assert FindKey(ps, ps[i].pubkey) == Some(i);
  }

  /** Over the relay it is answered over the relay, if its key is the one the relay names, and teaches no address. */
  lemma RelayedOfferTeachesNothing(c: Config, ps: Peers, i: nat, hs: nat, padding: Bytes, from: Key, inp: RecvInput,
                                   now: nat)
    requires i < |ps| && FirstOfKey(ps, i)
    ensures var s := RelayReceive(c, ps, from, Offer(hs, ps[i].pubkey, c.local, c, padding), inp, now);
            if from == ps[i].pubkey && inp.ok then
              && OnlyTouches(ps, s, i) && s.actions == [(Reply(hs, inp.id, c, inp.padding), Relay(from))]
              && Renewed(ps[i], s.peers[i], SessionKey(inp.id, Responder), now)
              && s.peers[i].endpoint == ps[i].endpoint && s.peers[i].lastDirectRx == ps[i].lastDirectRx
            else s == Step(ps, [], None, [])
  {
    hide Octets, Bytewise, ReadInit, RelayResp, RelayData;
    OfferIsRead(hs, ps[i].pubkey, c, padding);
    assert FindKey(ps, ps[i].pubkey) == Some(i);
  }

  /** What an entry makes of a response: a new session if it is the one it waits for, and nothing otherwise. */
  ghost predicate Responded(p: PeerState, q: PeerState, hs: nat, id: nat, ok: bool, now: nat) {
    if p.handshake != Some(hs) then q == p
    else if !ok then q == p.(handshake := None)
    else Renewed(p, q, SessionKey(id, Initiator), now) && q.handshake.None? && q.attempt.None? && q.packet.None?
         && q.endpoint == p.endpoint && q.lastDirectRx == p.lastDirectRx
  }

  lemma JoinResponds(p: PeerState, hs: nat, id: nat, padding: Bytes, now: nat, ok: bool)
    ensures var o := Join(p, Octets(Resp(hs, id)) + Bytewise(padding), now, ok);
            Responded(p, o.peer, hs, id, ok, now)
  {
    hide Octets, Bytewise, Recognize;
    CutDropsPadding(Resp(hs, id), padding);
    RecognizesItsOwnOctets(Resp(hs, id));
  }

  /** A response is for the first entry with its address, or with the key the relay names, and for no other. */
  lemma ReplyIsJoined(c: Config, ps: Peers, hs: nat, id: nat, padding: Bytes, addr: Endpoint, from: Key, inp: RecvInput,
                      now: nat)
    requires BytesDiffer(c.magic) && forall p | p in ps :: p.magic == c.magic
    ensures var s := UdpReceive(c, ps, Reply(hs, id, c, padding), addr, inp, now);
            if i: nat :| i < |ps| && ps[i].endpoint == Some(addr) && Unshadowed(ps, i, addr) then
                         && OnlyTouches(ps, s, i) && s.actions == [] && s.peers[i].lastDirectRx == now
                         && Responded(ps[i], s.peers[i].(lastDirectRx := ps[i].lastDirectRx), hs, id, inp.ok, now)
            else s == Step(ps, [], None, [])
    ensures var s := RelayReceive(c, ps, from, Reply(hs, id, c, padding), inp, now);
            if i: nat :| i < |ps| && ps[i].pubkey == from && FirstOfKey(ps, i) then
                         && OnlyTouches(ps, s, i) && s.actions == []
                         && Responded(ps[i], s.peers[i], hs, id, inp.ok, now)
            else s == Step(ps, [], None, [])
  {
    hide Octets, Bytewise, Join, Responded, UdpInit, UdpData, RelayInit, RelayData;
    var w := Reply(hs, id, c, padding);
    assert w[1..] == Octets(Resp(hs, id)) + Bytewise(padding);
    var found, named := FindEndpoint(ps, addr), FindKey(ps, from);
    if found.Some? {
      JoinResponds(ps[found.value], hs, id, padding, now, inp.ok);
      RespondedElsewhere(ps[found.value], hs, id, padding, now, inp.ok);
    }
    if named.Some? {
      JoinResponds(ps[named.value], hs, id, padding, now, inp.ok);
    }
  }

  lemma RespondedElsewhere(p: PeerState, hs: nat, id: nat, padding: Bytes, now: nat, ok: bool)
    ensures var q := Join(p, Octets(Resp(hs, id)) + Bytewise(padding), now, ok).peer;
            q.(lastDirectRx := now).(lastDirectRx := p.lastDirectRx) == q
  {
    hide Octets, Bytewise, Recognize;
  }

  /** What `handle_handshake_packet` makes of a first message: an answer to the peer of its key, and to nobody else. */
  lemma OfferIsHandled(p: PeerState, local: Key, hs: nat, from: Key, padding: Bytes, id: nat, pad: Bytes, now: nat,
                       ok: bool)
    ensures var payload := Octets(Init(hs, from, local)) + Bytewise(padding);
            var o := HandleHandshake(p, local, p.magic.handshakeInit, payload, id, pad, now, ok);
            if from == p.pubkey && ok then
              && o.result == Some([Known(p.magic.handshakeResp)] + Octets(Resp(hs, id)) + Bytewise(pad))
              && Renewed(p, o.peer, SessionKey(id, Responder), now)
              && o.peer.endpoint == p.endpoint && o.peer.lastDirectRx == p.lastDirectRx
              && o.peer.handshake == p.handshake && o.peer.attempt == p.attempt && o.peer.packet == p.packet
            else o.result.None? && o.peer == p
  {
    hide Octets, Bytewise, Recognize;
    CutDropsPadding(Init(hs, from, local), padding);
    RecognizesItsOwnOctets(Init(hs, from, local));
  }

  // ------------------------------------------------------------- what is ignored

  /** A packet that an entry does not open leaves it as it is. */
  lemma UnopenedChangesNothing(p: PeerState, payload: Wire, now: nat)
    requires Decrypt(p, payload, now).result.None?
    ensures Decrypt(p, payload, now) == Outcome(p, None, [])
  {
    hide Open, NonceOf, Accepts, Unpad;
  }

  /** Bytes that nobody's cipher made. */
  predicate Plain(w: Wire) {
    forall i | 0 <= i < |w| :: w[i].Known?
  }

  lemma PlainIsUnreadable(w: Wire, p: PeerState, local: Key, hs: nat, n: nat, now: nat)
    requires Plain(w)
    ensures ReadInit(local, Cut(w, n)).None? && ReadResp(hs, Cut(w, n)).None?
    ensures Decrypt(p, w, now) == Outcome(p, None, [])
  {
    hide NonceOf, Accepts, Unpad;
    assert |w| >= 8 ==> Plain(w[8..]);
    assert Plain(Cut(w, n));
  }

  lemma {:induction false} PlainFailsTrial(c: Config, ps: Peers, k: nat, w: Wire, addr: Endpoint, now: nat)
    requires Plain(w) && k <= |ps|
    ensures TrialDecrypt(c, ps, k, w, addr, now) == Step(ps, [], None, [])
    decreases |ps| - k
  {
    hide Decrypt, Admitted, Plain;
    if k < |ps| {
      PlainIsUnreadable(w, ps[k], c.local, 0, 0, now);
      PlainIsNotAdmitted(ps[k], w, now);
      assert ps[k := ps[k]] == ps;
      PlainFailsTrial(c, ps, k + 1, w, addr, now);
    }
  }

  lemma PlainIsNotAdmitted(p: PeerState, w: Wire, now: nat)
    requires Decrypt(p, w, now) == Outcome(p, None, [])
    ensures !Admitted(Decrypt(p, w, now)) && Tag([], p.pubkey, Decrypt(p, w, now).events) == []
  {
  }

  lemma PlainIsHandled(p: PeerState, c: Config, w: Wire, inp: RecvInput, now: nat)
    requires Plain(w)
    ensures HandleHandshake(p, c.local, c.magic.handshakeResp, w, inp.id, inp.padding, now, inp.ok)
         == Outcome(p, None, [])
    ensures Decrypt(p, w, now) == Outcome(p, None, []) && !Admitted(Decrypt(p, w, now))
  {
    hide Decrypt, ReadInit, ReadResp, Plain;
    PlainIsUnreadable(w, p, c.local, if p.handshake.Some? then p.handshake.value else 0, RESP_LEN, now);
    PlainIsUnreadable(w, p, c.local, 0, INIT_LEN, now);
  }

  lemma TailIsPlain(w: Wire)
    requires Plain(w) && w != []
    ensures Plain(w[1..]) && w[0] == Known(Values(w)[0])
  {
  }

  lemma PlainOfEachType(c: Config, ps: Peers, w: Wire, addr: Endpoint, from: Key, inp: RecvInput, now: nat)
    requires Plain(w)
    ensures UdpInit(c, ps, w, addr, inp, now) == RelayInit(c, ps, from, w, inp, now) == Step(ps, [], None, [])
    ensures UdpData(c, ps, w, addr, now) == RelayData(c, ps, from, w, now) == Step(ps, [], None, [])
    ensures RelayResp(c, ps, from, w, inp, now) == Step(ps, [], None, [])
    ensures var found := FindEndpoint(ps, addr);
            UdpResp(c, ps, w, addr, inp, now)
            == Step(if found.Some? then ps[found.value := ps[found.value].(lastDirectRx := now)] else ps, [], None, [])
  {
    hide Decrypt, Admitted, TrialDecrypt, HandleHandshake, ReadInit, ReadResp, Plain;
    var found, named := FindEndpoint(ps, addr), FindKey(ps, from);
    PlainFailsTrial(c, ps, 0, w, addr, now);
    PlainIsUnreadable(w, NewPeer([], None, [], c.magic, 0), c.local, 0, INIT_LEN, now);
    if found.Some? {
      PlainIsHandled(ps[found.value], c, w, inp, now);
      assert ps[found.value := ps[found.value]] == ps && Tag(c.local, ps[found.value].pubkey, []) == [];
    }
    if named.Some? {
      PlainIsHandled(ps[named.value], c, w, inp, now);
      assert ps[named.value := ps[named.value]] == ps && Tag(c.local, ps[named.value].pubkey, []) == [];
    }
  }

  /**
   * Plain bytes change nothing and are answered by nothing, with one exception: a datagram with the
   * response byte from a peer's endpoint counts as having heard from it directly.
   */
  lemma PlainBytesAreIgnored(c: Config, ps: Peers, w: Wire, addr: Endpoint, from: Key, inp: RecvInput, now: nat)
    requires Plain(w) && BytesDiffer(c.magic)
    ensures RelayReceive(c, ps, from, w, inp, now) == Step(ps, [], None, [])
    ensures var s := UdpReceive(c, ps, w, addr, inp, now);
            if i: nat :| i < |ps| && w != [] && w[0] == Known(c.magic.handshakeResp) && ps[i].endpoint == Some(addr)
                         && Unshadowed(ps, i, addr)
                         then s == Step(ps[i := ps[i].(lastDirectRx := now)], [], None, [])
            else s == Step(ps, [], None, [])
  {
    hide UdpInit, UdpResp, UdpData, RelayInit, RelayResp, RelayData, Plain;
    if w != [] {
      TailIsPlain(w);
      PlainOfEachType(c, ps, w[1..], addr, from, inp, now);
    }
  }
}
