/** `ActiveSession` and `Peer` as the objects they are; every method acts as PeerModel says. */
module PeerObjects {
  import opened Wrappers
  import opened Words
  import opened Packet
  import opened Noise
  import opened Replay
  import opened Session
  import opened PeerModel
  import opened DaemonModel

  class ActiveSession {
    const state: SessionKey
    const establishedAt: nat
    const replay: ReplayWindow
    var txNonce: u64
    var txBytes: u64
    var rxBytes: u64

    ghost function Repr(): set<object> {
      {this, replay, replay.bitmap}
    }

    ghost predicate Valid()
      reads this, replay, replay.bitmap
    {
      replay.Valid()
    }

    ghost function View(): SessionState
      reads this, replay
    {
      SessionState(state, txNonce, establishedAt, txBytes, rxBytes, replay.Seen)
    }

    constructor (state: SessionKey, now: nat)
      ensures Valid() && fresh(Repr())
      ensures View() == SessionState(state, 0, now, 0, 0, {})
    {
      this.state := state;
      this.establishedAt := now;
      this.replay := new ReplayWindow();
      txNonce, txBytes, rxBytes := 0, 0, 0;
    }

    /** The common part of both branches of `decrypt_packet`: a packet that opened under this session. */
    method Accept(nonce: u64, size: nat) returns (ok: bool)
      requires Valid()
      modifies Repr()
      ensures Valid() && ok == Accepts(old(View().window), nonce)
      ensures View() == if ok then Receive(old(View()), nonce, size) else old(View())
    {
      ok := replay.CheckAndUpdate(nonce);
      if ok {
        rxBytes := (rxBytes + size) % U64_LIMIT;
      }
    }
  }

  class Peer {
    const pubkey: Key
    var endpoint: Option<Endpoint>
    var allowedIps: seq<Subnet>
    var active: ActiveSession?
    var previous: ActiveSession?
    var handshake: Option<nat>
    var lastHandshakeAttempt: Option<nat>
    var lastHandshakePacket: Option<Wire>
    var lastRx: nat
    var lastTx: nat
    var lastDirectRx: nat
    var magic: Magic

    ghost function Repr(): (r: set<object>)
      reads this
      ensures this in r
    {
      {this} + (if active == null then {} else active.Repr()) + (if previous == null then {} else previous.Repr())
    }

    ghost predicate Valid()
      reads this, Repr()
    {
      && (active != null ==> active.Valid() && this !in active.Repr())
      && (previous != null ==> previous.Valid() && this !in previous.Repr())
      && (active != null && previous != null ==> active.Repr() !! previous.Repr())
    }

    ghost function View(): PeerState
      reads this, Repr()
    {
      PeerState(pubkey, endpoint, allowedIps,
                if active == null then None else Some(active.View()),
                if previous == null then None else Some(previous.View()),
                handshake, lastHandshakeAttempt, lastHandshakePacket, lastRx, lastTx, lastDirectRx, magic)
    }

    constructor (pubkey: Key, endpoint: Option<Endpoint>, allowedIps: seq<Subnet>, magic: Magic, now: nat)
      ensures Valid() && fresh(Repr())
      ensures View() == NewPeer(pubkey, endpoint, allowedIps, magic, now)
    {
      this.pubkey := pubkey;
      this.endpoint := endpoint;
      this.allowedIps := allowedIps;
      this.magic := magic;
      active, previous := null, null;
      handshake, lastHandshakeAttempt, lastHandshakePacket := None, None, None;
      lastRx, lastTx, lastDirectRx := now, now, now;
    }

    /** Record where the peer was heard from directly. */
    method HeardFrom(endpoint: Option<Endpoint>, now: nat)
      requires Valid()
      modifies this
      ensures Valid() && Repr() == old(Repr())
      ensures View() == old(View()).(endpoint := endpoint, lastDirectRx := now)
    {
      this.endpoint := endpoint;
      lastDirectRx := now;
    }

    /** Take over endpoint and addresses from the coordinator; sessions and timers stay. */
    method Advertise(endpoint: Option<Endpoint>, allowedIps: seq<Subnet>)
      requires Valid()
      modifies this
      ensures Valid() && Repr() == old(Repr())
      ensures View() == old(View()).(endpoint := endpoint, allowedIps := allowedIps)
    {
      this.endpoint := endpoint;
      this.allowedIps := allowedIps;
    }

    method DetermineDest(hasRelay: bool, now: nat) returns (dest: Option<OutboundDest>)
      requires Valid()
      ensures dest == PeerModel.DetermineDest(View(), hasRelay, now)
      ensures dest.Some? <==> endpoint.Some? || hasRelay
      ensures dest == Some(Relay(pubkey)) <==> hasRelay && (endpoint.Some? ==> lastDirectRx + 10_000 <= now)
      ensures dest.Some? && dest.value.Udp? ==> Some(dest.value.addr) == endpoint
    {
      if hasRelay && (endpoint.None? || Secs(now, lastDirectRx) >= 10) {
        dest := Some(Relay(pubkey));
      } else if endpoint.Some? {
        dest := Some(Udp(endpoint.value));
      } else {
        dest := None;
      }
    }

    method InitiateHandshake(local: Key, hs: nat, padding: Bytes, now: nat, ok: bool) returns (packet: Option<Wire>)
      requires Valid()
      modifies this
      ensures Valid() && Repr() == old(Repr())
      ensures var o := Initiate(old(View()), local, hs, padding, now, ok); View() == o.peer && packet == o.result
    {
      if !ok {
        return None;
      }
      var bytes := [Known(magic.handshakeInit)] + Octets(Init(hs, local, pubkey)) + Bytewise(padding);
      handshake := Some(hs);
      lastHandshakeAttempt := Some(now);
      lastHandshakePacket := Some(bytes);
      lastTx := now;
      packet := Some(bytes);
    }

    /** A completed handshake replaces the active session, which becomes the previous one. */
    method Establish(end: SessionKey, now: nat)
      requires Valid()
      modifies this
      ensures Valid() && fresh(Repr() - old(Repr()))
      ensures View() == PeerModel.Establish(old(View()), end, now)
    {
      hide ReplayWindow.Valid;
      var session := new ActiveSession(end, now);
      if active != null {
        previous := active;
      }
      active := session;
      lastRx := now;
      lastTx := now;
    }

    method AnswerHandshake(magic: Magic, hs: nat, id: nat, padding: Bytes, now: nat, ok: bool)
      returns (packet: Option<Wire>)
      requires Valid()
      modifies this
      ensures Valid() && fresh(Repr() - old(Repr()))
      ensures var o := Answer(old(View()), magic, hs, id, padding, now, ok); View() == o.peer && packet == o.result
    {
      if !ok {
        return None;
      }
      Establish(SessionKey(id, Responder), now);
      packet := Some([Known(magic.handshakeResp)] + Octets(Resp(hs, id)) + Bytewise(padding));
    }

    /** The response branch. A handshake whose message does not fit stays in place. */
    method JoinHandshake(payload: Wire, now: nat, ok: bool)
      requires Valid()
      modifies this
      ensures Valid() && fresh(Repr() - old(Repr()))
      ensures View() == Join(old(View()), payload, now, ok).peer
    {
      hide PeerModel.Establish, ReadResp, Cut;
      if handshake.Some? {
        var read := ReadResp(handshake.value, Cut(payload, RESP_LEN));
        if read.None? {
          return;
        }
        if ok {
          CompleteJoin(read.value, now);
        } else {
          handshake := None;
        }
      }
    }

    method CompleteJoin(id: nat, now: nat)
      requires Valid()
      modifies this
      ensures Valid() && fresh(Repr() - old(Repr()))
      ensures View() == PeerModel.Establish(old(View()), SessionKey(id, Initiator), now)
                        .(handshake := None, attempt := None, packet := None)
    {
      hide PeerModel.Establish, Valid, View;
      Establish(SessionKey(id, Initiator), now);
      ForgetHandshake();
    }

    method ForgetHandshake()
      requires Valid()
      modifies this
      ensures Valid() && Repr() == old(Repr())
      ensures View() == old(View()).(handshake := None, attempt := None, packet := None)
    {
      handshake, lastHandshakeAttempt, lastHandshakePacket := None, None, None;
    }

    method HandleHandshakePacket(local: Key, packetType: u8, payload: Wire, id: nat, padding: Bytes, now: nat, ok: bool)
      returns (packet: Option<Wire>)
      requires Valid()
      modifies this
      ensures Valid() && fresh(Repr() - old(Repr()))
      ensures var o := HandleHandshake(old(View()), local, packetType, payload, id, padding, now, ok);
              View() == o.peer && packet == o.result
    {
      hide Answer, Join;
      JoinReturnsNothing(View(), payload, now, ok);
      packet := None;
      if packetType == magic.handshakeInit {
        var read := ReadInit(local, Cut(payload, INIT_LEN));
        if read.None? || read.value.1 != pubkey {
          return;
        }
        packet := AnswerHandshake(magic, read.value.0, id, padding, now, ok);
      } else if packetType == magic.handshakeResp {
        JoinHandshake(payload, now, ok);
      }
    }

    method EncryptPacket(payload: Bytes, padding: Bytes, now: nat, ok: bool) returns (packet: Option<Wire>)
      requires Valid()
      modifies Repr()
      ensures Valid() && Repr() == old(Repr())
      ensures var o := Encrypt(old(View()), payload, padding, now, ok); View() == o.peer && packet == o.result
    {
      if active == null {
        return None;
      }
      var nonce := active.txNonce;
      active.txNonce := (active.txNonce + 1) % U64_LIMIT;
      active.txBytes := (active.txBytes + |payload|) % U64_LIMIT;
      var padded := payload;
      if payload != [] && ParseIpv4TotalLength(payload).Some? {
        padded := padded + padding;
      }
      if !ok {
        return None;
      }
      lastTx := now;
      packet := Some([Known(magic.data)] + Bytewise(ToBigEndian(nonce, 8))
                     + Octets(Sealed(active.state, nonce, padded)));
    }

    method DecryptPacket(payload: Wire, now: nat) returns (plaintext: Option<Bytes>)
      requires Valid()
      modifies Repr()
      ensures Valid() && Repr() == old(Repr())
      ensures var o := Decrypt(old(View()), payload, now); View() == o.peer && plaintext == o.result
    {
      if |payload| < 8 {
        return None;
      }
      var nonce := NonceOf(payload);
      var ciphertext := payload[8..];
      if |ciphertext| < TAG_LEN {
        return None;
      }
      if active != null {
        var plain := Open(active.state, nonce, ciphertext);
        if plain.Some? {
          var ok := active.Accept(nonce, |payload|);
          if !ok {
            return None;
          }
          lastRx := now;
          return Some(Unpad(plain.value));
        }
      }
      if previous != null && Secs(now, previous.establishedAt) < 15 {
        var plain := Open(previous.state, nonce, ciphertext);
        if plain.Some? {
          var ok := previous.Accept(nonce, |payload|);
          if !ok {
            return None;
          }
          lastRx := now;
          return Some(Unpad(plain.value));
        }
      }
      plaintext := None;
    }

    method CheckRotation(now: nat) returns (due: bool)
      requires Valid()
      modifies this
      ensures Valid() && Repr() <= old(Repr())
      ensures View() == ExpirePrevious(old(View()), now) && due == RotationDue(View(), now)
    {
      if previous != null && Secs(now, previous.establishedAt) >= 15 {
        previous := null;
      }
      if active == null {
        return false;
      }
      due := Secs(now, active.establishedAt) > 120 || active.txBytes > 1_000_000_000;
    }

    /** Queue a packet for this peer, if it can be reached. */
    method Enqueue(packet: Option<Wire>, c: Config, now: nat) returns (actions: seq<Action>)
      requires Valid()
      ensures Valid() && Repr() == old(Repr()) && View() == old(View())
      ensures forall o: Outcome<Wire> | o.peer == View() && o.result == packet :: actions == Queue(c, o, now)
    {
      actions := [];
      if packet.Some? {
        var dest := DetermineDest(c.hasRelay, now);
        if dest.Some? {
          actions := [(packet.value, dest.value)];
        }
      }
    }

    /** A packet from TUN that is routed to this peer; without a session it starts a handshake instead. */
    method Send(c: Config, packet: Bytes, inp: SendInput, now: nat) returns (actions: seq<Action>)
      requires Valid()
      modifies Repr()
      ensures Valid() && Repr() == old(Repr())
      ensures var o := SendVia(c, old(View()), packet, inp, now); View() == o.peer && actions == Queue(c, o, now)
    {
      hide Encrypt, Initiate, Queue, Valid, Repr;
      var sealed := EncryptPacket(packet, inp.padding, now, inp.encryptOk);
      if sealed.None? && active == null && handshake.None? {
        sealed := InitiateHandshake(c.local, inp.hs, inp.padding, now, inp.initiateOk);
      }
      actions := Enqueue(sealed, c, now);
    }

    /** Timer step 1: expire the previous session and start a rekey when one is due. */
    method TickRotation(c: Config, inp: TickInput, now: nat) returns (actions: seq<Action>)
      requires Valid()
      modifies this
      ensures Valid() && Repr() <= old(Repr())
      ensures var o := Rotate(c, old(View()), inp, now); View() == o.peer && actions == Queue(c, o, now)
    {
      hide Initiate, ExpirePrevious, RotationDue, Queue, Valid, Repr;
      actions := [];
      QueueNothing(c, now);
      var due := CheckRotation(now);
      if due && handshake.None? {
        var packet := InitiateHandshake(c.local, inp.hs, inp.padding, now, inp.rotateOk);
        actions := Enqueue(packet, c, now);
      }
    }

    /** Timer step 2: give up on a peer not heard for 15 s. */
    method TickDeadSession(now: nat)
      requires Valid()
      modifies this
      ensures Valid() && Repr() <= old(Repr())
      ensures View() == ClearDead(old(View()), now)
    {
      if active != null && Secs(now, lastRx) >= 15 {
        active := null;
        previous := null;
      }
    }

    /** Timer step 3: an empty packet after 10 s without sending. */
    method TickKeepalive(c: Config, inp: TickInput, now: nat) returns (actions: seq<Action>)
      requires Valid()
      modifies Repr()
      ensures Valid() && Repr() == old(Repr())
      ensures var o := DaemonModel.Keepalive(old(View()), inp, now); View() == o.peer && actions == Queue(c, o, now)
    {
      actions := [];
      if active != null && Secs(now, lastTx) >= 10 {
        var packet := EncryptPacket([], [], now, inp.keepaliveOk);
        actions := Enqueue(packet, c, now);
      }
    }

    /** Timer step 4: start a handshake with no session, or repeat one 2 s old. */
    method TickRetry(c: Config, inp: TickInput, now: nat) returns (actions: seq<Action>)
      requires Valid()
      modifies this
      ensures Valid() && Repr() == old(Repr())
      ensures var o := Retry(c, old(View()), inp, now); View() == o.peer && actions == Queue(c, o, now)
    {
      actions := [];
      if active == null && handshake.None? && (endpoint.Some? || c.hasRelay) {
        var packet := InitiateHandshake(c.local, inp.hs, inp.padding, now, inp.initiateOk);
        actions := Enqueue(packet, c, now);
      } else if lastHandshakeAttempt.Some? && Secs(now, lastHandshakeAttempt.value) >= 2 {
        lastHandshakeAttempt := Some(now);
        actions := Enqueue(lastHandshakePacket, c, now);
      }
    }

    /** One peer's share of a timer tick (src/daemon.rs). */
    method OnTick(c: Config, inp: TickInput, now: nat) returns (actions: seq<Action>)
      requires Valid()
      modifies Repr()
      ensures Valid() && Repr() <= old(Repr())
      ensures var t := TickPeer(c, old(View()), inp, now); View() == t.peer && actions == t.actions
    {
      hide Rotate, ClearDead, DaemonModel.Keepalive, Retry, Queue;
      var rekey := TickRotation(c, inp, now);
      TickDeadSession(now);
      var keepalive := TickKeepalive(c, inp, now);
      var retry := TickRetry(c, inp, now);
      actions := rekey + keepalive + retry;
    }
  }

  lemma QueueNothing(c: Config, now: nat)
    ensures forall o: Outcome<Wire> | o.result.None? :: Queue(c, o, now) == []
  {
  }

  lemma JoinReturnsNothing(p: PeerState, payload: Wire, now: nat, ok: bool)
    ensures Join(p, payload, now, ok).result == None
  {
  }
}
