/**
 * Every operation of a peer, and so every step of every daemon task, keeps the session safety
 * of Protocol. `rest` stands for the secrets held by everyone else.
 */
module PeerSafety {
  import opened Wrappers
  import opened Words
  import opened Noise
  import opened PeerModel
  import opened DaemonModel
  import opened Protocol

  function Active(local: Key, p: PeerState): Pool {
    if p.active.Some? then multiset{Live(local, p.pubkey, p.active.value, true)} else multiset{}
  }

  function Previous(local: Key, p: PeerState): Pool {
    if p.previous.Some? then multiset{Live(local, p.pubkey, p.previous.value, false)} else multiset{}
  }

  function InFlight(local: Key, p: PeerState): Pool {
    if p.handshake.Some? then multiset{Pending(local, p.pubkey, p.handshake.value)} else multiset{}
  }

  function Secrets(local: Key, p: PeerState): Pool {
    Active(local, p) + Previous(local, p) + InFlight(local, p)
  }

  ghost predicate Safe(rest: Pool, local: Key, p: PeerState, h: History) {
    PoolInv(rest + Secrets(local, p), h)
  }

  function After(h: History, local: Key, p: PeerState, events: seq<Event>): History {
    h + Tag(local, p.pubkey, events)
  }

  lemma AfterNone(h: History, local: Key, p: PeerState)
    ensures After(h, local, p, []) == h
  {
  }

  lemma AfterOne(h: History, local: Key, p: PeerState, e: Event)
    ensures After(h, local, p, [e]) == h + [LogEntry(local, p.pubkey, e)]
  {
  }

  lemma AfterTwo(h: History, local: Key, p: PeerState, es: seq<Event>, fs: seq<Event>)
    ensures After(h, local, p, es + fs) == After(After(h, local, p, es), local, p, fs)
  {
  }

  // ------------------------------------------- a peer's three slots as pools

  lemma SlotStart(rest: Pool, a: Pool, b: Pool, c: Pool, h: History, local: Key, remote: Key, hs: nat)
    requires PoolInv(rest + (a + b + c), h) && !HandshakeUsed(h, hs)
    ensures PoolInv(rest + (a + b + multiset{Pending(local, remote, hs)}), h + [LogEntry(local, remote, Started(hs))])
  {
    DropSecrets(rest + (a + b + c), rest + (a + b), h);
    StartHandshake(rest + (a + b), h, local, remote, hs);
    assert rest + (a + b) + multiset{Pending(local, remote, hs)}
        == rest + (a + b + multiset{Pending(local, remote, hs)});
  }

  lemma SlotRetire(rest: Pool, b: Pool, c: Pool, h: History, local: Key, remote: Key, s: SessionState)
    requires PoolInv(rest + (multiset{Live(local, remote, s, true)} + b + c), h)
    ensures PoolInv(rest + (multiset{} + multiset{Live(local, remote, s, false)} + c),
                    h + [LogEntry(local, remote, Retired(s.end))])
  {
    var x, y := multiset{Live(local, remote, s, true)}, multiset{Live(local, remote, s, false)};
    var before := rest + (x + multiset{} + c);
    DropSecrets(rest + (x + b + c), before, h);
    Retire(before, h, local, remote, s);
    assert before - x + y == rest + (multiset{} + y + c);
  }

  lemma SlotAnswer(rest: Pool, b: Pool, c: Pool, h: History, local: Key, remote: Key, hs: nat, id: nat, now: nat)
    requires PoolInv(rest + (multiset{} + b + c), h)
    requires !SessionUsed(h, id) && Produced(h, Init(hs, remote, local))
    ensures PoolInv(rest + (multiset{Live(local, remote, NewSession(SessionKey(id, Responder), now), true)} + b + c),
                    h + [LogEntry(local, remote, Answered(hs, id))])
  {
    var x := multiset{Live(local, remote, NewSession(SessionKey(id, Responder), now), true)};
    var before := rest + (multiset{} + b + c);
    AnswerHandshake(before, h, local, remote, hs, id, now);
    assert before + x == rest + (x + b + c);
  }

  lemma SlotJoin(rest: Pool, b: Pool, h: History, local: Key, remote: Key, hs: nat, id: nat, now: nat)
    requires PoolInv(rest + (multiset{} + b + multiset{Pending(local, remote, hs)}), h)
    requires Produced(h, Resp(hs, id))
    ensures PoolInv(rest + (multiset{Live(local, remote, NewSession(SessionKey(id, Initiator), now), true)} + b
                            + multiset{}),
                    h + [LogEntry(local, remote, Joined(hs, id))])
  {
    var x := multiset{Live(local, remote, NewSession(SessionKey(id, Initiator), now), true)};
    var y := multiset{Pending(local, remote, hs)};
    var before := rest + (multiset{} + b + y);
    JoinHandshake(before, h, local, remote, hs, id, now);
    assert before - y + x == rest + (x + b + multiset{});
  }

  lemma SlotSeal(rest: Pool, b: Pool, c: Pool, h: History, local: Key, remote: Key, s: SessionState,
                 payload: Bytes, padding: Bytes, sent: bool)
    requires PoolInv(rest + (multiset{Live(local, remote, s, true)} + b + c), h)
    ensures PoolInv(rest + (multiset{Live(local, remote, Spend(s, |payload|), true)} + b + c),
                    h + [LogEntry(local, remote, Encrypted(s.end, s.txNonce, payload, Pad(payload, padding), sent))])
  {
    var x, y := multiset{Live(local, remote, s, true)}, multiset{Live(local, remote, Spend(s, |payload|), true)};
    var before := rest + (x + b + c);
    assert Carries(Pad(payload, padding), payload);
    Seal(before, h, local, remote, s, payload, Pad(payload, padding), sent);
    assert before - x + y == rest + (y + b + c);
  }

  lemma SlotDeliver(rest: Pool, x: Secret, a: Pool, c: Pool, h: History, nonce: u64, plain: Bytes, size: nat)
    requires x.Live? && PoolInv(rest + (a + multiset{x} + c), h)
    requires Produced(h, Sealed(x.session.end.OtherEnd(), nonce, plain)) && nonce !in x.session.window
    ensures PoolInv(rest + (a + multiset{x.(session := Receive(x.session, nonce, size))} + c),
                    h + [LogEntry(x.local, x.remote, Opened(x.session.end, nonce, plain, Unpad(plain)))])
  {
    var y := x.(session := Receive(x.session, nonce, size));
    var before := rest + (a + multiset{x} + c);
    Deliver(before, h, x, nonce, plain, size);
    assert before - multiset{x} + multiset{y} == rest + (a + multiset{y} + c);
  }

  lemma SlotDrop(rest: Pool, a: Pool, b: Pool, c: Pool, h: History)
    requires PoolInv(rest + (a + b + c), h)
    ensures PoolInv(rest + (a + b + multiset{}), h)
    ensures PoolInv(rest + (a + multiset{} + c), h)
  {
    DropSecrets(rest + (a + b + c), rest + (a + b + multiset{}), h);
    DropSecrets(rest + (a + b + c), rest + (a + multiset{} + c), h);
  }

  lemma Exchange(rest: Pool, a: Pool, b: Pool, c: Pool, h: History)
    requires PoolInv(rest + (a + b + c), h)
    ensures PoolInv(rest + (b + a + c), h)
  {
    assert rest + (a + b + c) == rest + (b + a + c);
  }

  // ----------------------------------------------------- operations of a peer

  lemma InitiateIsSafe(rest: Pool, local: Key, p: PeerState, h: History, hs: nat, padding: Bytes, now: nat, ok: bool)
    requires Safe(rest, local, p, h) && (ok ==> !HandshakeUsed(h, hs))
    ensures var o := Initiate(p, local, hs, padding, now, ok);
            Safe(rest, local, o.peer, After(h, local, p, o.events))
  {
    hide PoolInv;
    AfterNone(h, local, p);
    AfterOne(h, local, p, Started(hs));
    if ok {
      SlotStart(rest, Active(local, p), Previous(local, p), InFlight(local, p), h, local, p.pubkey, hs);
    }
  }

  /** The active session steps back; a session still in the previous slot is lost. */
  function StepBack(p: PeerState): PeerState {
    p.(previous := if p.active.Some? then p.active else p.previous, active := None)
  }

  lemma StepBackIsSafe(rest: Pool, local: Key, p: PeerState, h: History)
    requires Safe(rest, local, p, h)
    ensures Safe(rest, local, StepBack(p), After(h, local, p, RetireActive(p)))
  {
    hide PoolInv;
    AfterNone(h, local, p);
    if p.active.Some? {
      AfterOne(h, local, p, Retired(p.active.value.end));
      SlotRetire(rest, Previous(local, p), InFlight(local, p), h, local, p.pubkey, p.active.value);
    }
  }

  lemma AnswerIsSafe(rest: Pool, local: Key, p: PeerState, h: History, magic: Magic, hs: nat, id: nat,
                     padding: Bytes, now: nat, ok: bool)
    requires Safe(rest, local, p, h)
    requires ok ==> !SessionUsed(h, id) && Produced(h, Init(hs, p.pubkey, local))
    ensures var o := Answer(p, magic, hs, id, padding, now, ok);
            Safe(rest, local, o.peer, After(h, local, p, o.events))
  {
    hide PoolInv;
    AfterNone(h, local, p);
    if ok {
      StepBackIsSafe(rest, local, p, h);
      var q, g := StepBack(p), After(h, local, p, RetireActive(p));
      StillFresh(h, local, p, id, Init(hs, p.pubkey, local));
      AfterTwo(h, local, p, RetireActive(p), [Answered(hs, id)]);
      AfterOne(g, local, p, Answered(hs, id));
      SlotAnswer(rest, Previous(local, q), InFlight(local, q), g, local, p.pubkey, hs, id, now);
    }
  }

  /** Retiring a session neither uses up an id nor hides a message. */
  lemma StillFresh(h: History, local: Key, p: PeerState, id: nat, m: Msg)
    requires Produced(h, m)
    ensures Produced(After(h, local, p, RetireActive(p)), m)
    ensures !SessionUsed(h, id) ==> !SessionUsed(After(h, local, p, RetireActive(p)), id)
  {
    var e :| e in h && Yield(e) == Some(m);
    assert e in After(h, local, p, RetireActive(p));
  }

  lemma LoseHandshakeIsSafe(rest: Pool, local: Key, p: PeerState, h: History)
    requires Safe(rest, local, p, h)
    ensures Safe(rest, local, p.(handshake := None), h)
  {
    hide PoolInv;
    SlotDrop(rest, Active(local, p), Previous(local, p), InFlight(local, p), h);
  }

  lemma JoinIsSafe(rest: Pool, local: Key, p: PeerState, h: History, payload: Wire, now: nat, ok: bool)
    requires Safe(rest, local, p, h) && Derivable(h, payload)
    ensures var o := Join(p, payload, now, ok);
            Safe(rest, local, o.peer, After(h, local, p, o.events))
  {
    hide PoolInv;
    AfterNone(h, local, p);
    if p.handshake.Some? {
      var hs := p.handshake.value;
      var read := ReadResp(hs, Cut(payload, RESP_LEN));
      if read.Some? && !ok {
        LoseHandshakeIsSafe(rest, local, p, h);
      } else if read.Some? {
        RecognizedIsProduced(h, Cut(payload, RESP_LEN));
        CompleteJoinIsSafe(rest, local, p, h, read.value, now);
      }
    }
  }

  lemma CompleteJoinIsSafe(rest: Pool, local: Key, p: PeerState, h: History, id: nat, now: nat)
    requires Safe(rest, local, p, h) && p.handshake.Some?
    requires Produced(h, Resp(p.handshake.value, id))
    ensures Safe(rest, local,
                 Establish(p, SessionKey(id, Initiator), now).(handshake := None, attempt := None, packet := None),
                 After(h, local, p, RetireActive(p) + [Joined(p.handshake.value, id)]))
  {
    var hs := p.handshake.value;
    StepBackIsSafe(rest, local, p, h);
    var q, g := StepBack(p), After(h, local, p, RetireActive(p));
    StillFresh(h, local, p, id, Resp(hs, id));
    AfterTwo(h, local, p, RetireActive(p), [Joined(hs, id)]);
    AfterOne(g, local, p, Joined(hs, id));
    SlotJoin(rest, Previous(local, q), g, local, p.pubkey, hs, id, now);
  }

  lemma RecognizedIsProduced(h: History, w: Wire)
    requires Derivable(h, w) && Recognize(w).Some?
    ensures Produced(h, Recognize(w).value)
  {
    assert w[0].Part?;
  }

  lemma EncryptIsSafe(rest: Pool, local: Key, p: PeerState, h: History, payload: Bytes, padding: Bytes, now: nat,
                      ok: bool)
    requires Safe(rest, local, p, h)
    ensures var o := Encrypt(p, payload, padding, now, ok);
            Safe(rest, local, o.peer, After(h, local, p, o.events))
  {
    hide PoolInv;
    AfterNone(h, local, p);
    if p.active.Some? {
      var s := p.active.value;
      AfterOne(h, local, p, Encrypted(s.end, s.txNonce, payload, Pad(payload, padding), ok));
      SlotSeal(rest, Previous(local, p), InFlight(local, p), h, local, p.pubkey, s, payload, padding, ok);
    }
  }

  lemma DecryptIsSafe(rest: Pool, local: Key, p: PeerState, h: History, payload: Wire, now: nat)
    requires Safe(rest, local, p, h) && Derivable(h, payload)
    ensures var o := Decrypt(p, payload, now);
            Safe(rest, local, o.peer, After(h, local, p, o.events))
  {
    hide PoolInv;
    AfterNone(h, local, p);
    var o := Decrypt(p, payload, now);
    if o.result.Some? {
      var nonce, e := NonceOf(payload), o.events[0];
      AfterOne(h, local, p, e);
      OpenedIsProduced(h, e.end, nonce, payload[8..]);
      if p.active.Some? && Open(p.active.value.end, nonce, payload[8..]).Some? {
        var x := Live(local, p.pubkey, p.active.value, true);
        var y := x.(session := Receive(x.session, nonce, |payload|));
        Exchange(rest, multiset{x}, Previous(local, p), InFlight(local, p), h);
        SlotDeliver(rest, x, Previous(local, p), InFlight(local, p), h, nonce, e.plain, |payload|);
        Exchange(rest, Previous(local, p), multiset{y}, InFlight(local, p), h + [LogEntry(local, p.pubkey, e)]);
      } else {
        SlotDeliver(rest, Live(local, p.pubkey, p.previous.value, false), Active(local, p), InFlight(local, p),
                    h, nonce, e.plain, |payload|);
      }
    }
  }

  lemma OpenedIsProduced(h: History, end: SessionKey, nonce: u64, ciphertext: Wire)
    requires Derivable(h, ciphertext) && Open(end, nonce, ciphertext).Some?
    ensures Produced(h, Sealed(end.OtherEnd(), nonce, Open(end, nonce, ciphertext).value))
  {
    RecognizedIsProduced(h, ciphertext);
  }

  lemma ExpirePreviousIsSafe(rest: Pool, local: Key, p: PeerState, h: History, now: nat)
    requires Safe(rest, local, p, h)
    ensures Safe(rest, local, ExpirePrevious(p, now), h)
  {
    SlotDrop(rest, Active(local, p), Previous(local, p), InFlight(local, p), h);
  }

  lemma ClearDeadIsSafe(rest: Pool, local: Key, p: PeerState, h: History, now: nat)
    requires Safe(rest, local, p, h)
    ensures Safe(rest, local, ClearDead(p, now), After(h, local, p, Buried(p, now)))
  {
    hide PoolInv;
    AfterNone(h, local, p);
    if Dead(p, now) {
      StepBackIsSafe(rest, local, p, h);
      var q := StepBack(p);
      SlotDrop(rest, Active(local, q), Previous(local, q), InFlight(local, q), After(h, local, p, RetireActive(p)));
    }
  }

  lemma HandleHandshakeIsSafe(rest: Pool, local: Key, p: PeerState, h: History, packetType: u8, payload: Wire,
                              id: nat, padding: Bytes, now: nat, ok: bool)
    requires Safe(rest, local, p, h) && Derivable(h, payload) && !SessionUsed(h, id)
    ensures var o := HandleHandshake(p, local, packetType, payload, id, padding, now, ok);
            Safe(rest, local, o.peer, After(h, local, p, o.events))
  {
    hide PoolInv;
    AfterNone(h, local, p);
    if packetType == p.magic.handshakeInit {
      var read := ReadInit(local, Cut(payload, INIT_LEN));
      if read.Some? && read.value.1 == p.pubkey {
        RecognizedIsProduced(h, Cut(payload, INIT_LEN));
        AnswerIsSafe(rest, local, p, h, p.magic, read.value.0, id, padding, now, ok);
      }
    } else if packetType == p.magic.handshakeResp {
      JoinIsSafe(rest, local, p, h, payload, now, ok);
    }
  }

  // ------------------------------------------------------------------ a tick

  lemma RotateIsSafe(rest: Pool, c: Config, p: PeerState, h: History, inp: TickInput, now: nat)
    requires Safe(rest, c.local, p, h) && !HandshakeUsed(h, inp.hs)
    ensures var o := Rotate(c, p, inp, now);
            Safe(rest, c.local, o.peer, After(h, c.local, p, o.events))
  {
    AfterNone(h, c.local, p);
    ExpirePreviousIsSafe(rest, c.local, p, h, now);
    InitiateIsSafe(rest, c.local, ExpirePrevious(p, now), h, inp.hs, inp.padding, now, inp.rotateOk);
  }

  lemma KeepaliveIsSafe(rest: Pool, c: Config, p: PeerState, h: History, inp: TickInput, now: nat)
    requires Safe(rest, c.local, p, h)
    ensures var o := Keepalive(p, inp, now);
            Safe(rest, c.local, o.peer, After(h, c.local, p, o.events))
  {
    AfterNone(h, c.local, p);
    EncryptIsSafe(rest, c.local, p, h, [], [], now, inp.keepaliveOk);
  }

  lemma SlotsAreAllThatMatters(rest: Pool, local: Key, p: PeerState, q: PeerState, h: History)
    requires Safe(rest, local, p, h) && p.pubkey == q.pubkey
    requires p.active == q.active && p.previous == q.previous && p.handshake == q.handshake
    ensures Safe(rest, local, q, h)
  {
    hide PoolInv;
  }

  lemma RetryIsSafe(rest: Pool, c: Config, p: PeerState, h: History, inp: TickInput, now: nat)
    requires Safe(rest, c.local, p, h) && (p.handshake.None? ==> !HandshakeUsed(h, inp.hs))
    ensures var o := Retry(c, p, inp, now);
            Safe(rest, c.local, o.peer, After(h, c.local, p, o.events))
  {
    hide PoolInv, Secrets, Initiate;
    AfterNone(h, c.local, p);
    SlotsAreAllThatMatters(rest, c.local, p, p.(attempt := Some(now)), h);
    if p.handshake.None? {
      InitiateIsSafe(rest, c.local, p, h, inp.hs, inp.padding, now, inp.initiateOk);
    }
  }

  /** The only handshake an operation can start is the one it was given an id for. */
  lemma StartsAtMost(h: History, local: Key, p: PeerState, events: seq<Event>, hs: nat)
    requires !HandshakeUsed(h, hs)
    requires forall e | e in events && e.Started? :: e.hs != hs
    ensures !HandshakeUsed(After(h, local, p, events), hs)
  {
    forall e | e in After(h, local, p, events) && e.event.Started? ensures e.event.hs != hs {
      if e !in h {
        var i :| 0 <= i < |events| && e == Tag(local, p.pubkey, events)[i];
        assert events[i] in events;
      }
    }
  }

  lemma NothingStartedYet(c: Config, p: PeerState, inp: TickInput, now: nat)
    ensures var rotated := Rotate(c, p, inp, now);
            var kept := Keepalive(ClearDead(rotated.peer, now), inp, now);
            kept.peer.handshake.None? ==>
              forall e | e in rotated.events + Buried(rotated.peer, now) + kept.events :: !e.Started?
  {
  }

  lemma TickPeerIsSafe(rest: Pool, c: Config, p: PeerState, h: History, inp: TickInput, now: nat)
    requires Safe(rest, c.local, p, h) && !HandshakeUsed(h, inp.hs)
    ensures var t := TickPeer(c, p, inp, now);
            Safe(rest, c.local, t.peer, After(h, c.local, p, t.events))
  {
    hide PoolInv, Secrets, Rotate, ClearDead, Buried, Keepalive, Retry;
    var rotated := Rotate(c, p, inp, now);
    var cleared, buried := ClearDead(rotated.peer, now), Buried(rotated.peer, now);
    var kept := Keepalive(cleared, inp, now);
    var retried := Retry(c, kept.peer, inp, now);

    var h1 := After(h, c.local, p, rotated.events);
    RotateIsSafe(rest, c, p, h, inp, now);
    var h2 := After(h1, c.local, p, buried);
    ClearDeadIsSafe(rest, c.local, rotated.peer, h1, now);
    AfterTwo(h, c.local, p, rotated.events, buried);
    var h3 := After(h2, c.local, p, kept.events);
    KeepaliveIsSafe(rest, c, cleared, h2, inp, now);
    AfterTwo(h, c.local, p, rotated.events + buried, kept.events);

    NothingStartedYet(c, p, inp, now);
    if kept.peer.handshake.None? {
      StartsAtMost(h, c.local, p, rotated.events + buried + kept.events, inp.hs);
    }
    RetryIsSafe(rest, c, kept.peer, h3, inp, now);
    AfterTwo(h, c.local, p, rotated.events + buried + kept.events, retried.events);
  }

  ghost predicate StartsOnly(events: seq<Event>, hs: nat) {
    forall e | e in events && e.Started? :: e.hs == hs
  }

  lemma TimerStepsStartOnly(c: Config, p: PeerState, inp: TickInput, now: nat)
    ensures StartsOnly(Rotate(c, p, inp, now).events, inp.hs)
    ensures StartsOnly(Buried(p, now), inp.hs)
    ensures StartsOnly(Keepalive(p, inp, now).events, inp.hs)
    ensures StartsOnly(Retry(c, p, inp, now).events, inp.hs)
  {
    hide RotationDue, Dead, Pad;
  }

  lemma TickStartsOnly(c: Config, p: PeerState, inp: TickInput, now: nat)
    ensures StartsOnly(TickPeer(c, p, inp, now).events, inp.hs)
  {
    hide Rotate, Buried, Keepalive, Retry, ClearDead;
    var rotated := Rotate(c, p, inp, now).peer;
    var cleared := ClearDead(rotated, now);
    TimerStepsStartOnly(c, p, inp, now);
    TimerStepsStartOnly(c, rotated, inp, now);
    TimerStepsStartOnly(c, cleared, inp, now);
    TimerStepsStartOnly(c, Keepalive(cleared, inp, now).peer, inp, now);
  }

  lemma SendViaIsSafe(rest: Pool, c: Config, p: PeerState, h: History, packet: Bytes, inp: SendInput, now: nat)
    requires Safe(rest, c.local, p, h) && !HandshakeUsed(h, inp.hs)
    ensures var o := SendVia(c, p, packet, inp, now);
            Safe(rest, c.local, o.peer, After(h, c.local, p, o.events))
  {
    EncryptIsSafe(rest, c.local, p, h, packet, inp.padding, now, inp.encryptOk);
    AfterNone(h, c.local, p);
    var o := Encrypt(p, packet, inp.padding, now, inp.encryptOk);
    if o.peer.active.None? {
      InitiateIsSafe(rest, c.local, o.peer, h, inp.hs, inp.padding, now, inp.initiateOk);
    }
  }

  /** A peer that is dropped takes its secrets out of the pool. */
  lemma BuryIsSafe(rest: Pool, local: Key, p: PeerState, h: History)
    requires Safe(rest, local, p, h)
    ensures PoolInv(rest, After(h, local, p, RetireActive(p)))
  {
    hide PoolInv;
    StepBackIsSafe(rest, local, p, h);
    DropSecrets(rest + Secrets(local, StepBack(p)), rest, After(h, local, p, RetireActive(p)));
  }
}
