/** How long a replaced session goes on opening packets, over the life of a peer's entry. */
module Grace {
  import opened Wrappers
  import opened Words
  import opened Noise
  import opened Replay
  import opened PeerModel
  import opened DaemonModel
  import opened Padding
  import opened World
  import opened Entries
  import opened Timers

  predicate Retiring(events: seq<Event>) {
    exists e | e in events :: e.Retired?
  }

  /** A handshake is completed, on either side. */
  predicate Completing(events: seq<Event>) {
    exists e | e in events :: e.Answered? || e.Joined?
  }

  /** The session in the previous slot is the same as before, or was dropped for its age. */
  predicate PreviousStays(p: PeerState, q: PeerState, now: nat) {
    if q.previous.Some? then
      && p.previous.Some? && q.previous.value.end == p.previous.value.end
      && q.previous.value.establishedAt == p.previous.value.establishedAt
    else
      p.previous.Some? ==> p.previous.value.establishedAt + 15_000 <= now
  }

  /**
   * A step that retires a session puts it in the previous slot, or clears both slots; and it retires
   * the active session exactly if it completes a handshake or leaves no session.
   */
  predicate SlotsFollow(p: PeerState, q: PeerState, events: seq<Event>, now: nat) {
    && (p.active.Some? ==> (Retiring(events) <==> Completing(events) || q.active.None?))
    && SlotsMove(p, q, events, now)
  }

  predicate SlotsMove(p: PeerState, q: PeerState, events: seq<Event>, now: nat) {
    if Retiring(events) then
      && p.active.Some?
      && (forall e | e in events && e.Retired? :: e.end == p.active.value.end)
      && (if q.active.Some? then q.previous == p.active else q.previous.None?)
    else
      && PreviousStays(p, q, now)
      && (p.active.Some? ==> q.active.Some? && q.active.value.end == p.active.value.end)
  }

  lemma AnswerSlots(p: PeerState, magic: Magic, hs: nat, id: nat, padding: Bytes, now: nat, ok: bool)
    ensures var o := Answer(p, magic, hs, id, padding, now, ok); SlotsFollow(p, o.peer, o.events, now)
  {
    if ok && p.active.Some? {
      assert Answer(p, magic, hs, id, padding, now, ok).events[0].Retired?;
      assert Answer(p, magic, hs, id, padding, now, ok).events[1].Answered?;
    }
  }

  lemma JoinSlots(p: PeerState, payload: Wire, now: nat, ok: bool)
    ensures var o := Join(p, payload, now, ok); SlotsFollow(p, o.peer, o.events, now)
  {
    hide ReadResp;
    var o := Join(p, payload, now, ok);
    if p.active.Some? && o.events != [] {
      assert o.events[0].Retired? && o.events[1].Joined?;
    }
  }

  lemma HandleSlots(p: PeerState, local: Key, packetType: u8, payload: Wire, id: nat, padding: Bytes, now: nat,
                    ok: bool)
    ensures var o := HandleHandshake(p, local, packetType, payload, id, padding, now, ok);
            SlotsFollow(p, o.peer, o.events, now)
  {
    hide Answer, Join, ReadInit;
    var read := ReadInit(local, Cut(payload, INIT_LEN));
    if read.Some? {
      AnswerSlots(p, p.magic, read.value.0, id, padding, now, ok);
    }
    JoinSlots(p, payload, now, ok);
  }

  lemma DecryptSlots(p: PeerState, payload: Wire, now: nat)
    ensures var o := Decrypt(p, payload, now); SlotsFollow(p, o.peer, o.events, now)
  {
    hide Open, NonceOf, Accepts, Unpad;
  }

  lemma EncryptSlots(p: PeerState, payload: Bytes, padding: Bytes, now: nat, ok: bool)
    ensures var o := Encrypt(p, payload, padding, now, ok);
            SlotsFollow(p, o.peer, o.events, now) && o.peer.previous == p.previous && !Retiring(o.events)
            && !Completing(o.events)
  {
    hide Pad;
  }

  lemma InitiateSlots(p: PeerState, local: Key, hs: nat, padding: Bytes, now: nat, ok: bool)
    ensures var o := Initiate(p, local, hs, padding, now, ok);
            o.peer.active == p.active && o.peer.previous == p.previous && !Retiring(o.events) && !Completing(o.events)
  {
  }

  lemma SendSlots(c: Config, p: PeerState, packet: Bytes, inp: SendInput, now: nat)
    ensures var o := SendVia(c, p, packet, inp, now); SlotsFollow(p, o.peer, o.events, now)
  {
    hide Encrypt, Initiate, Retiring, Completing;
    var o := Encrypt(p, packet, inp.padding, now, inp.encryptOk);
    EncryptSlots(p, packet, inp.padding, now, inp.encryptOk);
    InitiateSlots(o.peer, c.local, inp.hs, inp.padding, now, inp.initiateOk);
  }

  lemma RetiringParts(a: seq<Event>, b: seq<Event>)
    ensures Retiring(a + b) <==> Retiring(a) || Retiring(b)
    ensures Completing(a + b) <==> Completing(a) || Completing(b)
  {
    if e :| e in a && e.Retired? {
      assert e in a + b;
    } else if e :| e in b && e.Retired? {
      assert e in a + b;
    }
    if e :| e in a && (e.Answered? || e.Joined?) {
      assert e in a + b;
    } else if e :| e in b && (e.Answered? || e.Joined?) {
      assert e in a + b;
    }
  }

  lemma RotateSlots(c: Config, p: PeerState, inp: TickInput, now: nat)
    ensures var o := Rotate(c, p, inp, now);
            PreviousStays(p, o.peer, now) && o.peer.active == p.active && !Retiring(o.events) && !Completing(o.events)
  {
    hide Initiate, RotationDue;
    InitiateSlots(ExpirePrevious(p, now), c.local, inp.hs, inp.padding, now, inp.rotateOk);
  }

  lemma KeepaliveSlots(p: PeerState, inp: TickInput, now: nat)
    ensures var o := Keepalive(p, inp, now);
            && o.peer.previous == p.previous && !Retiring(o.events) && !Completing(o.events)
            && (o.peer.active.Some? <==> p.active.Some?)
            && (p.active.Some? ==> o.peer.active.value.end == p.active.value.end)
  {
    hide Encrypt;
    EncryptSlots(p, [], [], now, inp.keepaliveOk);
    if p.active.None? {
      EncryptKeepsAbsence(p, [], [], now, inp.keepaliveOk);
    }
  }

  lemma EncryptKeepsAbsence(p: PeerState, payload: Bytes, padding: Bytes, now: nat, ok: bool)
    requires p.active.None?
    ensures Encrypt(p, payload, padding, now, ok).peer.active.None?
  {
  }

  lemma RetrySlots(c: Config, p: PeerState, inp: TickInput, now: nat)
    ensures var o := Retry(c, p, inp, now);
            o.peer.active == p.active && o.peer.previous == p.previous && !Retiring(o.events) && !Completing(o.events)
  {
    hide Initiate;
    InitiateSlots(p, c.local, inp.hs, inp.padding, now, inp.initiateOk);
  }

  lemma TickSlots(c: Config, p: PeerState, inp: TickInput, now: nat)
    ensures var t := TickPeer(c, p, inp, now); SlotsFollow(p, t.peer, t.events, now)
  {
    hide Rotate, Keepalive, Retry, Retiring, Completing, Buried;
    var rotated := Rotate(c, p, inp, now);
    var cleared, buried := ClearDead(rotated.peer, now), Buried(rotated.peer, now);
    var kept := Keepalive(cleared, inp, now);
    var retried := Retry(c, kept.peer, inp, now);
    RotateSlots(c, p, inp, now);
    BuriedRetires(rotated.peer, now);
    KeepaliveSlots(cleared, inp, now);
    RetrySlots(c, kept.peer, inp, now);
    RetiringParts(rotated.events + buried + kept.events, retried.events);
    RetiringParts(rotated.events + buried, kept.events);
    RetiringParts(rotated.events, buried);
    if Dead(rotated.peer, now) {
      OnlyTheMiddleRetires(rotated.events, buried, kept.events, retried.events, rotated.peer.active.value.end);
    }
  }

  lemma OnlyTheMiddleRetires(a: seq<Event>, b: seq<Event>, c: seq<Event>, d: seq<Event>, end: SessionKey)
    requires !Retiring(a) && !Retiring(c) && !Retiring(d) && forall e | e in b && e.Retired? :: e.end == end
    ensures forall e | e in a + b + c + d && e.Retired? :: e.end == end
  {
  }

  lemma NothingRetires()
    ensures !Retiring([]) && !Completing([])
  {
  }

  lemma BuriedRetires(p: PeerState, now: nat)
    ensures Retiring(Buried(p, now)) <==> Dead(p, now)
    ensures !Completing(Buried(p, now))
    ensures Dead(p, now) ==> forall e | e in Buried(p, now) && e.Retired? :: e.end == p.active.value.end
  {
    if Dead(p, now) {
      assert Buried(p, now)[0].Retired?;
    }
  }

  lemma PerformSlots(c: Config, p: PeerState, op: EntryOp, now: nat)
    ensures var e := Perform(c, p, op, now); SlotsFollow(p, e.peer, e.events, now)
  {
    hide TickPeer, SendVia, Decrypt, Answer, HandleHandshake, Retiring, Completing;
    NothingRetires();
    match op
    case Rests =>
    case TicksWith(inp) => TickSlots(c, p, inp, now);
    case SendsWith(packet, inp) => SendSlots(c, p, packet, inp, now);
    case Decrypts(payload) => DecryptSlots(p, payload, now);
    case DecryptsFrom(payload, addr) => DecryptSlots(p, payload, now);
    case Answers(hs, inp) => AnswerSlots(p, c.magic, hs, inp.id, inp.padding, now, inp.ok);
    case AnswersTo(hs, addr, inp) =>
      AnswerSlots(p.(endpoint := Some(addr), lastDirectRx := now), c.magic, hs, inp.id, inp.padding, now, inp.ok);
    case Handles(payload, inp) =>
      HandleSlots(p, c.local, c.magic.handshakeResp, payload, inp.id, inp.padding, now, inp.ok);
    case HandlesDirectly(payload, inp) =>
      HandleSlots(p, c.local, c.magic.handshakeResp, payload, inp.id, inp.padding, now, inp.ok);
    case Follows(_, _) =>
  }

  // ------------------------------------------------------- the life of an entry

  /** Step `k` of the life retires the active session. */
  ghost predicate RetiresAt(c: Config, ps: seq<PeerState>, ops: seq<EntryOp>, times: seq<nat>, k: nat)
    requires Life(c, ps, ops, times) && k < |ops|
  {
    Retiring(Perform(c, ps[k], ops[k], times[k + 1]).events)
  }

  /** The session retired at step `r` was replaced, not cleared, and by `m` none was retired after it. */
  ghost predicate LastReplaced(c: Config, ps: seq<PeerState>, ops: seq<EntryOp>, times: seq<nat>, r: nat, m: nat)
    requires Life(c, ps, ops, times) && r < m <= |ops|
  {
    ps[r + 1].active.Some? && forall k | r < k < m :: !RetiresAt(c, ps, ops, times, k)
  }

  /** Session ids are fresh: the end never becomes active again. */
  ghost predicate NeverAgain(ps: seq<PeerState>, r: nat, end: SessionKey) {
    forall m | r < m < |ps| && ps[m].active.Some? :: ps[m].active.value.end != end
  }

  lemma LifeSizes(c: Config, ps: seq<PeerState>, ops: seq<EntryOp>, times: seq<nat>)
    requires Life(c, ps, ops, times)
    ensures |ps| == |times| == |ops| + 1
  {
  }

  lemma SlotsAt(c: Config, ps: seq<PeerState>, ops: seq<EntryOp>, times: seq<nat>, k: nat)
    requires Life(c, ps, ops, times) && k < |ops|
    ensures times[k] <= times[k + 1]
    ensures if RetiresAt(c, ps, ops, times, k) then
              ps[k].active.Some? && (if ps[k + 1].active.Some? then ps[k + 1].previous == ps[k].active
                                     else ps[k + 1].previous.None?)
            else
              PreviousStays(ps[k], ps[k + 1], times[k + 1])
  {
    hide Perform;
    PerformSlots(c, ps[k], ops[k], times[k + 1]);
  }

  /** The previous slot holds the last session replaced, until its age drops it; nothing else brings one back. */
  lemma {:induction false} PreviousIsLastReplaced(c: Config, ps: seq<PeerState>, ops: seq<EntryOp>, times: seq<nat>,
                                                  r: nat, m: nat)
    requires Life(c, ps, ops, times) && r < m <= |ops| && RetiresAt(c, ps, ops, times, r)
    requires ps[r].active.Some? && NeverAgain(ps, r, ps[r].active.value.end)
    ensures var s := ps[r].active.value;
            if LastReplaced(c, ps, ops, times, r, m) then
              if ps[m].previous.Some? then
                ps[m].previous.value.end == s.end && ps[m].previous.value.establishedAt == s.establishedAt
              else
                s.establishedAt + 15_000 <= times[m]
            else
              ps[m].previous.Some? ==> ps[m].previous.value.end != s.end
    decreases m
  {
    hide Life, RetiresAt;
    LifeSizes(c, ps, ops, times);
    SlotsAt(c, ps, ops, times, m - 1);
    if m > r + 1 {
      PreviousIsLastReplaced(c, ps, ops, times, r, m - 1);
      assert ps[m - 1].active.Some? ==> ps[m - 1].active.value.end != ps[r].active.value.end;
      assert LastReplaced(c, ps, ops, times, r, m) <==>
             LastReplaced(c, ps, ops, times, r, m - 1) && !RetiresAt(c, ps, ops, times, m - 1);
    }
  }

  /**
   * A packet sealed for a session that was retired opens exactly when that session was the last one
   * replaced and its entry has not been cleared since, it is less than 15 s old, and its window
   * takes the nonce. (An entry dropped from the table has no further life.)
   */
  lemma ReplacedSessionOpens(c: Config, ps: seq<PeerState>, ops: seq<EntryOp>, times: seq<nat>, r: nat, m: nat,
                             sender: PeerState, payload: Bytes, padding: Bytes, sentAt: nat, now: nat)
    requires Life(c, ps, ops, times) && r < m <= |ops| && RetiresAt(c, ps, ops, times, r)
    requires ps[r].active.Some? && NeverAgain(ps, r, ps[r].active.value.end)
    requires sender.active.Some? && sender.active.value.end == ps[r].active.value.end.OtherEnd()
    requires times[m] <= now
    ensures var wire := Encrypt(sender, payload, padding, sentAt, true).result;
            && wire.Some?
            && (Decrypt(ps[m], wire.value[1..], now).result.Some? <==>
                && LastReplaced(c, ps, ops, times, r, m)
                && now < ps[r].active.value.establishedAt + 15_000
                && ps[m].previous.Some? && Accepts(ps[m].previous.value.window, sender.active.value.txNonce))
  {
    hide Life, RetiresAt, Encrypt, Decrypt, LastReplaced;
    LifeSizes(c, ps, ops, times);
    PreviousIsLastReplaced(c, ps, ops, times, r, m);
    if ps[m].previous.Some? && ps[m].previous.value.end == ps[r].active.value.end {
      LatePacketOpensWhileYoung(sender, ps[m], payload, padding, sentAt, now);
    } else {
      StrangePacketIsRefused(sender, ps[m], payload, padding, sentAt, now);
    }
  }

  /** A packet for a session in neither slot opens nothing. */
  lemma StrangePacketIsRefused(p: PeerState, q: PeerState, payload: Bytes, padding: Bytes, sentAt: nat, now: nat)
    requires p.active.Some?
    requires q.active.Some? ==> p.active.value.end != q.active.value.end.OtherEnd()
    requires q.previous.Some? ==> p.active.value.end != q.previous.value.end.OtherEnd()
    ensures var wire := Encrypt(p, payload, padding, sentAt, true).result;
            wire.Some? && Decrypt(q, wire.value[1..], now).result.None?
  {
    hide Octets, Bytewise, NonceOf, Unpad, Pad, Recognize, ToBigEndian;
    var s := p.active.value;
    var m := Sealed(s.end, s.txNonce, Pad(payload, padding));
    var body := Encrypt(p, payload, padding, sentAt, true).result.value[1..];
    assert body == Bytewise(ToBigEndian(s.txNonce, 8)) + Octets(m);
    DataPacketLayout(s.txNonce, m);
    RecognizesItsOwnOctets(m);
  }

  /** Two answered initiations in a row evict the session, however young, though its window takes the nonce. */
  lemma TwoInitiationsEvict(c: Config, p: PeerState, hs1: nat, inp1: RecvInput, hs2: nat, inp2: RecvInput,
                            sender: PeerState, payload: Bytes, padding: Bytes, sentAt: nat, at: nat, now: nat)
    requires p.active.Some? && inp1.ok && inp2.ok && p.active.value.end.id !in {inp1.id, inp2.id}
    requires sender.active.Some? && sender.active.value.end == p.active.value.end.OtherEnd()
    ensures var once := Perform(c, p, Answers(hs1, inp1), at).peer;
            var twice := Perform(c, once, Answers(hs2, inp2), at).peer;
            var wire := Encrypt(sender, payload, padding, sentAt, true).result;
            && wire.Some?
            && (now < p.active.value.establishedAt + 15_000
                && Accepts(p.active.value.window, sender.active.value.txNonce) ==>
                  Decrypt(once, wire.value[1..], now).result.Some?)
            && Decrypt(twice, wire.value[1..], now).result.None?
  {
    hide Encrypt, Decrypt;
    var once := Perform(c, p, Answers(hs1, inp1), at).peer;
    LatePacketOpensWhileYoung(sender, once, payload, padding, sentAt, now);
    StrangePacketIsRefused(sender, Perform(c, once, Answers(hs2, inp2), at).peer, payload, padding, sentAt, now);
  }

  /** Every entry a run follows leads such a life. */
  lemma {:induction false} TracedEntryLives(c: Config, run: seq<Timed>, acts: seq<Activity>, from: nat, till: nat,
                                            at: seq<nat>)
    returns (ps: seq<PeerState>, ops: seq<EntryOp>, times: seq<nat>)
    requires TimedRun(c, run, acts) && Traced(run, acts, from, till, at)
    ensures Life(c, ps, ops, times) && |ops| == till - from
    ensures forall k | from <= k <= till :: ps[k - from] == EntryAt(run, at, k) && times[k - from] == run[k].clock
    decreases till - from
  {
    hide Perform, Act, NextPlace;
    if from == till {
      ps, ops, times := [EntryAt(run, at, till)], [], [run[till].clock];
    } else {
      ps, ops, times := TracedEntryLives(c, run, acts, from, till - 1, at);
      assert TimedStep(c, run[till - 1], acts[till - 1], run[till]);
      var op := EntryStep(c, run[till - 1].peers, acts[till - 1], run[till].clock, at[till - 1]);
      ps, ops, times := ps + [EntryAt(run, at, till)], ops + [op], times + [run[till].clock];
    }
  }
}
