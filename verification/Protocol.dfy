/**
 * Safety of sessions over all runs. The secrets held anywhere in the network form one multiset,
 * the pool; the history records every cryptographic event. Each operation of a peer keeps
 * `PoolInv`, whatever the rest of the pool is.
 */
module Protocol {
  import opened Wrappers
  import opened Words
  import opened Noise
  import opened PeerModel
  import opened DaemonModel

  type History = seq<LogEntry>

  datatype Secret =
    | Live(local: Key, remote: Key, session: SessionState, sending: bool)
    | Pending(local: Key, remote: Key, hs: nat)

  type Pool = multiset<Secret>

  // ------------------------------------------------------- reading a history

  function Yield(e: LogEntry): Option<Msg> {
    match e.event
    case Started(hs) => Some(Init(hs, e.local, e.remote))
    case Answered(hs, id) => Some(Resp(hs, id))
    case Encrypted(sealer, nonce, _, plain, sent) => if sent then Some(Sealed(sealer, nonce, plain)) else None
    case _ => None
  }

  ghost predicate Produced(h: History, m: Msg) {
    exists e | e in h :: Yield(e) == Some(m)
  }

  /** The octets an attacker who saw everything can put together. */
  ghost predicate Derivable(h: History, w: Wire) {
    forall i | 0 <= i < |w| && w[i].Part? :: Produced(h, w[i].msg)
  }

  ghost predicate HandshakeUsed(h: History, hs: nat) {
    exists e | e in h :: e.event.Started? && e.event.hs == hs
  }

  ghost predicate SessionUsed(h: History, id: nat) {
    exists e | e in h :: e.event.Answered? && e.event.id == id
  }

  ghost predicate HandshakeDone(h: History, hs: nat) {
    exists e | e in h :: e.event.Joined? && e.event.hs == hs
  }

  /** `local` completed a handshake with `remote` that gave it this end of the session. */
  ghost predicate Established(h: History, local: Key, remote: Key, end: SessionKey) {
    if end.role.Responder?
    then exists hs :: LogEntry(local, remote, Answered(hs, end.id)) in h
    else exists hs :: LogEntry(local, remote, Joined(hs, end.id)) in h
  }

  /** The session stopped being the active one of its peer. */
  ghost predicate RetiredBefore(h: History, end: SessionKey) {
    exists e | e in h :: e.event == Retired(end)
  }

  predicate Seals(e: LogEntry, end: SessionKey) {
    e.event.Encrypted? && e.event.sealer == end
  }

  /** Number of `encrypt_packet` calls made with this end, failed ones included. */
  function SealCount(h: History, end: SessionKey): nat {
    if h == [] then 0
    else SealCount(h[..|h| - 1], end) + if Seals(h[|h| - 1], end) then 1 else 0
  }

  /** Total unpadded size of the payloads passed to those calls. */
  function SealBytes(h: History, end: SessionKey): nat {
    if h == [] then 0
    else SealBytes(h[..|h| - 1], end) + if Seals(h[|h| - 1], end) then |h[|h| - 1].event.payload| else 0
  }

  /** Nonces of the packets this end has delivered. */
  function OpenedNonces(h: History, end: SessionKey): set<u64> {
    if h == [] then {}
    else
      var e := h[|h| - 1].event;
      OpenedNonces(h[..|h| - 1], end) + if e.Opened? && e.end == end then {e.nonce} else {}
  }

  lemma CountsAfter(h: History, e: LogEntry, end: SessionKey)
    ensures SealCount(h + [e], end) == SealCount(h, end) + if Seals(e, end) then 1 else 0
    ensures SealBytes(h + [e], end) == SealBytes(h, end) + if Seals(e, end) then |e.event.payload| else 0
    ensures OpenedNonces(h + [e], end)
         == OpenedNonces(h, end) + if e.event.Opened? && e.event.end == end then {e.event.nonce} else {}
  {
    assert (h + [e])[..|h|] == h;
  }

  // ------------------------------------------------- what a history promises

  /** The packet `plain` carries `payload`, with padding behind an IPv4 packet only. */
  ghost predicate Carries(plain: Bytes, payload: Bytes) {
    exists padding :: plain == Pad(payload, padding)
  }

  /** The one earlier event that explains a delivery: the other side sealed this very plaintext. */
  predicate Explains(s: LogEntry, d: LogEntry) {
    && d.event.Opened?
    && s.local == d.remote && s.remote == d.local
    && Seals(s, d.event.end.OtherEnd())
    && s.event.nonce == d.event.nonce
    && s.event.plain == d.event.plain
    && s.event.sent
  }

  /** What holds of an event, given everything that happened before it. */
  ghost predicate EventOk(h: History, e: LogEntry) {
    match e.event
    case Started(hs) => !HandshakeUsed(h, hs)
    case Answered(hs, id) =>
      !SessionUsed(h, id) && LogEntry(e.remote, e.local, Started(hs)) in h
    case Joined(hs, id) =>
      && !HandshakeDone(h, hs)
      && LogEntry(e.local, e.remote, Started(hs)) in h
      && LogEntry(e.remote, e.local, Answered(hs, id)) in h
    case Encrypted(sealer, nonce, payload, plain, _) =>
      && Established(h, e.local, e.remote, sealer)
      && !RetiredBefore(h, sealer)
      && nonce == SealCount(h, sealer) % U64_LIMIT
      && Carries(plain, payload)
    case Opened(end, nonce, plain, payload) =>
      && Established(h, e.local, e.remote, end)
      && nonce !in OpenedNonces(h, end)
      && payload == Unpad(plain)
      && exists s | s in h :: Explains(s, e)
    case Retired(end) => Established(h, e.local, e.remote, end)
  }

  ghost predicate HistoryOk(h: History) {
    forall i | 0 <= i < |h| :: EventOk(h[..i], h[i])
  }

  lemma HistoryExtends(h: History, e: LogEntry)
    requires HistoryOk(h) && EventOk(h, e)
    ensures HistoryOk(h + [e])
  {
    var g := h + [e];
    forall i | 0 <= i < |g| ensures EventOk(g[..i], g[i]) {
      assert g[..i] == if i < |h| then h[..i] else h;
    }
  }

  // ------------------------------------------------ consequences for histories

  lemma InPrefix(h: History, i: nat, j: nat)
    requires i < j <= |h|
    ensures h[i] in h[..j]
  {
    assert h[..j][i] == h[i];
  }

  /** A handshake is started once, so its two parties are determined. */
  lemma StartedOnce(h: History, d: LogEntry, e: LogEntry)
    requires HistoryOk(h) && d in h && e in h
    requires d.event.Started? && e.event == d.event
    ensures d == e
  {
    var i: nat :| i < |h| && h[i] == d;
    var j: nat :| j < |h| && h[j] == e;
    assert EventOk(h[..i], h[i]) && EventOk(h[..j], h[j]);
    if i < j {
      InPrefix(h, i, j);
    } else if j < i {
      InPrefix(h, j, i);
    }
  }

  /** A session id is handed out once. */
  lemma AnsweredOnce(h: History, d: LogEntry, e: LogEntry)
    requires HistoryOk(h) && d in h && e in h
    requires d.event.Answered? && e.event.Answered? && d.event.id == e.event.id
    ensures d == e
  {
    var i: nat :| i < |h| && h[i] == d;
    var j: nat :| j < |h| && h[j] == e;
    assert EventOk(h[..i], h[i]) && EventOk(h[..j], h[j]);
    if i < j {
      InPrefix(h, i, j);
    } else if j < i {
      InPrefix(h, j, i);
    }
  }

  lemma PastOf(h: History, e: LogEntry) returns (past: History)
    requires HistoryOk(h) && e in h
    ensures EventOk(past, e)
    ensures forall d | d in past :: d in h
  {
    var i :| 0 <= i < |h| && h[i] == e;
    past := h[..i];
  }

  /** The two ends of a session belong to the two parties of its handshake. */
  lemma EndsFaceEachOther(h: History, local: Key, remote: Key, end: SessionKey, a: Key, b: Key)
    requires HistoryOk(h)
    requires Established(h, local, remote, end) && Established(h, a, b, end.OtherEnd())
    ensures a == remote && b == local
  {
    if end.role.Responder? {
      var hs :| LogEntry(local, remote, Answered(hs, end.id)) in h;
      var other :| LogEntry(a, b, Joined(other, end.id)) in h;
      var past := PastOf(h, LogEntry(a, b, Joined(other, end.id)));
      AnsweredOnce(h, LogEntry(local, remote, Answered(hs, end.id)), LogEntry(b, a, Answered(other, end.id)));
    } else {
      var hs :| LogEntry(local, remote, Joined(hs, end.id)) in h;
      var other :| LogEntry(a, b, Answered(other, end.id)) in h;
      var past := PastOf(h, LogEntry(local, remote, Joined(hs, end.id)));
      AnsweredOnce(h, LogEntry(remote, local, Answered(hs, end.id)), LogEntry(a, b, Answered(other, end.id)));
    }
  }

  lemma EstablishedStays(h: History, e: LogEntry, local: Key, remote: Key, end: SessionKey)
    requires Established(h, local, remote, end)
    ensures Established(h + [e], local, remote, end)
  {
    if end.role.Responder? {
      var hs :| LogEntry(local, remote, Answered(hs, end.id)) in h;
      assert LogEntry(local, remote, Answered(hs, end.id)) in h + [e];
    } else {
      var hs :| LogEntry(local, remote, Joined(hs, end.id)) in h;
      assert LogEntry(local, remote, Joined(hs, end.id)) in h + [e];
    }
  }

  /** Nothing was sealed or opened with an end that no one holds yet. */
  lemma {:induction false} UnestablishedIsUnused(h: History, end: SessionKey)
    requires HistoryOk(h)
    requires forall a, b :: !Established(h, a, b, end)
    ensures SealCount(h, end) == 0 && SealBytes(h, end) == 0 && OpenedNonces(h, end) == {}
    ensures !RetiredBefore(h, end)
  {
    if h != [] {
      var past, e := h[..|h| - 1], h[|h| - 1];
      assert h == past + [e];
      forall a, b ensures !Established(past, a, b, end) {
        if Established(past, a, b, end) {
          EstablishedStays(past, e, a, b, end);
        }
      }
      forall i | 0 <= i < |past| ensures EventOk(past[..i], past[i]) {
        assert past[..i] == h[..i];
      }
      UnestablishedIsUnused(past, end);
      assert EventOk(h[..|h| - 1], h[|h| - 1]);
    }
  }

  // --------------------------------------------------------------- the pool

  predicate Clash(x: Secret, y: Secret) {
    || (x.Live? && y.Live? && x.session.end == y.session.end)
    || (x.Pending? && y.Pending? && x.hs == y.hs)
  }

  /** No end of a session and no handshake is held in two places. */
  ghost predicate Unique(pool: Pool) {
    && (forall x | x in pool :: pool[x] == 1)
    && (forall x, y | x in pool && y in pool && Clash(x, y) :: x == y)
  }

  /** A held secret agrees with the history. */
  ghost predicate SecretOk(h: History, x: Secret) {
    match x
    case Live(local, remote, s, sending) =>
      && Established(h, local, remote, s.end)
      && s.txNonce == SealCount(h, s.end) % U64_LIMIT
      && s.txBytes == SealBytes(h, s.end) % U64_LIMIT
      && s.window == OpenedNonces(h, s.end)
      && (sending ==> !RetiredBefore(h, s.end))
    case Pending(local, remote, hs) =>
      LogEntry(local, remote, Started(hs)) in h && !HandshakeDone(h, hs)
  }

  ghost predicate PoolInv(pool: Pool, h: History) {
    HistoryOk(h) && Unique(pool) && forall x | x in pool :: SecretOk(h, x)
  }

  predicate Touches(e: LogEntry, x: Secret) {
    match x
    case Live(_, _, s, _) => Seals(e, s.end) || ((e.event.Opened? || e.event.Retired?) && e.event.end == s.end)
    case Pending(_, _, hs) => e.event.Joined? && e.event.hs == hs
  }

  lemma SecretStaysOk(h: History, e: LogEntry, x: Secret)
    requires SecretOk(h, x) && !Touches(e, x)
    ensures SecretOk(h + [e], x)
  {
    if x.Live? {
      EstablishedStays(h, e, x.local, x.remote, x.session.end);
      CountsAfter(h, e, x.session.end);
    }
  }

  lemma RestStaysOk(pool: Pool, h: History, e: LogEntry)
    requires PoolInv(pool, h) && EventOk(h, e)
    requires forall x | x in pool :: !Touches(e, x)
    ensures PoolInv(pool, h + [e])
  {
    HistoryExtends(h, e);
    forall x | x in pool ensures SecretOk(h + [e], x) {
      SecretStaysOk(h, e, x);
    }
  }

  lemma DropSecrets(pool: Pool, kept: Pool, h: History)
    requires PoolInv(pool, h) && kept <= pool
    ensures PoolInv(kept, h)
  {
    forall x | x in kept ensures x in pool && kept[x] == 1 {
      assert kept[x] <= pool[x];
    }
  }

  lemma AddSecret(pool: Pool, x: Secret, h: History)
    requires PoolInv(pool, h) && SecretOk(h, x)
    requires forall y | y in pool :: !Clash(x, y)
    ensures PoolInv(pool + multiset{x}, h)
  {
    assert Clash(x, x);
  }

  // -------------------------------------------------- what may happen to it

  lemma StartHandshake(pool: Pool, h: History, local: Key, remote: Key, hs: nat)
    requires PoolInv(pool, h) && !HandshakeUsed(h, hs)
    ensures PoolInv(pool + multiset{Pending(local, remote, hs)}, h + [LogEntry(local, remote, Started(hs))])
  {
    hide HistoryOk, Unique, SealCount, SealBytes, OpenedNonces;
    var e := LogEntry(local, remote, Started(hs));
    RestStaysOk(pool, h, e);
    if d :| d in h && d.event.Joined? && d.event.hs == hs {
      var past := PastOf(h, d);
    }
    assert e in h + [e];
    forall y | y in pool ensures !Clash(Pending(local, remote, hs), y) {
      assert SecretOk(h, y);
    }
    AddSecret(pool, Pending(local, remote, hs), h + [e]);
  }

  function NewSession(end: SessionKey, now: nat): SessionState {
    SessionState(end, 0, now, 0, 0, {})
  }

  lemma NewSessionOk(h: History, e: LogEntry, end: SessionKey, now: nat)
    requires HistoryOk(h) && forall a, b :: !Established(h, a, b, end)
    requires Established(h + [e], e.local, e.remote, end) && (e.event.Answered? || e.event.Joined?)
    ensures SecretOk(h + [e], Live(e.local, e.remote, NewSession(end, now), true))
  {
    UnestablishedIsUnused(h, end);
    CountsAfter(h, e, end);
    assert !RetiredBefore(h + [e], end);
  }

  /** An end nobody held before joins the pool. */
  lemma AddSession(pool: Pool, h: History, e: LogEntry, end: SessionKey, now: nat)
    requires PoolInv(pool, h) && EventOk(h, e)
    requires forall x | x in pool :: !Touches(e, x)
    requires forall a, b :: !Established(h, a, b, end)
    requires Established(h + [e], e.local, e.remote, end) && (e.event.Answered? || e.event.Joined?)
    ensures PoolInv(pool + multiset{Live(e.local, e.remote, NewSession(end, now), true)}, h + [e])
  {
    hide HistoryOk, Unique, SealCount, SealBytes, OpenedNonces;
    var x := Live(e.local, e.remote, NewSession(end, now), true);
    RestStaysOk(pool, h, e);
    NewSessionOk(h, e, end, now);
    forall y | y in pool ensures !Clash(x, y) {
      assert SecretOk(h, y);
    }
    AddSecret(pool, x, h + [e]);
  }

  lemma AnswerHandshake(pool: Pool, h: History, local: Key, remote: Key, hs: nat, id: nat, now: nat)
    requires PoolInv(pool, h) && !SessionUsed(h, id)
    requires Produced(h, Init(hs, remote, local))
    ensures PoolInv(pool + multiset{Live(local, remote, NewSession(SessionKey(id, Responder), now), true)},
                    h + [LogEntry(local, remote, Answered(hs, id))])
  {
    var e := LogEntry(local, remote, Answered(hs, id));
    assert LogEntry(remote, local, Started(hs)) in h;
    assert e in h + [e];
    AddSession(pool, h, e, SessionKey(id, Responder), now);
  }

  /** A response names the handshake of one initiator, who has not used it yet. */
  lemma ResponseFits(pool: Pool, h: History, local: Key, remote: Key, hs: nat, id: nat)
    requires PoolInv(pool, h) && Pending(local, remote, hs) in pool
    requires Produced(h, Resp(hs, id))
    ensures EventOk(h, LogEntry(local, remote, Joined(hs, id)))
    ensures forall a, b :: !Established(h, a, b, SessionKey(id, Initiator))
  {
    assert SecretOk(h, Pending(local, remote, hs));
    var answer :| answer in h && Yield(answer) == Some(Resp(hs, id));
    var past := PastOf(h, answer);
    StartedOnce(h, LogEntry(answer.remote, answer.local, Started(hs)), LogEntry(local, remote, Started(hs)));
    forall a, b ensures !Established(h, a, b, SessionKey(id, Initiator)) {
      if Established(h, a, b, SessionKey(id, Initiator)) {
        var other :| LogEntry(a, b, Joined(other, id)) in h;
        var before := PastOf(h, LogEntry(a, b, Joined(other, id)));
        AnsweredOnce(h, answer, LogEntry(b, a, Answered(other, id)));
      }
    }
  }

  lemma JoinHandshake(pool: Pool, h: History, local: Key, remote: Key, hs: nat, id: nat, now: nat)
    requires PoolInv(pool, h) && Pending(local, remote, hs) in pool
    requires Produced(h, Resp(hs, id))
    ensures PoolInv(pool - multiset{Pending(local, remote, hs)}
                    + multiset{Live(local, remote, NewSession(SessionKey(id, Initiator), now), true)},
                    h + [LogEntry(local, remote, Joined(hs, id))])
  {
    var e := LogEntry(local, remote, Joined(hs, id));
    ResponseFits(pool, h, local, remote, hs, id);
    var rest := TakeOut(pool, h, Pending(local, remote, hs));
    assert e in h + [e];
    AddSession(rest, h, e, SessionKey(id, Initiator), now);
  }

  /** What is left clashes with nothing like the secret taken out. */
  lemma TakeOut(pool: Pool, h: History, x: Secret) returns (rest: Pool)
    requires PoolInv(pool, h) && x in pool
    ensures rest == pool - multiset{x} && PoolInv(rest, h)
    ensures forall y | y in rest :: !Clash(x, y)
  {
    rest := pool - multiset{x};
    DropSecrets(pool, rest, h);
    forall y | y in rest ensures !Clash(x, y) {
      assert y in pool;
    }
  }

  /** A live session changes, and the event explains how; every other secret is untouched. */
  lemma UpdateSession(pool: Pool, h: History, x: Secret, y: Secret, e: LogEntry)
    requires PoolInv(pool, h) && x in pool && x.Live? && y.Live?
    requires x.session.end == y.session.end && EventOk(h, e)
    requires forall z :: Touches(e, z) ==> z.Live? && z.session.end == x.session.end
    requires SecretOk(h + [e], y)
    ensures PoolInv(pool - multiset{x} + multiset{y}, h + [e])
  {
    var rest := TakeOut(pool, h, x);
    RestStaysOk(rest, h, e);
    AddSecret(rest, y, h + [e]);
  }

  /** The active session becomes a previous one, which still opens packets. */
  lemma Retire(pool: Pool, h: History, local: Key, remote: Key, s: SessionState)
    requires PoolInv(pool, h) && Live(local, remote, s, true) in pool
    ensures PoolInv(pool - multiset{Live(local, remote, s, true)} + multiset{Live(local, remote, s, false)},
                    h + [LogEntry(local, remote, Retired(s.end))])
  {
    var e := LogEntry(local, remote, Retired(s.end));
    assert SecretOk(h, Live(local, remote, s, true));
    assert SecretOk(h + [e], Live(local, remote, s, false)) by {
      CountsAfter(h, e, s.end);
      EstablishedStays(h, e, local, remote, s.end);
    }
    UpdateSession(pool, h, Live(local, remote, s, true), Live(local, remote, s, false), e);
  }

  lemma AddModulo(a: nat, n: nat)
    ensures (a % U64_LIMIT + n) % U64_LIMIT == (a + n) % U64_LIMIT
  {
  }

  lemma SpendingIsCounted(h: History, e: LogEntry, s: SessionState)
    requires SecretOk(h, Live(e.local, e.remote, s, true)) && Seals(e, s.end)
    ensures SecretOk(h + [e], Live(e.local, e.remote, Spend(s, |e.event.payload|), true))
  {
    CountsAfter(h, e, s.end);
    EstablishedStays(h, e, e.local, e.remote, s.end);
    AddModulo(SealCount(h, s.end), 1);
    AddModulo(SealBytes(h, s.end), |e.event.payload|);
  }

  lemma Seal(pool: Pool, h: History, local: Key, remote: Key, s: SessionState, payload: Bytes, plain: Bytes, sent: bool)
    requires PoolInv(pool, h) && Live(local, remote, s, true) in pool
    requires Carries(plain, payload)
    ensures PoolInv(pool - multiset{Live(local, remote, s, true)}
                    + multiset{Live(local, remote, Spend(s, |payload|), true)},
                    h + [LogEntry(local, remote, Encrypted(s.end, s.txNonce, payload, plain, sent))])
  {
    var e := LogEntry(local, remote, Encrypted(s.end, s.txNonce, payload, plain, sent));
    assert SecretOk(h, Live(local, remote, s, true));
    SpendingIsCounted(h, e, s);
    UpdateSession(pool, h, Live(local, remote, s, true), Live(local, remote, Spend(s, |payload|), true), e);
  }

  /** A sealed message in circulation was sealed by the peer this end talks to. */
  lemma SealedByThePeer(h: History, local: Key, remote: Key, end: SessionKey, nonce: u64, plain: Bytes)
    requires HistoryOk(h) && Established(h, local, remote, end)
    requires Produced(h, Sealed(end.OtherEnd(), nonce, plain))
    ensures exists s | s in h :: Explains(s, LogEntry(local, remote, Opened(end, nonce, plain, Unpad(plain))))
  {
    var seal :| seal in h && Yield(seal) == Some(Sealed(end.OtherEnd(), nonce, plain));
    var past := PastOf(h, seal);
    EstablishedGrows(past, h, seal.local, seal.remote, end.OtherEnd());
    EndsFaceEachOther(h, local, remote, end, seal.local, seal.remote);
    assert Explains(seal, LogEntry(local, remote, Opened(end, nonce, plain, Unpad(plain))));
  }

  lemma Deliver(pool: Pool, h: History, x: Secret, nonce: u64, plain: Bytes, size: nat)
    requires PoolInv(pool, h) && x in pool && x.Live?
    requires Produced(h, Sealed(x.session.end.OtherEnd(), nonce, plain)) && nonce !in x.session.window
    ensures PoolInv(pool - multiset{x} + multiset{x.(session := Receive(x.session, nonce, size))},
                    h + [LogEntry(x.local, x.remote, Opened(x.session.end, nonce, plain, Unpad(plain)))])
  {
    var s := x.session;
    var e := LogEntry(x.local, x.remote, Opened(s.end, nonce, plain, Unpad(plain)));
    var y := x.(session := Receive(s, nonce, size));
    assert SecretOk(h, x);
    SealedByThePeer(h, x.local, x.remote, s.end, nonce, plain);
    assert SecretOk(h + [e], y) by {
      CountsAfter(h, e, s.end);
      EstablishedStays(h, e, x.local, x.remote, s.end);
    }
    UpdateSession(pool, h, x, y, e);
  }

  lemma EstablishedGrows(past: History, h: History, local: Key, remote: Key, end: SessionKey)
    requires Established(past, local, remote, end)
    requires forall d | d in past :: d in h
    ensures Established(h, local, remote, end)
  {
    if end.role.Responder? {
      var hs :| LogEntry(local, remote, Answered(hs, end.id)) in past;
      assert LogEntry(local, remote, Answered(hs, end.id)) in h;
    } else {
      var hs :| LogEntry(local, remote, Joined(hs, end.id)) in past;
      assert LogEntry(local, remote, Joined(hs, end.id)) in h;
    }
  }
}
