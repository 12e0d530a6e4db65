/** Three ways in which a rekey leaves the ends with different sessions, each step at its own time. */
module PartedEnds {
  import opened Wrappers
  import opened Words
  import opened Noise
  import opened PeerModel
  import opened Padding
  import opened Grace
  import opened Arrival
  import opened Agreement

  /** The response to handshake `hs` that opens session `id`, behind its type byte. */
  function Response(hs: nat, id: nat, padding: Bytes): Wire {
    Octets(Resp(hs, id)) + Bytewise(padding)
  }

  lemma ResponseIsRead(hs: nat, id: nat, padding: Bytes)
    ensures ReadResp(hs, Cut(Response(hs, id, padding), RESP_LEN)) == Some(id)
  {
    hide Octets, Bytewise, Recognize;
    CutDropsPadding(Resp(hs, id), padding);
    RecognizesItsOwnOctets(Resp(hs, id));
  }

  /** What `p` seals does not open at `q`. */
  predicate Missed(p: PeerState, q: PeerState, payload: Bytes, padding: Bytes, sentAt: nat, now: nat) {
    var wire := Encrypt(p, payload, padding, sentAt, true).result;
    wire.Some? && Decrypt(q, wire.value[1..], now).result.None?
  }

  /** Nothing `p` ever seals with this session opens at `q` from `deadline` on. */
  ghost predicate Unheard(p: PeerState, q: PeerState, deadline: nat) {
    forall payload, padding, sentAt, now: nat | deadline <= now :: Missed(p, q, payload, padding, sentAt, now)
  }

  lemma OldSessionIsUnheard(p: PeerState, q: PeerState, deadline: nat)
    requires p.active.Some? && q.active.Some? && p.active.value.end != q.active.value.end.OtherEnd()
    requires q.previous.Some? ==> p.active.value.end != q.previous.value.end.OtherEnd()
                                  || q.previous.value.establishedAt + 15_000 <= deadline
    ensures Unheard(p, q, deadline)
  {
    forall payload, padding, sentAt, now: nat | deadline <= now ensures Missed(p, q, payload, padding, sentAt, now) {
      if q.previous.Some? && p.active.value.end == q.previous.value.end.OtherEnd() {
        LatePacketOpensWhileYoung(p, q, payload, padding, sentAt, now);
      } else {
        StrangePacketIsRefused(p, q, payload, padding, sentAt, now);
      }
    }
  }

  /**
   * Two rekeys cross: each side answers the other's message, which gives it a session, and then
   * completes another by joining its own. Each then sends in a session that the other holds as its
   * previous one, and is heard no more once that is 15 s old.
   */
  lemma CrossedRekeysPartTheEnds(left: PeerState, right: PeerState, magic: Magic, hsL: nat, hsR: nat,
                                 idL: nat, idR: nat, padL: Bytes, padR: Bytes,
                                 answeredL: nat, answeredR: nat, joinedL: nat, joinedR: nat)
    requires left.handshake == Some(hsL) && right.handshake == Some(hsR) && idL != idR
    requires left.active.Some? && right.active.Some?
    ensures var l1 := Answer(left, magic, hsR, idL, padL, answeredL, true).peer;
            var r1 := Answer(right, magic, hsL, idR, padR, answeredR, true).peer;
            var joinL := Join(l1, Response(hsL, idR, padR), joinedL, true);
            var joinR := Join(r1, Response(hsR, idL, padL), joinedR, true);
            && Holds(l1, SessionKey(idL, Responder)) && Completing(joinL.events)
            && Holds(r1, SessionKey(idR, Responder)) && Completing(joinR.events)
            && Holds(joinL.peer, SessionKey(idR, Initiator)) && Holds(joinR.peer, SessionKey(idL, Initiator))
            && !Agree(joinL.peer, joinR.peer)
            && Unheard(joinL.peer, joinR.peer, answeredR + 15_000)
            && Unheard(joinR.peer, joinL.peer, answeredL + 15_000)
  {
    hide Encrypt, Decrypt, Unheard, ReadResp;
    ResponseIsRead(hsL, idR, padR);
    ResponseIsRead(hsR, idL, padL);
    var joinL := Join(Answer(left, magic, hsR, idL, padL, answeredL, true).peer, Response(hsL, idR, padR), joinedL,
                      true);
    var joinR := Join(Answer(right, magic, hsL, idR, padR, answeredR, true).peer, Response(hsR, idL, padL), joinedR,
                      true);
    assert joinL.events[1].Joined? && joinR.events[1].Joined?;
    OldSessionIsUnheard(joinL.peer, joinR.peer, answeredR + 15_000);
    OldSessionIsUnheard(joinR.peer, joinL.peer, answeredL + 15_000);
  }

  /**
   * One handshake message arrives twice and is answered twice; the second answer finds no handshake.
   * The initiator never hears the responder again, who hears it until the first session is 15 s old.
   */
  lemma RepeatedOfferPartsTheEnds(left: PeerState, right: PeerState, magic: Magic, hs: nat, id1: nat, id2: nat,
                                  pad1: Bytes, pad2: Bytes, answered1: nat, answered2: nat, joined: nat, later: nat)
    requires left.handshake == Some(hs) && id1 != id2 && Deaf(left, SessionKey(id2, Initiator))
    ensures var l := Join(left, Response(hs, id1, pad1), joined, true).peer;
            var r1 := Answer(right, magic, hs, id1, pad1, answered1, true).peer;
            var again := Answer(r1, magic, hs, id2, pad2, answered2, true);
            && Join(l, Response(hs, id2, pad2), later, true).peer == l
            && Holds(l, SessionKey(id1, Initiator)) && Holds(r1, SessionKey(id1, Responder)) && Agree(l, r1)
            && Completing(again.events) && Holds(again.peer, SessionKey(id2, Responder)) && !Agree(l, again.peer)
            && Unheard(again.peer, l, 0) && Unheard(l, again.peer, answered1 + 15_000)
  {
    hide Encrypt, Decrypt, Unheard, ReadResp;
    ResponseIsRead(hs, id1, pad1);
    var l := Join(left, Response(hs, id1, pad1), joined, true).peer;
    var r1 := Answer(right, magic, hs, id1, pad1, answered1, true).peer;
    var again := Answer(r1, magic, hs, id2, pad2, answered2, true);
    assert again.events[1].Answered?;
    OldSessionIsUnheard(l, again.peer, answered1 + 15_000);
    OldSessionIsUnheard(again.peer, l, 0);
  }

  /**
   * A rekey due for age is answered, and the answer is lost or still under way: the responder has
   * completed a handshake and its initiator has not. Neither hears the other until the answer comes.
   */
  lemma LostAnswerPartsTheEnds(left: PeerState, right: PeerState, magic: Magic, hs: nat, id: nat, pad: Bytes,
                               answered: nat)
    requires Agree(left, right) && Deaf(left, SessionKey(id, Initiator)) && left.active.value.end.id != id
    requires Secs(answered, right.active.value.establishedAt) > 120
    ensures var o := Answer(right, magic, hs, id, pad, answered, true);
            && Completing(o.events) && Holds(o.peer, SessionKey(id, Responder)) && !Agree(left, o.peer)
            && Unheard(left, o.peer, answered) && Unheard(o.peer, left, 0)
  {
    hide Encrypt, Decrypt, Unheard;
    var o := Answer(right, magic, hs, id, pad, answered, true);
    assert o.events[1].Answered?;
    OldSessionIsUnheard(left, o.peer, answered);
    OldSessionIsUnheard(o.peer, left, 0);
  }
}
