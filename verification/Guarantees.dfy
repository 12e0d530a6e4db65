/** Padding is invisible exactly where the source's own length test can see it. */
module Padding {
  import opened Wrappers
  import opened Words
  import opened Packet
  import opened Noise
  import opened Replay
  import opened PeerModel

  /** Not IPv4, or the Total Length field is the size. */
  predicate LengthHonest(payload: Bytes) {
    HasHeader(payload) ==> TotalLength(payload) == |payload|
  }

  lemma HeaderSurvivesPadding(payload: Bytes, padding: Bytes)
    requires IsIpv4(payload)
    ensures IsIpv4(payload + padding)
    ensures ParseIpv4TotalLength(payload + padding) == ParseIpv4TotalLength(payload)
  {
    assert (payload + padding)[2..4] == payload[2..4];
  }

  lemma UnpadUndoesPad(payload: Bytes, padding: Bytes)
    requires LengthHonest(payload)
    ensures Unpad(Pad(payload, padding)) == payload
  {
    HeaderFields(payload);
    if IsIpv4(payload) {
      HeaderSurvivesPadding(payload, padding);
      assert (payload + padding)[..|payload|] == payload;
    }
  }

  /** The payload comes back under every padding the sender may draw, exactly when its length is honest. */
  lemma PaddingRoundTrip(payload: Bytes)
    ensures (forall padding: Bytes | |padding| <= 128 :: Unpad(Pad(payload, padding)) == payload) <==>
            LengthHonest(payload)
  {
    if LengthHonest(payload) {
      forall padding: Bytes | |padding| <= 128 ensures Unpad(Pad(payload, padding)) == payload {
        UnpadUndoesPad(payload, padding);
      }
    } else {
      HeaderFields(payload);
      var padding := if ParseIpv4TotalLength(payload).value < |payload| then [] else [0];
      HeaderSurvivesPadding(payload, padding);
      assert |Unpad(Pad(payload, padding))| != |payload|;
    }
  }

  /** Nonce and ciphertext are found where they were put. */
  lemma DataPacketLayout(n: u64, m: Msg)
    ensures var body := Bytewise(ToBigEndian(n, 8)) + Octets(m);
            |body| == 8 + Size(m) && body[8..] == Octets(m) && NonceOf(body) == n
  {
    hide Octets, Bytewise, Values, ToBigEndian;
    var body := Bytewise(ToBigEndian(n, 8)) + Octets(m);
    assert body[..8] == Bytewise(ToBigEndian(n, 8));
    ValuesOfBytewise(ToBigEndian(n, 8));
    WidthValues();
    BigEndianRoundTrip(n, 8);
  }

  /** Whatever `encrypt_packet` produces, the other end opens, if its window still takes the nonce. */
  lemma SealedPacketOpens(p: PeerState, q: PeerState, payload: Bytes, padding: Bytes, sentAt: nat, now: nat)
    requires p.active.Some? && q.active.Some?
    requires q.active.value.end == p.active.value.end.OtherEnd()
    requires Accepts(q.active.value.window, p.active.value.txNonce)
    ensures var wire := Encrypt(p, payload, padding, sentAt, true).result;
            && wire.Some? && wire.value[0] == Known(p.magic.data)
            && Decrypt(q, wire.value[1..], now).result == Some(Unpad(Pad(payload, padding)))
            && (LengthHonest(payload) ==> Decrypt(q, wire.value[1..], now).result == Some(payload))
  {
    hide Octets, Bytewise, NonceOf, Unpad, Pad, Recognize, ToBigEndian;
    var s := p.active.value;
    var m := Sealed(s.end, s.txNonce, Pad(payload, padding));
    var wire := Encrypt(p, payload, padding, sentAt, true).result.value;
    var body := wire[1..];
    assert body == Bytewise(ToBigEndian(s.txNonce, 8)) + Octets(m);
    DataPacketLayout(s.txNonce, m);
    RecognizesItsOwnOctets(m);
    assert Open(q.active.value.end, s.txNonce, body[8..]) == Some(Pad(payload, padding));
    if LengthHonest(payload) {
      UnpadUndoesPad(payload, padding);
    }
  }

  /** What `q` makes of what `p` seals. */
  function Through(p: PeerState, q: PeerState, payload: Bytes, padding: Bytes, sentAt: nat, now: nat): Option<Bytes> {
    match Encrypt(p, payload, padding, sentAt, true).result
    case Some(wire) => Decrypt(q, wire[1..], now).result
    case None => None
  }

  /** Sealing and opening gives a payload back under every padding exactly if its Total Length is its size. */
  lemma SealedComesBackIffLengthIsRight(p: PeerState, q: PeerState, payload: Bytes, sentAt: nat, now: nat)
    requires p.active.Some? && q.active.Some?
    requires q.active.value.end == p.active.value.end.OtherEnd()
    requires Accepts(q.active.value.window, p.active.value.txNonce)
    ensures (forall padding: Bytes | |padding| <= 128 ::
               Through(p, q, payload, padding, sentAt, now) == Some(payload)) <==>
            (|payload| >= 20 && 0x40 <= payload[0] <= 0x4F ==>
               256 * payload[2] as nat + payload[3] as nat == |payload|)
  {
    hide Encrypt, Decrypt, Unpad, Pad;
    PaddingRoundTrip(payload);
    forall padding: Bytes | |padding| <= 128
      ensures Through(p, q, payload, padding, sentAt, now) == Some(Unpad(Pad(payload, padding)))
    {
      SealedPacketOpens(p, q, payload, padding, sentAt, now);
    }
  }

  /** A packet for a replaced session opens exactly while that session is less than 15 s old. */
  lemma LatePacketOpensWhileYoung(p: PeerState, q: PeerState, payload: Bytes, padding: Bytes, sentAt: nat, now: nat)
    requires p.active.Some? && q.previous.Some?
    requires q.previous.value.end == p.active.value.end.OtherEnd()
    requires q.active.Some? ==> q.active.value.end != q.previous.value.end
    ensures var wire := Encrypt(p, payload, padding, sentAt, true).result;
            && wire.Some?
            && (Decrypt(q, wire.value[1..], now).result.Some? <==>
                now < q.previous.value.establishedAt + 15_000
                && Accepts(q.previous.value.window, p.active.value.txNonce))
  {
    hide Octets, Bytewise, NonceOf, Unpad, Pad, Recognize, ToBigEndian;
    var s := p.active.value;
    var m := Sealed(s.end, s.txNonce, Pad(payload, padding));
    var body := Encrypt(p, payload, padding, sentAt, true).result.value[1..];
    assert body == Bytewise(ToBigEndian(s.txNonce, 8)) + Octets(m);
    DataPacketLayout(s.txNonce, m);
    RecognizesItsOwnOctets(m);
  }

  /** So a session replaced because it was older than 120 s opens nothing more: it gets no grace period. */
  lemma AgedSessionHasNoGrace(p: PeerState, q: PeerState, end: SessionKey, payload: Bytes, padding: Bytes,
                              sentAt: nat, replaced: nat, now: nat)
    requires p.active.Some? && q.active.Some? && replaced <= now
    requires q.active.value.end == p.active.value.end.OtherEnd() && q.active.value.end != end
    requires Secs(replaced, q.active.value.establishedAt) > 120
    ensures var wire := Encrypt(p, payload, padding, sentAt, true).result;
            wire.Some? && Decrypt(Establish(q, end, replaced), wire.value[1..], now).result.None?
  {
    hide Decrypt, Encrypt;
    LatePacketOpensWhileYoung(p, Establish(q, end, replaced), payload, padding, sentAt, now);
  }

  /** Handshake messages are cut out of any padding at 96 and 48 octets. */
  lemma HandshakeSurvivesPadding(p: PeerState, q: PeerState, local: Key, hs: nat, id: nat, magic: Magic,
                                 pad1: Bytes, pad2: Bytes, now: nat)
    ensures var init := Initiate(p, local, hs, pad1, now, true).result.value;
            |init| == 97 + |pad1| && ReadInit(p.pubkey, Cut(init[1..], 96)) == Some((hs, local))
    ensures var resp := Answer(q, magic, hs, id, pad2, now, true).result.value;
            |resp| == 49 + |pad2| && ReadResp(hs, Cut(resp[1..], 48)) == Some(id)
  {
    var init := Initiate(p, local, hs, pad1, now, true).result.value;
    var resp := Answer(q, magic, hs, id, pad2, now, true).result.value;
    assert init[1..] == Octets(Init(hs, local, p.pubkey)) + Bytewise(pad1);
    assert resp[1..] == Octets(Resp(hs, id)) + Bytewise(pad2);
    CutDropsPadding(Init(hs, local, p.pubkey), pad1);
    CutDropsPadding(Resp(hs, id), pad2);
    RecognizesItsOwnOctets(Init(hs, local, p.pubkey));
    RecognizesItsOwnOctets(Resp(hs, id));
  }
}

/** What the rules of `Protocol.EventOk` mean for whoever watches the history of a run. */
module Guarantees {
  import opened Wrappers
  import opened Noise
  import opened PeerModel
  import opened DaemonModel
  import opened Protocol
  import opened Padding
  import opened World
  import opened PeerSafety
  import opened Network

  lemma RulesAt(h: History, i: nat)
    requires HistoryOk(h) && i < |h|
    ensures EventOk(h[..i], h[i])
  {
  }

  lemma {:induction false} OpenedIsRecorded(h: History, k: nat)
    requires k < |h| && h[k].event.Opened?
    ensures h[k].event.nonce in OpenedNonces(h, h[k].event.end)
  {
    if k < |h| - 1 {
      OpenedIsRecorded(h[..|h| - 1], k);
    }
  }

  lemma DeliveryIsExplainedOnce(h: History, j: nat)
    requires HistoryOk(h) && j < |h| && h[j].event.Opened?
    ensures exists i :: 0 <= i < j && Explains(h[i], h[j])
    ensures forall k | 0 <= k < |h| && k != j && h[k].event.Opened? && h[k].event.end == h[j].event.end ::
              h[k].event.nonce != h[j].event.nonce
  {
    hide HistoryOk, OpenedNonces;
    RulesAt(h, j);
    var s :| s in h[..j] && Explains(s, h[j]);
    var i :| 0 <= i < j && h[..j][i] == s;
    assert Explains(h[i], h[j]);
    forall k | 0 <= k < |h| && k != j && h[k].event.Opened? && h[k].event.end == h[j].event.end
      ensures h[k].event.nonce != h[j].event.nonce
    {
      if k < j {
        OpenedIsRecorded(h[..j], k);
      } else {
        RulesAt(h, k);
        OpenedIsRecorded(h[..k], j);
      }
    }
  }

  lemma {:induction false} SealCountGrows(h: History, i: nat, j: nat, end: SessionKey)
    requires i <= j <= |h|
    ensures SealCount(h[..i], end) <= SealCount(h[..j], end)
    decreases j
  {
    if i < j {
      SealCountGrows(h, i, j - 1, end);
      assert h[..j][..j - 1] == h[..j - 1];
    }
  }

  lemma NonceIsSealedOnce(h: History, i: nat, j: nat, end: SessionKey)
    requires HistoryOk(h) && i < j < |h|
    requires Seals(h[i], end) && Seals(h[j], end) && SealCount(h, end) <= U64_LIMIT
    ensures h[i].event.nonce != h[j].event.nonce
  {
    hide HistoryOk;
    RulesAt(h, i);
    RulesAt(h, j);
    CountsBefore(h, i, j, end);
  }

  lemma CountsBefore(h: History, i: nat, j: nat, end: SessionKey)
    requires i < j < |h| && Seals(h[i], end) && Seals(h[j], end)
    ensures SealCount(h[..i], end) < SealCount(h[..j], end) < SealCount(h, end)
  {
    assert h[..i + 1][..i] == h[..i] && h[..j + 1][..j] == h[..j];
    SealCountGrows(h, i + 1, j, end);
    SealCountGrows(h, j + 1, |h|, end);
    assert h[..|h|] == h;
  }

  lemma ExplanationIsUnique(h: History, i: nat, j: nat)
    requires HistoryOk(h) && i < |h| && j < |h| && Explains(h[i], h[j])
    ensures LengthHonest(h[i].event.payload) ==> h[j].event.payload == h[i].event.payload
    ensures SealCount(h, h[i].event.sealer) <= U64_LIMIT ==>
              forall k | 0 <= k < |h| && Explains(h[k], h[j]) :: k == i
  {
    var s := h[i].event;
    assert EventOk(h[..i], h[i]) && EventOk(h[..j], h[j]);
    var padding :| s.plain == Pad(s.payload, padding);
    if LengthHonest(s.payload) {
      UnpadUndoesPad(s.payload, padding);
    }
    if SealCount(h, s.sealer) <= U64_LIMIT {
      forall k: nat | k < |h| && Explains(h[k], h[j]) ensures k == i {
        if k < i {
          NonceIsSealedOnce(h, k, i, s.sealer);
        } else if i < k {
          NonceIsSealedOnce(h, i, k, s.sealer);
        }
      }
    }
  }

  lemma RetiredEndIsSilent(h: History, i: nat, j: nat, end: SessionKey)
    requires HistoryOk(h) && i < j < |h| && h[i].event == Retired(end)
    ensures !Seals(h[j], end)
  {
    assert EventOk(h[..j], h[j]);
    InPrefix(h, i, j);
  }

  // ----------------------------------------------------------- in every run

  /**
   * Every packet a daemon delivers was sealed earlier, by the very peer it is attributed to, for
   * this daemon, in the same session; and no session delivers a nonce twice, whichever slot held
   * the session at the time.
   */
  lemma DeliveriesAreAuthenticAndUnique(ws: seq<World>, k: nat, j: nat)
    requires Run(ws) && k < |ws| && j < |ws[k].history| && ws[k].history[j].event.Opened?
    ensures exists i :: 0 <= i < j && Explains(ws[k].history[i], ws[k].history[j])
    ensures forall m | 0 <= m < |ws[k].history| && m != j && ws[k].history[m].event.Opened?
                       && ws[k].history[m].event.end == ws[k].history[j].event.end ::
              ws[k].history[m].event.nonce != ws[k].history[j].event.nonce
  {
    hide Run, WorldSafe, HistoryOk;
    RunsAreSafe(ws, k);
    DeliveryIsExplainedOnce(ws[k].history, j);
  }

  /** Up to 2^64 calls, no nonce is sealed twice with one end of a session. */
  lemma NoncesAreNeverReused(ws: seq<World>, k: nat, i: nat, j: nat, end: SessionKey)
    requires Run(ws) && k < |ws| && i < j < |ws[k].history|
    requires Seals(ws[k].history[i], end) && Seals(ws[k].history[j], end) && SealCount(ws[k].history, end) <= U64_LIMIT
    ensures ws[k].history[i].event.nonce != ws[k].history[j].event.nonce
  {
    hide Run, WorldSafe, HistoryOk;
    RunsAreSafe(ws, k);
    NonceIsSealedOnce(ws[k].history, i, j, end);
  }

  /** So the sealing behind a delivery is unique, and an honest payload arrives as it was sent. */
  lemma DeliveredPayloadIsThePayloadSealed(ws: seq<World>, k: nat, i: nat, j: nat)
    requires Run(ws) && k < |ws| && i < |ws[k].history| && j < |ws[k].history|
    requires Explains(ws[k].history[i], ws[k].history[j])
    ensures LengthHonest(ws[k].history[i].event.payload) ==>
              ws[k].history[j].event.payload == ws[k].history[i].event.payload
    ensures SealCount(ws[k].history, ws[k].history[i].event.sealer) <= U64_LIMIT ==>
              forall m | 0 <= m < |ws[k].history| && Explains(ws[k].history[m], ws[k].history[j]) :: m == i
  {
    hide Run, WorldSafe, HistoryOk;
    RunsAreSafe(ws, k);
    ExplanationIsUnique(ws[k].history, i, j);
  }

  /** Once a session has left the active slot, nobody seals with that end again. */
  lemma RetiredSessionsSealNoMore(ws: seq<World>, k: nat, i: nat, j: nat, end: SessionKey)
    requires Run(ws) && k < |ws| && i < j < |ws[k].history| && ws[k].history[i].event == Retired(end)
    ensures !Seals(ws[k].history[j], end)
  {
    hide Run, WorldSafe, HistoryOk;
    RunsAreSafe(ws, k);
    RetiredEndIsSilent(ws[k].history, i, j, end);
  }

  lemma {:induction false} SlotIsInTable(local: Key, ps: Peers, j: nat)
    requires j < |ps|
    ensures Secrets(local, ps[j]) <= All(local, ps)
  {
    hide Secrets;
    if j < |ps| - 1 {
      SlotIsInTable(local, ps[..|ps| - 1], j);
    }
  }

  lemma TableIsInWorld(nodes: seq<Node>, i: nat)
    requires i < |nodes|
    ensures Held(nodes[i]) <= Everyone(nodes)
  {
    SplitWorld(nodes, i);
  }

  /**
   * In every reachable state, `tx_nonce` and `tx_bytes` count the `encrypt_packet` calls and
   * payload bytes of the session (modulo 2^64), and the window holds what the session delivered.
   */
  lemma CountersAgreeWithHistory(ws: seq<World>, k: nat, i: nat, j: nat, s: SessionState)
    requires Run(ws) && k < |ws| && i < |ws[k].nodes| && j < |ws[k].nodes[i].peers|
    requires var p := ws[k].nodes[i].peers[j]; p.active == Some(s) || p.previous == Some(s)
    ensures s.txNonce == SealCount(ws[k].history, s.end) % U64_LIMIT
    ensures s.txBytes == SealBytes(ws[k].history, s.end) % U64_LIMIT
    ensures s.window == OpenedNonces(ws[k].history, s.end)
  {
    hide Run, HistoryOk, Unique;
    RunsAreSafe(ws, k);
    var n := ws[k].nodes[i];
    var p := n.peers[j];
    TableIsInWorld(ws[k].nodes, i);
    SlotIsInTable(n.config.local, n.peers, j);
    var x := Live(n.config.local, p.pubkey, s, p.active == Some(s));
    assert x in Secrets(n.config.local, p);
    assert x in Everyone(ws[k].nodes);
  }
}
