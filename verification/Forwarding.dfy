/**
 * When a frame arrives: over all runs of the relay, what becomes of each frame that is read, in terms
 * of the moves of the run and of what the connections have received, hold in their channels, and were
 * written.
 */
module RelayForwarding {
  import opened Wrappers
  import opened Noise
  import opened RelayCodec
  import opened RelayRouter

  /** Read number `n` of connection `c` is in the channel of `d` or written to it. */
  ghost predicate Lands(r: Relay, c: nat, n: nat, d: nat) {
    d < |r.conns| && exists x | x in r.conns[d].written + r.conns[d].channel :: x.src == c && x.index == n
  }

  /** Frames with this key go to connection `d`. */
  ghost predicate Reaches(r: Relay, key: Key, d: nat) {
    RoutedTo(r, d) && r.conns[d].identity == key
  }

  /** Move `m` is the next one after `j` by which `c` hands over what it read. */
  ghost predicate HandsOver(ms: seq<Move>, c: nat, j: nat, m: nat) {
    j < m < |ms| && ms[m] == Push(c) && forall l | j < l < m :: ms[l] != Push(c)
  }

  /** ... and it finds `d` open. */
  ghost predicate HandsTo(rs: seq<Relay>, ms: seq<Move>, c: nat, j: nat, d: nat, m: nat) {
    && HandsOver(ms, c, j, m) && |rs| == |ms| + 1 && d < |rs[m].conns| && rs[m].conns[d].open
  }

  /** Move `j` reads `frame` from connection `c`. */
  ghost predicate Reads(rs: seq<Relay>, ms: seq<Move>, j: nat, c: nat, frame: Frame) {
    Played(rs, ms) && j < |ms| && ms[j] == Read(c, frame)
  }

  /** How the frame goes on: its sender's key in place of its destination's. */
  function Forwarded(r: Relay, c: nat, frame: Frame): Item
    requires c < |r.conns|
  {
    Item(c, |r.conns[c].received|, r.conns[c].identity, frame.payload)
  }

  // ------------------------------------------------------------- one move at a time

  lemma PlayedState(rs: seq<Relay>, ms: seq<Move>, k: nat)
    requires Played(rs, ms) && k < |rs|
    ensures RelayOk(rs[k])
  {
    hide Do, Enabled, RelayOk;
    PlayedIsRun(rs, ms);
    RunsAreOk(rs, k);
  }

  lemma PlayedMove(rs: seq<Relay>, ms: seq<Move>, k: nat)
    requires Played(rs, ms) && k < |ms|
    ensures |rs| == |ms| + 1 && Enabled(rs[k], ms[k]) && rs[k + 1] == Do(rs[k], ms[k]) && RelayOk(rs[k])
  {
    hide Do, Enabled, RelayOk;
    PlayedIsRun(rs, ms);
    RunsAreOk(rs, k);
  }

  /** A read its sender is done with lands nowhere any more. */
  lemma DoneStaysPut(r: Relay, m: Move, c: nat, n: nat)
    requires RelayOk(r) && Enabled(r, m) && c < |r.conns| && n < Done(r.conns[c])
    ensures var s := Do(r, m);
            && c < |s.conns| && n < Done(s.conns[c])
            && forall d: nat :: Lands(s, c, n, d) <==> Lands(r, c, n, d)
  {
    hide LandedOk, Disjoint, Genuine;
    var s := Do(r, m);
    forall d: nat ensures Lands(s, c, n, d) <==> Lands(r, c, n, d) {
      if d < |r.conns| {
        LandedAfter(r, m, d);
        if m.Push? && r.conns[m.conn].sending.value.0 == d && r.conns[d].open {
          assert SendingOk(r.conns, m.conn);
          LandsOneMore(r, s, c, n, d, r.conns[m.conn].sending.value.1);
        } else {
          assert Landed(s.conns[d]) == Landed(r.conns[d]);
        }
      }
    }
  }

  lemma LandsOneMore(r: Relay, s: Relay, c: nat, n: nat, d: nat, item: Item)
    requires d < |r.conns| && d < |s.conns| && Landed(s.conns[d]) == Landed(r.conns[d]) + [item]
    ensures Lands(s, c, n, d) <==> Lands(r, c, n, d) || (item.src == c && item.index == n)
  {
    var items := Landed(r.conns[d]);
    forall x ensures x in items + [item] <==> x in items || x == item {
      if x == item {
        assert (items + [item])[|items|] == item;
      }
    }
  }

  /** What has landed at a connection changes only when something is pushed to it while it is open. */
  lemma LandedAfter(r: Relay, m: Move, d: nat)
    requires Enabled(r, m) && d < |r.conns|
    ensures var s := Do(r, m);
            && d < |s.conns|
            && Landed(s.conns[d]) == Landed(r.conns[d]) +
                                     if m.Push? && r.conns[m.conn].sending.value.0 == d && r.conns[d].open
                                     then [r.conns[m.conn].sending.value.1] else []
  {
    if m.Write? && m.conn == d {
      WriteMovesFront(r.conns[d]);
    }
  }

  /** Between read and hand-over: the item waits with `c`, and has landed nowhere. */
  ghost predicate Waits(r: Relay, c: nat, n: nat, d: nat, item: Item) {
    && c < |r.conns| && d < |r.conns| && r.conns[c].open && r.conns[c].sending == Some((d, item))
    && item.src == c && item.index == n && Done(r.conns[c]) == n
  }

  lemma UndoneLandsNowhere(r: Relay, c: nat, n: nat, d: nat)
    requires RelayOk(r) && c < |r.conns| && Done(r.conns[c]) <= n
    ensures !Lands(r, c, n, d)
  {
    hide Disjoint, Genuine;
    if d < |r.conns| {
      assert LandedOk(r.conns, d);
      forall x | x in r.conns[d].written + r.conns[d].channel && x.src == c ensures x.index != n {
        assert x in Landed(r.conns[d]) && Settled(r.conns, x, r.conns[d].identity);
      }
    }
  }

  /** The read itself: with a route the item waits, without one it is gone. */
  lemma AfterRead(r: Relay, c: nat, frame: Frame)
    requires RelayOk(r) && Enabled(r, Read(c, frame))
    ensures var s, n := Do(r, Read(c, frame)), |r.conns[c].received|;
            && (forall d: nat :: !Lands(s, c, n, d))
            && (forall d: nat | Reaches(r, frame.key, d) :: Waits(s, c, n, d, Forwarded(r, c, frame)))
            && ((forall d: nat :: !Reaches(r, frame.key, d)) ==> c < |s.conns| && n < Done(s.conns[c]))
  {
    hide LandedOk, Disjoint, Genuine;
    var s, n := Do(r, Read(c, frame)), |r.conns[c].received|;
    forall d: nat ensures !Lands(s, c, n, d) {
      UndoneLandsNowhere(r, c, n, d);
      if d < |r.conns| {
        LandedAfter(r, Read(c, frame), d);
        assert Landed(s.conns[d]) == Landed(r.conns[d]);
      }
    }
    if frame.key in r.routes {
      assert Reaches(r, frame.key, r.routes[frame.key]);
    }
  }

  lemma WaitsOn(r: Relay, m: Move, c: nat, n: nat, d: nat, item: Item)
    requires RelayOk(r) && Enabled(r, m) && Waits(r, c, n, d, item)
    ensures var s := Do(r, m);
            if m == Push(c) then
              && c < |s.conns| && n < Done(s.conns[c])
              && (forall e: nat :: Lands(s, c, n, e) <==> e == d && r.conns[d].open)
              && (r.conns[d].open ==> d < |s.conns| && s.conns[d].channel == r.conns[d].channel + [item]
                                      && s.conns[d].written == r.conns[d].written)
            else if m == Disconnect(c) then
              && c < |s.conns| && n < Done(s.conns[c]) && !s.conns[c].open
              && (forall e: nat :: !Lands(s, c, n, e))
            else Waits(s, c, n, d, item)
  {
    hide LandedOk, Disjoint, Genuine;
    var s := Do(r, m);
    forall e: nat ensures m == Push(c) ==> (Lands(s, c, n, e) <==> e == d && r.conns[d].open)
      ensures m == Disconnect(c) ==> !Lands(s, c, n, e)
    {
      UndoneLandsNowhere(r, c, n, e);
      if e < |r.conns| && (m == Push(c) || m == Disconnect(c)) {
        LandedAfter(r, m, e);
        if m == Push(c) && e == d && r.conns[d].open {
          LandsOneMore(r, s, c, n, e, item);
        } else {
          assert Landed(s.conns[e]) == Landed(r.conns[e]);
        }
      }
    }
  }

  lemma ClosedStaysClosed(r: Relay, m: Move, c: nat)
    requires Enabled(r, m) && c < |r.conns| && !r.conns[c].open
    ensures c < |Do(r, m).conns| && !Do(r, m).conns[c].open && m != Push(c)
  {
  }

  // ----------------------------------------------------------------- every read

  /** Neither handed over nor hung up between the moves `j` and `k`. */
  ghost predicate Holding(ms: seq<Move>, c: nat, j: nat, k: nat)
    requires k <= |ms|
  {
    forall l | j < l < k :: ms[l] != Push(c) && ms[l] != Disconnect(c)
  }

  ghost predicate HandedTo(rs: seq<Relay>, ms: seq<Move>, c: nat, j: nat, d: nat, k: nat) {
    exists m: nat :: m < k && HandsTo(rs, ms, c, j, d, m)
  }

  lemma {:induction false} FrameSoFar(rs: seq<Relay>, ms: seq<Move>, j: nat, c: nat, frame: Frame, d: nat, k: nat)
    requires Reads(rs, ms, j, c, frame) && j < k <= |ms| && Reaches(rs[j], frame.key, d)
    ensures |rs| == |ms| + 1 && c < |rs[j].conns| && c < |rs[k].conns|
    ensures var n := |rs[j].conns[c].received|;
            && (if Holding(ms, c, j, k) then Waits(rs[k], c, n, d, Forwarded(rs[j], c, frame))
                else n < Done(rs[k].conns[c]) && ((forall l | j < l < k :: ms[l] != Push(c)) ==> !rs[k].conns[c].open))
            && (forall e: nat :: Lands(rs[k], c, n, e) <==> e == d && HandedTo(rs, ms, c, j, d, k))
    decreases k
  {
    hide Do, Enabled, RelayOk, Played, Lands, Waits;
    PlayedMove(rs, ms, j);
    PlayedMove(rs, ms, k - 1);
    ReadsFromConn(rs[j], c, frame);
    var n, item := |rs[j].conns[c].received|, Forwarded(rs[j], c, frame);
    if k == j + 1 {
      AfterRead(rs[j], c, frame);
      WaitsWithC(rs[k], c, n, d, item);
    } else {
      FrameSoFar(rs, ms, j, c, frame, d, k - 1);
      var r, m := rs[k - 1], ms[k - 1];
      if Holding(ms, c, j, k - 1) {
        WaitsOn(r, m, c, n, d, item);
        WaitsWithC(r, c, n, d, item);
        if m == Push(c) {
          assert HandsOver(ms, c, j, k - 1);
          assert r.conns[d].open <==> HandsTo(rs, ms, c, j, d, k - 1);
        } else if m != Disconnect(c) {
          WaitsWithC(rs[k], c, n, d, item);
          PlayedState(rs, ms, k);
          WaitingLandsNowhere(rs[k], c, n, d, item);
        }
      } else {
        DoneStaysPut(r, m, c, n);
        if !r.conns[c].open {
          ClosedStaysClosed(r, m, c);
        }
        assert !HandsOver(ms, c, j, k - 1);
      }
    }
  }

  lemma ReadsFromConn(r: Relay, c: nat, frame: Frame)
    requires Enabled(r, Read(c, frame))
    ensures c < |r.conns|
  {
  }

  lemma WaitsWithC(r: Relay, c: nat, n: nat, d: nat, item: Item)
    requires Waits(r, c, n, d, item)
    ensures c < |r.conns| && d < |r.conns| && r.conns[c].open
  {
  }

  lemma WaitingLandsNowhere(r: Relay, c: nat, n: nat, d: nat, item: Item)
    requires RelayOk(r) && Waits(r, c, n, d, item)
    ensures forall e: nat :: !Lands(r, c, n, e)
  {
    hide RelayOk, Lands;
    forall e: nat ensures !Lands(r, c, n, e) {
      UndoneLandsNowhere(r, c, n, e);
    }
  }

  /**
   * A frame lands at the connection its key leads to when it is read, and nowhere else, exactly if its
   * sender's next hand-over finds that connection open. It then stands last in the channel there.
   */
  lemma FrameLandsAtItsHandOver(rs: seq<Relay>, ms: seq<Move>, j: nat, c: nat, frame: Frame, d: nat, k: nat)
    requires Reads(rs, ms, j, c, frame) && j < k <= |ms| && Reaches(rs[j], frame.key, d)
    ensures |rs| == |ms| + 1 && c < |rs[j].conns|
    ensures forall e: nat :: Lands(rs[k], c, |rs[j].conns[c].received|, e) <==> e == d && HandedTo(rs, ms, c, j, d, k)
    ensures forall m: nat | m < k && HandsTo(rs, ms, c, j, d, m) ::
              && d < |rs[m + 1].conns|
              && rs[m + 1].conns[d].channel == rs[m].conns[d].channel + [Forwarded(rs[j], c, frame)]
              && rs[m + 1].conns[d].written == rs[m].conns[d].written
  {
    hide Do, Enabled, RelayOk, Played, Lands, Waits;
    FrameSoFar(rs, ms, j, c, frame, d, k);
    var n, item := |rs[j].conns[c].received|, Forwarded(rs[j], c, frame);
    forall m: nat | m < k && HandsTo(rs, ms, c, j, d, m)
      ensures d < |rs[m + 1].conns| && rs[m + 1].conns[d].written == rs[m].conns[d].written
      ensures rs[m + 1].conns[d].channel == rs[m].conns[d].channel + [item]
    {
      FrameSoFar(rs, ms, j, c, frame, d, m);
      PlayedMove(rs, ms, m);
      PushIsOpen(rs[m], c);
      WaitsOn(rs[m], ms[m], c, n, d, item);
    }
  }

  lemma PushIsOpen(r: Relay, c: nat)
    requires Enabled(r, Push(c))
    ensures c < |r.conns| && r.conns[c].open
  {
  }

  /** A frame whose key leads nowhere when it is read never lands. */
  lemma {:induction false} UnroutedFrameLandsNowhere(rs: seq<Relay>, ms: seq<Move>, j: nat, c: nat, frame: Frame,
                                                     k: nat)
    requires Reads(rs, ms, j, c, frame) && j < k <= |ms| && forall d: nat :: !Reaches(rs[j], frame.key, d)
    ensures |rs| == |ms| + 1 && c < |rs[j].conns| && c < |rs[k].conns|
    ensures var n := |rs[j].conns[c].received|; n < Done(rs[k].conns[c]) && forall d: nat :: !Lands(rs[k], c, n, d)
    decreases k
  {
    hide Do, Enabled, RelayOk, Played, Lands, Reaches;
    PlayedMove(rs, ms, j);
    PlayedMove(rs, ms, k - 1);
    ReadsFromConn(rs[j], c, frame);
    if k == j + 1 {
      AfterRead(rs[j], c, frame);
    } else {
      UnroutedFrameLandsNowhere(rs, ms, j, c, frame, k - 1);
      DoneStaysPut(rs[k - 1], ms[k - 1], c, |rs[j].conns[c].received|);
    }
  }

  // -------------------------------------------------------------------- writing

  /** How often `d` writes a frame between the moves `from` and `till`. */
  function Writes(ms: seq<Move>, d: nat, from: nat, till: nat): nat
    requires from <= till <= |ms|
    decreases till
  {
    if from == till then 0 else Writes(ms, d, from, till - 1) + if ms[till - 1] == Write(d) then 1 else 0
  }

  /** Channels are written from the front: nothing is lost, and nothing overtakes. */
  lemma {:induction false} LandedIsWrittenInTurn(rs: seq<Relay>, ms: seq<Move>, d: nat, m: nat, k: nat)
    requires Played(rs, ms) && m <= k <= |ms| && d < |rs[m].conns|
    ensures |rs| == |ms| + 1 && d < |rs[k].conns|
    ensures rs[m].conns[d].written + rs[m].conns[d].channel <= rs[k].conns[d].written + rs[k].conns[d].channel
    ensures |rs[k].conns[d].written| == |rs[m].conns[d].written| + Writes(ms, d, m, k)
    decreases k
  {
    hide Do, Enabled, RelayOk;
    if m < k {
      LandedIsWrittenInTurn(rs, ms, d, m, k - 1);
      PlayedMove(rs, ms, k - 1);
      LandedAfter(rs[k - 1], ms[k - 1], d);
      WrittenAfter(rs[k - 1], ms[k - 1], d);
    }
  }

  lemma WrittenAfter(r: Relay, m: Move, d: nat)
    requires Enabled(r, m) && d < |r.conns|
    ensures d < |Do(r, m).conns|
    ensures |Do(r, m).conns[d].written| == |r.conns[d].written| + if m == Write(d) then 1 else 0
  {
  }

  /** Read number `n` of `c` has been written to `d`. */
  ghost predicate Arrived(r: Relay, c: nat, n: nat, d: nat) {
    d < |r.conns| && exists x | x in r.conns[d].written :: x.src == c && x.index == n
  }

  /** Handed to `d` at move `m`, and everything before it in the channel written since, and then itself. */
  ghost predicate HandedAndWritten(rs: seq<Relay>, ms: seq<Move>, c: nat, j: nat, d: nat, m: nat, k: nat)
    requires k <= |ms|
  {
    m < k && HandsTo(rs, ms, c, j, d, m) && Writes(ms, d, m, k) > |rs[m].conns[d].channel|
  }

  /**
   * When a frame arrives: a frame read while its key leads to `d` has been written to `d` exactly if
   * its sender has handed it over, while `d` was open, and `d` has since written more frames than
   * stood before it. What is written carries the sender's own key and the payload as it was read.
   */
  lemma FrameArrivesIff(rs: seq<Relay>, ms: seq<Move>, j: nat, c: nat, frame: Frame, d: nat, k: nat)
    requires Reads(rs, ms, j, c, frame) && j < k <= |ms| && Reaches(rs[j], frame.key, d)
    ensures |rs| == |ms| + 1 && c < |rs[j].conns|
    ensures Arrived(rs[k], c, |rs[j].conns[c].received|, d) <==>
            exists m: nat :: HandedAndWritten(rs, ms, c, j, d, m, k)
    ensures forall m: nat | HandedAndWritten(rs, ms, c, j, d, m, k) ::
              var at := |rs[m].conns[d].written| + |rs[m].conns[d].channel|;
              && d < |rs[k].conns| && at < |rs[k].conns[d].written|
              && rs[k].conns[d].written[at]
                 == Item(c, |rs[j].conns[c].received|, rs[j].conns[c].identity, frame.payload)
  {
    hide Do, Enabled, RelayOk, Played, Lands, Writes, Arrived;
    FrameLandsAtItsHandOver(rs, ms, j, c, frame, d, k);
    var n := |rs[j].conns[c].received|;
    forall m: nat | m < k && HandsTo(rs, ms, c, j, d, m)
      ensures Writes(ms, d, m, k) > |rs[m].conns[d].channel| <==> Arrived(rs[k], c, n, d)
      ensures Writes(ms, d, m, k) > |rs[m].conns[d].channel| ==>
                var at := |rs[m].conns[d].written| + |rs[m].conns[d].channel|;
                && d < |rs[k].conns| && at < |rs[k].conns[d].written|
                && rs[k].conns[d].written[at] == Forwarded(rs[j], c, frame)
    {
      HandedIsInTurn(rs, ms, j, c, frame, d, m, k);
    }
    if Arrived(rs[k], c, n, d) {
      ArrivedHasLanded(rs[k], c, n, d);
      var m: nat :| m < k && HandsTo(rs, ms, c, j, d, m);
      assert HandedAndWritten(rs, ms, c, j, d, m, k);
    }
  }

  lemma ArrivedHasLanded(r: Relay, c: nat, n: nat, d: nat)
    requires Arrived(r, c, n, d)
    ensures Lands(r, c, n, d)
  {
    var x :| x in r.conns[d].written && x.src == c && x.index == n;
    assert x in r.conns[d].written + r.conns[d].channel;
  }

  lemma HandedIsInTurn(rs: seq<Relay>, ms: seq<Move>, j: nat, c: nat, frame: Frame, d: nat, m: nat, k: nat)
    requires Reads(rs, ms, j, c, frame) && j < m < k <= |ms| && Reaches(rs[j], frame.key, d)
    requires HandsTo(rs, ms, c, j, d, m)
    ensures |rs| == |ms| + 1 && c < |rs[j].conns|
    ensures Writes(ms, d, m, k) > |rs[m].conns[d].channel| <==> Arrived(rs[k], c, |rs[j].conns[c].received|, d)
    ensures Writes(ms, d, m, k) > |rs[m].conns[d].channel| ==>
              var at := |rs[m].conns[d].written| + |rs[m].conns[d].channel|;
              && d < |rs[k].conns| && at < |rs[k].conns[d].written|
              && rs[k].conns[d].written[at] == Forwarded(rs[j], c, frame)
  {
    hide Do, Enabled, RelayOk, Played, Lands, Waits, Writes;
    FrameLandsAtItsHandOver(rs, ms, j, c, frame, d, k);
    assert rs[m + 1].conns[d].channel == rs[m].conns[d].channel + [Forwarded(rs[j], c, frame)];
    LandedIsWrittenInTurn(rs, ms, d, m, k);
    LandedIsWrittenInTurn(rs, ms, d, m + 1, k);
    PlayedState(rs, ms, k);
    var at, item := |rs[m].conns[d].written| + |rs[m].conns[d].channel|, Forwarded(rs[j], c, frame);
    var before := rs[m + 1].conns[d].written + rs[m + 1].conns[d].channel;
    assert before[at] == item;
    assert Landed(rs[k].conns[d])[at] == item;
    InTurn(rs[k], d, at, item);
  }

  lemma InTurn(r: Relay, d: nat, at: nat, item: Item)
    requires RelayOk(r) && d < |r.conns| && at < |Landed(r.conns[d])| && Landed(r.conns[d])[at] == item
    ensures Arrived(r, item.src, item.index, d) <==> at < |r.conns[d].written|
    ensures at < |r.conns[d].written| ==> r.conns[d].written[at] == item
  {
    hide RoutesOk, Disjoint, Settled;
    assert LandedOk(r.conns, d);
    var conn := r.conns[d];
    if at < |conn.written| {
      assert conn.written[at] in conn.written;
    }
    forall x | x in conn.written && x.src == item.src && x.index == item.index ensures at < |conn.written| {
      var b: nat :| b < |conn.written| && conn.written[b] == x;
      assert Landed(conn)[b] == x;
    }
  }

  // -------------------------------------------------------------- nothing blocks

  /** What waits can be handed over unless the channel of an open destination holds 64 frames. */
  lemma HandOverIsPossible(rs: seq<Relay>, ms: seq<Move>, j: nat, c: nat, frame: Frame, d: nat, k: nat)
    requires Reads(rs, ms, j, c, frame) && j < k <= |ms| && Reaches(rs[j], frame.key, d) && Holding(ms, c, j, k)
    ensures |rs| == |ms| + 1 && d < |rs[k].conns|
    ensures Enabled(rs[k], Push(c)) <==> (rs[k].conns[d].open ==> |rs[k].conns[d].channel| < 64)
  {
    hide Do, Enabled, RelayOk, Played, Lands;
    FrameSoFar(rs, ms, j, c, frame, d, k);
    WaitingCanPush(rs[k], c, |rs[j].conns[c].received|, d, Forwarded(rs[j], c, frame));
  }

  lemma WaitingCanPush(r: Relay, c: nat, n: nat, d: nat, item: Item)
    requires Waits(r, c, n, d, item)
    ensures d < |r.conns|
    ensures Enabled(r, Push(c)) <==> (r.conns[d].open ==> |r.conns[d].channel| < 64)
    ensures forall e: nat :: Enabled(r, Write(e)) <==> e < |r.conns| && r.conns[e].open && |r.conns[e].channel| > 0
  {
  }
}
