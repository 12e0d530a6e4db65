/**
 * When the two ends of a session go on agreeing on it, in every run of the network: exactly while
 * neither completes another handshake or gives the session up.
 */
module Agreement {
  import opened Wrappers
  import opened Noise
  import opened PeerModel
  import opened DaemonModel
  import opened Protocol
  import opened PeerSafety
  import opened Network
  import opened World
  import opened Guarantees
  import opened Entries
  import opened Replay
  import opened Words
  import opened Grace

  // --------------------------------------------- entries in the runs of a world

  datatype Deed = Deed(actor: nat, activity: Activity, now: nat)

  /** The run `ws` with the node and the activity of each step. */
  ghost predicate Played(ws: seq<World>, deeds: seq<Deed>) {
    && |ws| == |deeds| + 1 && Initial(ws[0])
    && forall k | 0 <= k < |deeds| :: NextBy(ws[k], ws[k + 1], deeds[k].actor, deeds[k].activity, deeds[k].now)
  }

  lemma {:induction false} RunHasDeeds(ws: seq<World>) returns (deeds: seq<Deed>)
    requires Run(ws)
    ensures Played(ws, deeds)
    decreases |ws|
  {
    hide NextBy, Initial;
    deeds := [];
    if |ws| > 1 {
      var n := |ws| - 1;
      deeds := RunHasDeeds(ws[..n]);
      assert Next(ws[n - 1], ws[n]);
      var i: nat, a, now: nat :| NextBy(ws[n - 1], ws[n], i, a, now);
      deeds := deeds + [Deed(i, a, now)];
    }
  }

  /** The entry of node `i` that stands at `at[from]` is followed to `at[till]`; no sync drops it on the way. */
  ghost predicate Followed(ws: seq<World>, deeds: seq<Deed>, i: nat, from: nat, till: nat, at: seq<nat>) {
    && from <= till < |ws| == |at| && |ws| == |deeds| + 1
    && (forall k | from <= k <= till :: i < |ws[k].nodes| && at[k] < |ws[k].nodes[i].peers|)
    && forall k | from <= k < till ::
         Stands(ws[k], deeds[k], i, at[k], at[k + 1])
  }

  ghost predicate Stands(w: World, d: Deed, i: nat, a: nat, b: nat)
    requires i < |w.nodes| && a < |w.nodes[i].peers|
  {
    if d.actor == i then NextPlace(w.nodes[i].peers, d.activity, a) == Some(b) else b == a
  }

  /** A life with the configuration of its daemon. */
  datatype Story = Story(config: Config, states: seq<PeerState>, ops: seq<EntryOp>, times: seq<nat>)

  ghost predicate Lived(s: Story) {
    Life(s.config, s.states, s.ops, s.times)
  }

  /** The story is that of an entry of node `i` from state `from` of the run on, and all of it is on record. */
  ghost predicate LivedIn(ws: seq<World>, i: nat, from: nat, at: seq<nat>, s: Story) {
    && Lived(s) && from + |s.ops| < |ws| == |at|
    && (forall k | 0 <= k <= |s.ops| :: EntryIs(ws[from + k], i, at[from + k], s.config, s.states[k], s.times[k]))
    && forall k {:trigger s.ops[k]} | 0 <= k < |s.ops| ::
         Logged(s.config, s.states[k], s.ops[k], s.times[k + 1], ws[from + k + 1].history)
  }

  ghost predicate EntryIs(w: World, i: nat, a: nat, c: Config, p: PeerState, clock: nat) {
    && i < |w.nodes| && a < |w.nodes[i].peers| && w.nodes[i].peers[a] == p
    && w.nodes[i].config == c && w.nodes[i].clock == clock
  }

  lemma StepOfEntry(w: World, v: World, d: Deed, i: nat, a: nat, b: nat) returns (op: EntryOp)
    requires NextBy(w, v, d.actor, d.activity, d.now)
    requires i < |w.nodes| && a < |w.nodes[i].peers| && Stands(w, d, i, a, b)
    ensures i < |v.nodes| && w.nodes[i].clock <= v.nodes[i].clock && w.nodes[i].config == v.nodes[i].config
    ensures var c, p := w.nodes[i].config, w.nodes[i].peers[a];
            && EntryIs(v, i, b, c, Perform(c, p, op, v.nodes[i].clock).peer, v.nodes[i].clock)
            && Logged(c, p, op, v.nodes[i].clock, v.history)
  {
    hide Act, NextPlace, FreshInputs, Derivable, SessionUsed, HandshakeUsed;
    op := Rests;
    if d.actor == i {
      op := EntryStep(w.nodes[i].config, w.nodes[i].peers, d.activity, d.now, a);
    }
  }

  /** Every entry followed through a run has its story. */
  lemma {:induction false} FollowedEntryLives(ws: seq<World>, deeds: seq<Deed>, i: nat, from: nat, till: nat,
                                              at: seq<nat>)
    returns (s: Story)
    requires Played(ws, deeds) && Followed(ws, deeds, i, from, till, at)
    ensures LivedIn(ws, i, from, at, s) && |s.ops| == till - from
    decreases till
  {
    hide Perform, NextBy, Stands, Initial;
    if from == till {
      var n := ws[from].nodes[i];
      s := Story(n.config, [n.peers[at[from]]], [], [n.clock]);
    } else {
      s := FollowedEntryLives(ws, deeds, i, from, till - 1, at);
      assert NextBy(ws[till - 1], ws[till], deeds[till - 1].actor, deeds[till - 1].activity, deeds[till - 1].now);
      var op := StepOfEntry(ws[till - 1], ws[till], deeds[till - 1], i, at[till - 1], at[till]);
      s := Longer(ws, i, from, at, s, op);
    }
  }

  lemma Longer(ws: seq<World>, i: nat, from: nat, at: seq<nat>, s: Story, op: EntryOp) returns (t: Story)
    requires LivedIn(ws, i, from, at, s) && from + |s.ops| + 1 < |ws|
    requires var w, v, p := ws[from + |s.ops|], ws[from + |s.ops| + 1], s.states[|s.ops|];
             && i < |v.nodes| && s.times[|s.ops|] <= v.nodes[i].clock
             && EntryIs(v, i, at[from + |s.ops| + 1], s.config, Perform(s.config, p, op, v.nodes[i].clock).peer,
                        v.nodes[i].clock)
             && Logged(s.config, p, op, v.nodes[i].clock, v.history)
    ensures LivedIn(ws, i, from, at, t) && |t.ops| == |s.ops| + 1
  {
    hide Perform, EntryIs, Logged;
    var clock := ws[from + |s.ops| + 1].nodes[i].clock;
    var q := Perform(s.config, s.states[|s.ops|], op, clock).peer;
    t := Story(s.config, s.states + [q], s.ops + [op], s.times + [clock]);
    forall k | 0 <= k < |t.ops|
      ensures Logged(t.config, t.states[k], t.ops[k], t.times[k + 1], ws[from + k + 1].history)
    {
      if k < |s.ops| {
        assert Logged(s.config, s.states[k], s.ops[k], s.times[k + 1], ws[from + k + 1].history);
      }
    }
    forall k | 0 <= k <= |t.ops|
      ensures EntryIs(ws[from + k], i, at[from + k], t.config, t.states[k], t.times[k])
    {
      if k <= |s.ops| {
        assert EntryIs(ws[from + k], i, at[from + k], s.config, s.states[k], s.times[k]);
      }
    }
    assert Lived(t);
  }

  // ------------------------------------------------- retired ends stay retired

  lemma {:induction false} RetiredStays(ws: seq<World>, k: nat, m: nat, end: SessionKey)
    requires Run(ws) && k <= m < |ws| && RetiredBefore(ws[k].history, end)
    ensures RetiredBefore(ws[m].history, end)
    decreases m
  {
    hide Act, Possible, Initial;
    if k < m {
      RetiredStays(ws, k, m - 1, end);
      assert Next(ws[m - 1], ws[m]);
      var e :| e in ws[m - 1].history && e.event == Retired(end);
      assert e in ws[m].history;
    }
  }

  /** An end that is sending anywhere in the network has not been retired. */
  lemma SendingIsNotRetired(ws: seq<World>, k: nat, i: nat, j: nat)
    requires Run(ws) && k < |ws| && i < |ws[k].nodes| && j < |ws[k].nodes[i].peers|
    requires ws[k].nodes[i].peers[j].active.Some?
    ensures !RetiredBefore(ws[k].history, ws[k].nodes[i].peers[j].active.value.end)
  {
    hide Run, HistoryOk, Unique;
    RunsAreSafe(ws, k);
    var n := ws[k].nodes[i];
    var p := n.peers[j];
    TableIsInWorld(ws[k].nodes, i);
    SlotIsInTable(n.config.local, n.peers, j);
    var x := Live(n.config.local, p.pubkey, p.active.value, true);
    assert x in Secrets(n.config.local, p);
    assert x in Everyone(ws[k].nodes);
  }

  lemma StoryAt(ws: seq<World>, i: nat, from: nat, at: seq<nat>, s: Story, k: nat)
    requires LivedIn(ws, i, from, at, s) && k <= |s.ops|
    ensures |s.states| == |s.ops| + 1 == |s.times| && from + k < |ws| == |at|
    ensures EntryIs(ws[from + k], i, at[from + k], s.config, s.states[k], s.times[k])
  {
  }

  lemma StoryLogs(ws: seq<World>, i: nat, from: nat, at: seq<nat>, s: Story, k: nat)
    requires LivedIn(ws, i, from, at, s) && k < |s.ops|
    ensures |s.states| == |s.ops| + 1 == |s.times| && from + k + 1 < |ws|
    ensures Logged(s.config, s.states[k], s.ops[k], s.times[k + 1], ws[from + k + 1].history)
  {
  }

  ghost predicate Retires(s: Story, k: nat)
    requires Lived(s) && k < |s.ops|
  {
    RetiresAt(s.config, s.states, s.ops, s.times, k)
  }

  /** In a run of the world no end comes back: ids are fresh. */
  lemma RetiredNeverReturns(ws: seq<World>, i: nat, from: nat, at: seq<nat>, s: Story, r: nat)
    requires Run(ws) && LivedIn(ws, i, from, at, s) && r < |s.ops| && Retires(s, r)
    ensures r < |s.states| && s.states[r].active.Some? && NeverAgain(s.states, r, s.states[r].active.value.end)
  {
    hide Run, Life, Perform, RetiredBefore;
    StoryLogs(ws, i, from, at, s, r);
    var end := RetirementIsRecorded(s, r, ws[from + r + 1].history);
    forall m | r < m < |s.states| && s.states[m].active.Some? ensures s.states[m].active.value.end != end {
      StoryAt(ws, i, from, at, s, m);
      RetiredStays(ws, from + r + 1, from + m, end);
      SendingIsNotRetired(ws, from + m, i, at[from + m]);
    }
  }

  lemma RetirementIsRecorded(s: Story, r: nat, h: History) returns (end: SessionKey)
    requires Lived(s) && r < |s.ops| && Retires(s, r)
    requires |s.states| == |s.ops| + 1 == |s.times| && Logged(s.config, s.states[r], s.ops[r], s.times[r + 1], h)
    ensures s.states[r].active.Some? && end == s.states[r].active.value.end && RetiredBefore(h, end)
  {
    hide Life, Perform;
    PerformSlots(s.config, s.states[r], s.ops[r], s.times[r + 1]);
    var e :| e in Perform(s.config, s.states[r], s.ops[r], s.times[r + 1]).events && e.Retired?;
    end := e.end;
    assert LogEntry(s.config.local, s.states[r].pubkey, e) in h;
  }

  /** In every run, with nothing assumed of ids: when a packet of a retired session still opens. */
  lemma RetiredSessionOpensInRuns(ws: seq<World>, i: nat, from: nat, at: seq<nat>, s: Story, r: nat, m: nat,
                                  sender: PeerState, payload: Bytes, padding: Bytes, sentAt: nat, now: nat)
    requires Run(ws) && LivedIn(ws, i, from, at, s) && r < m <= |s.ops| && Retires(s, r)
    requires |s.states| == |s.ops| + 1 == |s.times| && s.states[r].active.Some?
    requires sender.active.Some? && sender.active.value.end == s.states[r].active.value.end.OtherEnd()
    requires s.times[m] <= now
    ensures var wire := Encrypt(sender, payload, padding, sentAt, true).result;
            && wire.Some?
            && (Decrypt(s.states[m], wire.value[1..], now).result.Some? <==>
                && LastReplaced(s.config, s.states, s.ops, s.times, r, m)
                && now < s.states[r].active.value.establishedAt + 15_000
                && s.states[m].previous.Some?
                && Accepts(s.states[m].previous.value.window, sender.active.value.txNonce))
  {
    hide Run, Life, RetiresAt, LastReplaced, Encrypt, Decrypt, NeverAgain, EntryIs, Logged;
    RetiredNeverReturns(ws, i, from, at, s, r);
    ReplacedSessionOpens(s.config, s.states, s.ops, s.times, r, m, sender, payload, padding, sentAt, now);
  }

  // ---------------------------------------------------------------- agreement

  predicate Holds(p: PeerState, end: SessionKey) {
    p.active.Some? && p.active.value.end == end
  }

  /** Each side sends in the session the other receives in. */
  predicate Agree(p: PeerState, q: PeerState) {
    p.active.Some? && Holds(q, p.active.value.end.OtherEnd())
  }

  /** Up to state `m` the entry has answered and joined nothing, and has not been cleared. */
  ghost predicate Undisturbed(s: Story, m: nat)
    requires Lived(s) && m <= |s.ops|
  {
    forall k | 0 <= k < m :: !Disturbs(s, k)
  }

  ghost predicate Disturbs(s: Story, k: nat)
    requires Lived(s) && k < |s.ops|
  {
    var e := Perform(s.config, s.states[k], s.ops[k], s.times[k + 1]);
    Completing(e.events) || e.peer.active.None?
  }

  lemma DisturbanceRetires(s: Story, k: nat)
    requires Lived(s) && k < |s.ops| && |s.states| == |s.ops| + 1 && s.states[k].active.Some?
    ensures Disturbs(s, k) <==> Retires(s, k)
    ensures !Disturbs(s, k) ==> Holds(s.states[k + 1], s.states[k].active.value.end)
  {
    hide Perform;
    PerformSlots(s.config, s.states[k], s.ops[k], s.times[k + 1]);
  }

  lemma {:induction false} UndisturbedHolds(s: Story, m: nat, end: SessionKey)
    requires Lived(s) && |s.states| == |s.ops| + 1 && m <= |s.ops| && Holds(s.states[0], end) && Undisturbed(s, m)
    ensures Holds(s.states[m], end)
    decreases m
  {
    hide Life, Disturbs;
    if m > 0 {
      UndisturbedHolds(s, m - 1, end);
      DisturbanceRetires(s, m - 1);
    }
  }

  /** The first disturbance, before which the session is held. */
  lemma {:induction false} FirstDisturbance(s: Story, m: nat, end: SessionKey) returns (r: nat)
    requires Lived(s) && |s.states| == |s.ops| + 1 && m <= |s.ops| && Holds(s.states[0], end) && !Undisturbed(s, m)
    ensures r < m && Disturbs(s, r) && Holds(s.states[r], end)
    decreases m
  {
    hide Life, Disturbs;
    if Undisturbed(s, m - 1) {
      UndisturbedHolds(s, m - 1, end);
      r := m - 1;
    } else {
      r := FirstDisturbance(s, m - 1, end);
    }
  }

  /** In every run, an entry holds a session exactly while it is undisturbed. */
  lemma HeldExactlyWhileUndisturbed(ws: seq<World>, i: nat, from: nat, at: seq<nat>, s: Story, m: nat, end: SessionKey)
    requires Run(ws) && LivedIn(ws, i, from, at, s) && m <= |s.ops|
    requires |s.states| == |s.ops| + 1 && Holds(s.states[0], end)
    ensures Holds(s.states[m], end) <==> Undisturbed(s, m)
  {
    hide Run, Life, Disturbs, Retires, Undisturbed;
    if Undisturbed(s, m) {
      UndisturbedHolds(s, m, end);
    } else {
      var r := FirstDisturbance(s, m, end);
      DisturbanceRetires(s, r);
      RetiredNeverReturns(ws, i, from, at, s, r);
    }
  }

  /**
   * In every run, two entries that held the two ends of a session still both hold it exactly if,
   * since it was made, each of them has answered nothing, joined nothing and was not cleared.
   */
  lemma EndsAgreeExactlyWhileUndisturbed(ws: seq<World>, i: nat, fromI: nat, atI: seq<nat>, s: Story,
                                         j: nat, fromJ: nat, atJ: seq<nat>, t: Story, end: SessionKey)
    requires Run(ws) && LivedIn(ws, i, fromI, atI, s) && LivedIn(ws, j, fromJ, atJ, t)
    requires |s.states| == |s.ops| + 1 && |t.states| == |t.ops| + 1 && fromI + |s.ops| == fromJ + |t.ops|
    requires Holds(s.states[0], end) && Holds(t.states[0], end.OtherEnd())
    ensures Holds(s.states[|s.ops|], end) && Holds(t.states[|t.ops|], end.OtherEnd())
       <==> Undisturbed(s, |s.ops|) && Undisturbed(t, |t.ops|)
    ensures Undisturbed(s, |s.ops|) && Undisturbed(t, |t.ops|) ==> Agree(s.states[|s.ops|], t.states[|t.ops|])
  {
    hide Run, LivedIn, Life, Undisturbed;
    HeldExactlyWhileUndisturbed(ws, i, fromI, atI, s, |s.ops|, end);
    HeldExactlyWhileUndisturbed(ws, j, fromJ, atJ, t, |t.ops|, end.OtherEnd());
  }
}
