/** Longest-prefix routing: what `find_best_peer_idx` finds. */
module Routing {
  import opened Packet
  import opened PeerModel
  import opened DaemonModel

  lemma {:induction false} BestPrefixIsLongest(subnets: seq<Subnet>, ip: Ipv4Addr)
    ensures var best := BestPrefix(subnets, ip);
            && -1 <= best
            && (forall s | s in subnets && s.Contains(ip) :: s.prefixLen <= best)
            && (best >= 0 ==> exists s | s in subnets :: s.Contains(ip) && s.prefixLen == best)
  {
    if subnets != [] {
      var init, last := subnets[..|subnets| - 1], subnets[|subnets| - 1];
      BestPrefixIsLongest(init, ip);
      assert subnets == init + [last];
    }
  }

  lemma NoneAllowed(p: PeerState, ip: Ipv4Addr)
    ensures Allows(p, ip) <==> BestPrefix(p.allowedIps, ip) >= 0
  {
    BestPrefixIsLongest(p.allowedIps, ip);
  }

  /** First in table order among the peers with the longest matching prefix. */
  lemma {:induction false} FindBestIsFirstLongest(ps: Peers, ip: Ipv4Addr)
    ensures var b := FindBest(ps, ip);
            && (b.idx.None? ==> b.prefixLen == -1)
            && (b.idx.Some? ==> b.prefixLen >= 0 && BestPrefix(ps[b.idx.value].allowedIps, ip) == b.prefixLen)
            && (forall j | 0 <= j < |ps| :: BestPrefix(ps[j].allowedIps, ip) <= b.prefixLen)
            && (b.idx.Some? ==> forall j | 0 <= j < b.idx.value :: BestPrefix(ps[j].allowedIps, ip) < b.prefixLen)
  {
    hide BestPrefix;
    if ps != [] {
      FindBestIsFirstLongest(ps[..|ps| - 1], ip);
      BestPrefixIsLongest(ps[|ps| - 1].allowedIps, ip);
    }
  }

  /** `None` exactly when no peer may use the address. */
  lemma UnroutedIffNotAllowed(ps: Peers, ip: Ipv4Addr)
    ensures FindBest(ps, ip).idx.None? <==> forall j | 0 <= j < |ps| :: !Allows(ps[j], ip)
  {
    hide BestPrefix, FindBest;
    FindBestIsFirstLongest(ps, ip);
    forall j | 0 <= j < |ps| ensures Allows(ps[j], ip) <==> BestPrefix(ps[j].allowedIps, ip) >= 0 {
      NoneAllowed(ps[j], ip);
    }
  }

  /**
   * Peer `i` holds a subnet for `ip` that lies inside every other subnet, of any peer, that holds
   * the address; of two equally long ones, its own comes no later in the table.
   */
  ghost predicate Wins(ps: Peers, ip: Ipv4Addr, i: nat, winner: Subnet)
    requires i < |ps|
  {
    && winner in ps[i].allowedIps && winner.Contains(ip)
    && (forall j, t | 0 <= j < |ps| && t in ps[j].allowedIps && t.Contains(ip) ::
          && (t.prefixLen < winner.prefixLen || (t.prefixLen == winner.prefixLen && i <= j))
          && forall a: Ipv4Addr | winner.Contains(a) :: t.Contains(a))
  }

  lemma RouteIsMostSpecific(ps: Peers, ip: Ipv4Addr)
    requires FindBest(ps, ip).idx.Some?
    ensures exists winner :: Wins(ps, ip, FindBest(ps, ip).idx.value, winner)
  {
    hide BestPrefix, FindBest;
    var b := FindBest(ps, ip);
    var i := b.idx.value;
    FindBestIsFirstLongest(ps, ip);
    BestPrefixIsLongest(ps[i].allowedIps, ip);
    var winner :| winner in ps[i].allowedIps && winner.Contains(ip) && winner.prefixLen == b.prefixLen;
    forall j, t: Subnet | 0 <= j < |ps| && t in ps[j].allowedIps && t.Contains(ip)
      ensures t.prefixLen < winner.prefixLen || (t.prefixLen == winner.prefixLen && i <= j)
      ensures forall a: Ipv4Addr | winner.Contains(a) :: t.Contains(a)
    {
      BestPrefixIsLongest(ps[j].allowedIps, ip);
      forall a: Ipv4Addr | winner.Contains(a) ensures t.Contains(a) {
        NestedOrDisjoint(winner, t, ip, a);
      }
    }
    assert Wins(ps, ip, i, winner);
  }
}

/** What `sync_peers` does to a table, said without its loops. */
module Reconciliation {
  import opened Wrappers
  import opened Noise
  import opened PeerModel
  import opened DaemonModel

  ghost predicate Distinct(ps: Peers) {
    forall i, j | 0 <= i < j < |ps| :: ps[i].pubkey != ps[j].pubkey
  }

  ghost predicate HasKey(ps: Peers, key: Key) {
    exists p | p in ps :: p.pubkey == key
  }

  /** The last description of `key`. */
  function LastFor(wanted: seq<ParsedPeer>, key: Key): Option<ParsedPeer> {
    if wanted == [] then None
    else if wanted[|wanted| - 1].pubkey == key then Some(wanted[|wanted| - 1])
    else LastFor(wanted[..|wanted| - 1], key)
  }

  /** The descriptions that introduce a key: known neither to `ps` nor from an earlier description. */
  ghost function Newcomers(ps: Peers, wanted: seq<ParsedPeer>): seq<ParsedPeer> {
    if wanted == [] then []
    else
      var init, w := wanted[..|wanted| - 1], wanted[|wanted| - 1];
      if HasKey(ps, w.pubkey) || Wanted(init, w.pubkey) then Newcomers(ps, init) else Newcomers(ps, init) + [w]
  }

  /** Only the endpoint and the allowed addresses follow the coordinator. */
  function Refresh(p: PeerState, wanted: seq<ParsedPeer>): PeerState {
    match LastFor(wanted, p.pubkey)
    case Some(w) => p.(endpoint := w.endpoint, allowedIps := w.allowedIps)
    case None => p
  }

  /** No entry before `i` has its key. */
  predicate First(ps: Peers, i: nat)
    requires i < |ps|
  {
    forall k | 0 <= k < i :: ps[k].pubkey != ps[i].pubkey
  }

  /** Later entries of a key, which only a table not made by a sync can have, stay as they are. */
  function RefreshAll(ps: Peers, wanted: seq<ParsedPeer>): (qs: Peers)
    ensures |qs| == |ps|
    ensures forall i | 0 <= i < |ps| :: qs[i].pubkey == ps[i].pubkey
  {
    seq(|ps|, i requires 0 <= i < |ps| => if First(ps, i) then Refresh(ps[i], wanted) else ps[i])
  }

  function Created(ws: seq<ParsedPeer>, magic: Magic, now: nat): (qs: Peers)
    ensures |qs| == |ws|
  {
    seq(|ws|, i requires 0 <= i < |ws| => NewPeer(ws[i].pubkey, ws[i].endpoint, ws[i].allowedIps, magic, now))
  }

  /** A new peer is as described, has neither session nor handshake, and counts as heard at its making. */
  lemma CreatedAreNew(ws: seq<ParsedPeer>, magic: Magic, now: nat, i: nat)
    requires i < |ws|
    ensures var p := Created(ws, magic, now)[i];
            && p.pubkey == ws[i].pubkey && p.endpoint == ws[i].endpoint && p.allowedIps == ws[i].allowedIps
            && p.magic == magic && p.active.None? && p.previous.None?
            && p.handshake.None? && p.attempt.None? && p.packet.None?
            && p.lastRx == p.lastTx == p.lastDirectRx == now
  {
  }

  function EndpointsOf(ws: seq<ParsedPeer>): seq<Endpoint> {
    if ws == [] then []
    else EndpointsOf(ws[..|ws| - 1]) + if ws[|ws| - 1].endpoint.Some? then [ws[|ws| - 1].endpoint.value] else []
  }

  lemma {:induction false} LastForFinds(wanted: seq<ParsedPeer>, key: Key)
    ensures LastFor(wanted, key).Some? <==> Wanted(wanted, key)
    ensures LastFor(wanted, key).Some? ==>
              LastFor(wanted, key).value in wanted && LastFor(wanted, key).value.pubkey == key
  {
    if wanted != [] {
      LastForFinds(wanted[..|wanted| - 1], key);
      assert wanted == wanted[..|wanted| - 1] + [wanted[|wanted| - 1]];
    }
  }

  lemma {:induction false} NewcomersAreNew(ps: Peers, wanted: seq<ParsedPeer>)
    ensures forall i | 0 <= i < |Newcomers(ps, wanted)| ::
              Wanted(wanted, Newcomers(ps, wanted)[i].pubkey) && !HasKey(ps, Newcomers(ps, wanted)[i].pubkey)
    ensures forall i, j | 0 <= i < j < |Newcomers(ps, wanted)| ::
              Newcomers(ps, wanted)[i].pubkey != Newcomers(ps, wanted)[j].pubkey
  {
    if wanted != [] {
      var init, last := wanted[..|wanted| - 1], wanted[|wanted| - 1];
      var before, ws := Newcomers(ps, init), Newcomers(ps, wanted);
      NewcomersAreNew(ps, init);
      assert last in wanted;
      forall i | 0 <= i < |before|
        ensures Wanted(init, before[i].pubkey) && Wanted(wanted, before[i].pubkey) && !HasKey(ps, before[i].pubkey)
      {
        var w :| w in init && w.pubkey == before[i].pubkey;
        assert w in wanted;
      }
      assert forall i | 0 <= i < |before| :: ws[i] == before[i];
    }
  }

  lemma {:induction false} NewcomerFor(ps: Peers, wanted: seq<ParsedPeer>, key: Key) returns (i: nat)
    requires Wanted(wanted, key) && !HasKey(ps, key)
    ensures i < |Newcomers(ps, wanted)| && Newcomers(ps, wanted)[i].pubkey == key
    decreases |wanted|
  {
    hide HasKey;
    var init, last := wanted[..|wanted| - 1], wanted[|wanted| - 1];
    if Wanted(init, key) {
      i := NewcomerFor(ps, init, key);
    } else {
      var w :| w in wanted && w.pubkey == key;
      assert w == last || w in init;
      i := |Newcomers(ps, wanted)| - 1;
    }
  }

  /** The table before the last descriptions take effect: the old peers, then the newcomers. */
  ghost function Base(ps: Peers, wanted: seq<ParsedPeer>, magic: Magic, now: nat): Peers {
    ps + Created(Newcomers(ps, wanted), magic, now)
  }

  lemma BaseIsDistinct(ps: Peers, wanted: seq<ParsedPeer>, magic: Magic, now: nat)
    requires Distinct(ps)
    ensures Distinct(Base(ps, wanted, magic, now))
  {
    hide Newcomers, Wanted;
    var ws := Newcomers(ps, wanted);
    var base := Base(ps, wanted, magic, now);
    NewcomersAreNew(ps, wanted);
    forall i, j | 0 <= i < j < |base| ensures base[i].pubkey != base[j].pubkey {
      if i < |ps| <= j {
        assert ps[i] in ps && base[j].pubkey == ws[j - |ps|].pubkey;
        assert !HasKey(ps, ws[j - |ps|].pubkey);
      }
    }
  }

  lemma BaseHasKey(ps: Peers, wanted: seq<ParsedPeer>, magic: Magic, now: nat, key: Key)
    ensures HasKey(Base(ps, wanted, magic, now), key) <==> HasKey(ps, key) || Wanted(wanted, key)
  {
    hide Newcomers, Wanted;
    var ws, base := Newcomers(ps, wanted), Base(ps, wanted, magic, now);
    NewcomersAreNew(ps, wanted);
    if HasKey(ps, key) {
      var p :| p in ps && p.pubkey == key;
      assert p in base;
    } else if Wanted(wanted, key) {
      var i := NewcomerFor(ps, wanted, key);
      assert base[|ps| + i] in base;
    } else {
      forall i | 0 <= i < |base| ensures base[i].pubkey != key {
        if i < |ps| {
          assert ps[i] in ps;
        } else {
          assert Wanted(wanted, ws[i - |ps|].pubkey);
        }
      }
    }
  }

  /** One description changes the first peer with its key and no other, or appends one peer. */
  lemma UpsertIsRefresh(base: Peers, wanted: seq<ParsedPeer>, w: ParsedPeer, magic: Magic, now: nat)
    ensures var u := Upsert(RefreshAll(base, wanted), w, magic, now);
            if HasKey(base, w.pubkey) then
              u == Synced(RefreshAll(base, wanted + [w]), [])
            else
              u.peers == RefreshAll(base, wanted) + [NewPeer(w.pubkey, w.endpoint, w.allowedIps, magic, now)]
              && u.newEndpoints == EndpointsOf([w])
  {
    var ps := RefreshAll(base, wanted);
    assert (wanted + [w])[..|wanted|] == wanted;
    match FindKey(ps, w.pubkey)
    case Some(i) =>
      assert base[i] in base && HasKey(base, w.pubkey);
      var qs := Upsert(ps, w, magic, now).peers;
      var goal := RefreshAll(base, wanted + [w]);
      forall j | 0 <= j < |base| ensures qs[j] == goal[j] {
        assert ps[j].pubkey == base[j].pubkey;
        assert First(base, j) && base[j].pubkey == w.pubkey <==> j == i;
      }
      assert qs == goal;
    case None =>
      forall p | p in base ensures p.pubkey != w.pubkey {
        var j :| 0 <= j < |base| && base[j] == p;
        assert ps[j].pubkey == p.pubkey;
      }
      assert EndpointsOf([w][..0]) == [];
  }

  lemma RefreshUnaffected(base: Peers, wanted: seq<ParsedPeer>, w: ParsedPeer)
    requires !HasKey(base, w.pubkey)
    ensures RefreshAll(base, wanted + [w]) == RefreshAll(base, wanted)
  {
    assert (wanted + [w])[..|wanted|] == wanted;
    forall i | 0 <= i < |base| ensures Refresh(base[i], wanted + [w]) == Refresh(base[i], wanted) {
      assert base[i] in base;
    }
  }

  lemma {:induction false} UpsertAllIsRefresh(ps: Peers, wanted: seq<ParsedPeer>, magic: Magic, now: nat)
    ensures UpsertAll(ps, wanted, magic, now)
         == Synced(RefreshAll(Base(ps, wanted, magic, now), wanted), EndpointsOf(Newcomers(ps, wanted)))
    decreases |wanted|
  {
    if wanted == [] {
      assert RefreshAll(Base(ps, [], magic, now), []) == ps;
    } else {
      var init, w := wanted[..|wanted| - 1], wanted[|wanted| - 1];
      assert wanted == init + [w];
      UpsertAllIsRefresh(ps, init, magic, now);
      BaseHasKey(ps, init, magic, now, w.pubkey);
      var base := Base(ps, init, magic, now);
      UpsertIsRefresh(base, init, w, magic, now);
      if !HasKey(base, w.pubkey) {
        NewcomerIsAppended(ps, init, w, magic, now);
      }
    }
  }

  lemma NewcomerIsAppended(ps: Peers, init: seq<ParsedPeer>, w: ParsedPeer, magic: Magic, now: nat)
    requires !HasKey(Base(ps, init, magic, now), w.pubkey)
    requires !HasKey(ps, w.pubkey) && !Wanted(init, w.pubkey)
    ensures Newcomers(ps, init + [w]) == Newcomers(ps, init) + [w]
    ensures RefreshAll(Base(ps, init + [w], magic, now), init + [w])
         == RefreshAll(Base(ps, init, magic, now), init) + [NewPeer(w.pubkey, w.endpoint, w.allowedIps, magic, now)]
    ensures EndpointsOf(Newcomers(ps, init) + [w]) == EndpointsOf(Newcomers(ps, init)) + EndpointsOf([w])
  {
    hide HasKey, Wanted, RefreshAll;
    var base, p := Base(ps, init, magic, now), NewPeer(w.pubkey, w.endpoint, w.allowedIps, magic, now);
    var ws := Newcomers(ps, init);
    assert (init + [w])[..|init|] == init;
    assert Created(ws + [w], magic, now) == Created(ws, magic, now) + [p];
    assert Base(ps, init + [w], magic, now) == base + [p];
    RefreshUnaffected(base, init, w);
    RefreshAppended(base, p, init + [w]);
    assert LastFor(init + [w], p.pubkey) == Some(w);
    EndpointsAppended(ws, w);
  }

  lemma RefreshAppended(base: Peers, p: PeerState, wanted: seq<ParsedPeer>)
    requires !HasKey(base, p.pubkey)
    ensures RefreshAll(base + [p], wanted) == RefreshAll(base, wanted) + [Refresh(p, wanted)]
  {
    hide Refresh;
    var more := base + [p];
    forall i | 0 <= i < |base| ensures more[i] == base[i] && First(more, i) == First(base, i) {
      assert forall k | 0 <= k <= i :: more[k] == base[k];
    }
    assert First(more, |base|) by {
      forall k | 0 <= k < |base| ensures more[k].pubkey != p.pubkey {
        assert base[k] in base;
      }
    }
  }

  lemma EndpointsAppended(ws: seq<ParsedPeer>, w: ParsedPeer)
    ensures EndpointsOf(ws + [w]) == EndpointsOf(ws) + EndpointsOf([w])
  {
    assert (ws + [w])[..|ws|] == ws && EndpointsOf([w][..0]) == [];
  }

  lemma RetainKeepsDistinct(ps: Peers, wanted: seq<ParsedPeer>)
    requires Distinct(ps)
    ensures Distinct(Retain(ps, wanted))
  {
    var picked := RetainKeepsOrder(ps, wanted);
  }

  lemma RetainedAreWanted(ps: Peers, wanted: seq<ParsedPeer>)
    ensures forall p :: p in Retain(ps, wanted) <==> p in ps && Wanted(wanted, p.pubkey)
  {
    hide Wanted, Retain;
    var kept := Retain(ps, wanted);
    var picked := RetainKeepsOrder(ps, wanted);
    forall p ensures p in kept <==> p in ps && Wanted(wanted, p.pubkey) {
      if p in kept {
        var k :| 0 <= k < |kept| && kept[k] == p;
        assert picked[k] in picked;
      }
      if p in ps && Wanted(wanted, p.pubkey) {
        var i :| 0 <= i < |ps| && ps[i] == p;
        var k :| 0 <= k < |picked| && picked[k] == i;
        assert kept[k] == p;
      }
    }
  }

  function Kept(p: PeerState, wanted: seq<ParsedPeer>): Peers {
    if Wanted(wanted, p.pubkey) then [p] else []
  }

  lemma RetainLast(ps: Peers, wanted: seq<ParsedPeer>)
    ensures ps == [] ==> Retain(ps, wanted) == []
    ensures ps != [] ==> Retain(ps, wanted) == Retain(ps[..|ps| - 1], wanted) + Kept(ps[|ps| - 1], wanted)
  {
    hide Wanted;
  }

  /** Peers are dropped, never moved: the survivors are those at the places `picked`, in table order. */
  lemma {:induction false} RetainKeepsOrder(ps: Peers, wanted: seq<ParsedPeer>) returns (picked: seq<nat>)
    ensures |picked| == |Retain(ps, wanted)|
    ensures forall k | 0 <= k < |picked| :: picked[k] < |ps| && Retain(ps, wanted)[k] == ps[picked[k]]
    ensures forall k, l | 0 <= k < l < |picked| :: picked[k] < picked[l]
    ensures forall i | 0 <= i < |ps| :: i in picked <==> Wanted(wanted, ps[i].pubkey)
    ensures forall k | 0 <= k < |picked| :: |Retain(ps[..picked[k]], wanted)| == k
  {
    hide Wanted, Retain;
    RetainLast(ps, wanted);
    picked := [];
    if ps != [] {
      var n := |ps| - 1;
      picked := RetainKeepsOrder(ps[..n], wanted);
      assert forall k | 0 <= k < |picked| :: ps[..n][..picked[k]] == ps[..picked[k]];
      if Wanted(wanted, ps[n].pubkey) {
        picked := picked + [n];
      }
    }
  }

  /**
   * `sync_peers` on any table, in closed form: the wanted old peers in their old order, then one new
   * peer for each new key in order of first mention; endpoint and address list of the first entry of
   * each key are those of the last description of the key, everything else is untouched; and the
   * endpoints returned are those of the first description of each new key. The keys are then exactly
   * the wanted ones, none twice unless the table already had it twice.
   */
  lemma SyncInClosedForm(ps: Peers, wanted: seq<ParsedPeer>, magic: Magic, now: nat)
    ensures var kept := Retain(ps, wanted);
            var s := Reconcile(ps, wanted, magic, now);
            && s.peers == RefreshAll(kept + Created(Newcomers(kept, wanted), magic, now), wanted)
            && s.newEndpoints == EndpointsOf(Newcomers(kept, wanted))
            && (Distinct(s.peers) <==> Distinct(kept))
            && forall key :: HasKey(s.peers, key) <==> Wanted(wanted, key)
  {
    hide RefreshAll, UpsertAll, Newcomers, Wanted, Retain, Distinct;
    var kept := Retain(ps, wanted);
    UpsertAllIsRefresh(kept, wanted, magic, now);
    var base := Base(kept, wanted, magic, now);
    RefreshKeepsKeys(base, wanted);
    if Distinct(kept) {
      BaseIsDistinct(kept, wanted, magic, now);
    }
    if Distinct(base) {
      PrefixIsDistinct(kept, base);
    }
    RetainedAreWanted(ps, wanted);
    forall key ensures HasKey(base, key) <==> Wanted(wanted, key) {
      BaseHasKey(kept, wanted, magic, now, key);
    }
  }

  lemma PrefixIsDistinct(ps: Peers, qs: Peers)
    requires ps <= qs && Distinct(qs)
    ensures Distinct(ps)
  {
    forall i, j | 0 <= i < j < |ps| ensures ps[i].pubkey != ps[j].pubkey {
      assert ps[i] == qs[i] && ps[j] == qs[j];
    }
  }

  lemma RefreshKeepsKeys(base: Peers, wanted: seq<ParsedPeer>)
    ensures Distinct(RefreshAll(base, wanted)) <==> Distinct(base)
    ensures forall key :: HasKey(RefreshAll(base, wanted), key) <==> HasKey(base, key)
  {
    hide RefreshAll;
    var ps := RefreshAll(base, wanted);
    forall key ensures HasKey(ps, key) <==> HasKey(base, key) {
      if HasKey(base, key) {
        var i :| 0 <= i < |base| && base[i].pubkey == key;
        assert ps[i] in ps;
      }
      if HasKey(ps, key) {
        var i :| 0 <= i < |ps| && ps[i].pubkey == key;
        assert base[i] in base;
      }
    }
  }

  lemma {:induction false} RetainEverything(ps: Peers, wanted: seq<ParsedPeer>)
    requires forall p | p in ps :: Wanted(wanted, p.pubkey)
    ensures Retain(ps, wanted) == ps
  {
    if ps != [] {
      RetainEverything(ps[..|ps| - 1], wanted);
      assert ps[|ps| - 1] in ps;
    }
  }

  lemma {:induction false} NoNewcomers(ps: Peers, wanted: seq<ParsedPeer>)
    requires forall w | w in wanted :: HasKey(ps, w.pubkey)
    ensures Newcomers(ps, wanted) == []
  {
    if wanted != [] {
      NoNewcomers(ps, wanted[..|wanted| - 1]);
    }
  }

  /** Syncing again with the same descriptions changes nothing and finds no new endpoints. */
  lemma SyncIsIdempotent(ps: Peers, wanted: seq<ParsedPeer>, magic: Magic, now: nat, later: nat)
    ensures var s := Reconcile(ps, wanted, magic, now);
            Reconcile(s.peers, wanted, magic, later) == Synced(s.peers, [])
  {
    hide Retain, Newcomers, RefreshAll, Reconcile;
    var s := Reconcile(ps, wanted, magic, now);
    SyncInClosedForm(ps, wanted, magic, now);
    SyncInClosedForm(s.peers, wanted, magic, later);
    forall p | p in s.peers ensures Wanted(wanted, p.pubkey) {
      assert HasKey(s.peers, p.pubkey);
    }
    RetainEverything(s.peers, wanted);
    forall w | w in wanted ensures HasKey(s.peers, w.pubkey) {
      assert Wanted(wanted, w.pubkey);
    }
    NoNewcomers(s.peers, wanted);
    RefreshTwice(Retain(ps, wanted) + Created(Newcomers(Retain(ps, wanted), wanted), magic, now), wanted);
    assert s.peers + Created([], magic, later) == s.peers;
    ReconcileIs(s.peers, wanted, magic, later, Synced(s.peers, []));
  }

  lemma ReconcileIs(ps: Peers, wanted: seq<ParsedPeer>, magic: Magic, now: nat, s: Synced)
    requires Reconcile(ps, wanted, magic, now).peers == s.peers
    requires Reconcile(ps, wanted, magic, now).newEndpoints == s.newEndpoints
    ensures Reconcile(ps, wanted, magic, now) == s
  {
  }

  lemma RefreshTwice(base: Peers, wanted: seq<ParsedPeer>)
    ensures RefreshAll(RefreshAll(base, wanted), wanted) == RefreshAll(base, wanted)
  {
    var ps := RefreshAll(base, wanted);
    forall i | 0 <= i < |base| ensures RefreshAll(ps, wanted)[i] == ps[i] {
      assert First(ps, i) == First(base, i);
    }
  }
}
