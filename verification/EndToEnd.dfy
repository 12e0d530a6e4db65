/**
 * From the coordinator's registry to the packets a node accepts: a node whose peers come from
 * the registry routes replies to exactly the peer that the traffic came from.
 */
module EndToEnd {
  import opened Wrappers
  import opened Words
  import opened Packet
  import opened Noise
  import opened PeerModel
  import opened DaemonModel
  import opened World
  import opened Text
  import opened Spec
  import opened Allocator
  import opened RegistryModel
  import opened Routing
  import opened Reconciliation
  import opened Listing
  import opened Protocol
  import opened Padding
  import opened Guarantees
  import opened Network

  // ------------------------------------------------------- routing both ways

  /** With host routes, the peer that may use an address is the one `find_best_peer_idx` finds. */
  lemma RouteLeadsBack(ps: Peers, i: nat, ip: Ipv4Addr)
    requires HostRoutes(ps) && i < |ps| && Allows(ps[i], ip)
    ensures FindBest(ps, ip).idx == Some(i)
  {
    hide FindBest;
    UnroutedIffNotAllowed(ps, ip);
    RouteIsMostSpecific(ps, ip);
    var k := FindBest(ps, ip).idx.value;
    var winner :| Wins(ps, ip, k, winner);
    HostSubnetContainsOnlyItself(ps[i].allowedIps[0], ip);
    HostSubnetContainsOnlyItself(ps[k].allowedIps[0], ip);
  }

  ghost predicate SameRoutes(ps: Peers, qs: Peers) {
    |ps| == |qs| && forall i | 0 <= i < |ps| :: ps[i].pubkey == qs[i].pubkey && ps[i].allowedIps == qs[i].allowedIps
  }

  /** The packet `data` was opened in this step with a session of the peer that may use its source. */
  ghost predicate Delivered(c: Config, s: Step, data: Bytes, i: nat) {
    && i < |s.peers|
    && HasHeader(data) && Allows(s.peers[i], Source(data))
    && exists e | e in s.log :: e.local == c.local && e.remote == s.peers[i].pubkey && e.event.Opened?
                                && e.event.payload == data
  }

  lemma PeerOpsKeepRoutes(c: Config, p: PeerState, payload: Wire, now: nat)
    ensures Decrypt(p, payload, now).peer.allowedIps == p.allowedIps
    ensures var o := Decrypt(p, payload, now);
            o.result.Some? ==> exists e | e in o.events :: e.Opened? && e.payload == o.result.value
  {
    var o := Decrypt(p, payload, now);
    if o.result.Some? {
      assert o.events[0].Opened? && o.events[0].payload == o.result.value;
    }
  }

  lemma HandshakeKeepsRoutes(c: Config, p: PeerState, t: u8, payload: Wire, hs: nat, inp: RecvInput, now: nat)
    ensures HandleHandshake(p, c.local, t, payload, inp.id, inp.padding, now, inp.ok).peer.allowedIps == p.allowedIps
    ensures Answer(p, c.magic, hs, inp.id, inp.padding, now, inp.ok).peer.allowedIps == p.allowedIps
  {
  }

  lemma AdmittedHasSource(o: Outcome<Bytes>)
    requires Admitted(o)
    ensures o.result.Some? && HasHeader(o.result.value) && Allows(o.peer, Source(o.result.value))
  {
    hide Source;
    HeaderFields(o.result.value);
  }

  lemma AdmittedIsDelivered(c: Config, p: PeerState, payload: Wire, now: nat)
    requires Admitted(Decrypt(p, payload, now))
    ensures var o := Decrypt(p, payload, now);
            exists e | e in Tag(c.local, p.pubkey, o.events) ::
              e.local == c.local && e.remote == p.pubkey && e.event.Opened? && e.event.payload == o.result.value
    ensures var o := Decrypt(p, payload, now);
            o.result.Some? && HasHeader(o.result.value) && Allows(o.peer, Source(o.result.value))
  {
    hide Source, HasHeader;
    AdmittedHasSource(Decrypt(p, payload, now));
    PeerOpsKeepRoutes(c, p, payload, now);
    var o := Decrypt(p, payload, now);
    assert Tag(c.local, p.pubkey, o.events)[0].event == o.events[0];
  }

  lemma {:induction false} TrialDecryptDelivers(c: Config, ps: Peers, k: nat, payload: Wire, addr: Endpoint, now: nat)
    returns (i: nat)
    requires k <= |ps|
    ensures SameRoutes(ps, TrialDecrypt(c, ps, k, payload, addr, now).peers)
    ensures var s := TrialDecrypt(c, ps, k, payload, addr, now); s.tun.Some? ==> Delivered(c, s, s.tun.value, i)
    decreases |ps| - k
  {
    hide Decrypt, Admitted, Source, HasHeader;
    i := 0;
    if k < |ps| && ps[k].endpoint == Some(addr) {
      i := TrialDecryptDelivers(c, ps, k + 1, payload, addr, now);
    } else if k < |ps| {
      var o := Decrypt(ps[k], payload, now);
      PeerOpsKeepRoutes(c, ps[k], payload, now);
      if Admitted(o) {
        i := k;
        AdmittedIsDelivered(c, ps[k], payload, now);
      } else {
        i := TrialDecryptDelivers(c, ps[k := o.peer], k + 1, payload, addr, now);
      }
    }
  }

  lemma UdpDataDelivers(c: Config, ps: Peers, payload: Wire, addr: Endpoint, now: nat) returns (i: nat)
    ensures SameRoutes(ps, UdpData(c, ps, payload, addr, now).peers)
    ensures var s := UdpData(c, ps, payload, addr, now); s.tun.Some? ==> Delivered(c, s, s.tun.value, i)
  {
    hide Decrypt, TrialDecrypt, Admitted, Source, HasHeader;
    var found := FindEndpoint(ps, addr);
    if found.None? {
      i := TrialDecryptDelivers(c, ps, 0, payload, addr, now);
    } else {
      var k := found.value;
      var o := Decrypt(ps[k], payload, now);
      PeerOpsKeepRoutes(c, ps[k], payload, now);
      if Admitted(o) {
        i := k;
        AdmittedIsDelivered(c, ps[k], payload, now);
      } else {
        i := TrialDecryptDelivers(c, ps[k := o.peer], 0, payload, addr, now);
      }
    }
  }

  lemma UdpHandshakesKeepRoutes(c: Config, ps: Peers, payload: Wire, addr: Endpoint, inp: RecvInput, now: nat)
    ensures var s := UdpInit(c, ps, payload, addr, inp, now); SameRoutes(ps, s.peers) && s.tun.None?
    ensures var s := UdpResp(c, ps, payload, addr, inp, now); SameRoutes(ps, s.peers) && s.tun.None?
  {
    hide HandleHandshake, Answer, ReadInit;
    var read := ReadInit(c.local, Cut(payload, INIT_LEN));
    if read.Some? && FindKey(ps, read.value.1).Some? {
      HandshakeKeepsRoutes(c, ps[FindKey(ps, read.value.1).value].(endpoint := Some(addr), lastDirectRx := now),
                           c.magic.handshakeResp, payload, read.value.0, inp, now);
    }
    if FindEndpoint(ps, addr).Some? {
      HandshakeKeepsRoutes(c, ps[FindEndpoint(ps, addr).value], c.magic.handshakeResp, payload, 0, inp, now);
    }
  }

  lemma UdpReceiveDelivers(c: Config, ps: Peers, datagram: Wire, addr: Endpoint, inp: RecvInput, now: nat)
    returns (i: nat)
    ensures SameRoutes(ps, UdpReceive(c, ps, datagram, addr, inp, now).peers)
    ensures var s := UdpReceive(c, ps, datagram, addr, inp, now); s.tun.Some? ==> Delivered(c, s, s.tun.value, i)
  {
    hide UdpData, UdpInit, UdpResp, Delivered;
    i := 0;
    if datagram != [] {
      i := UdpDataDelivers(c, ps, datagram[1..], addr, now);
      UdpHandshakesKeepRoutes(c, ps, datagram[1..], addr, inp, now);
    }
  }

  lemma RelayHandshakesKeepRoutes(c: Config, ps: Peers, from: Key, payload: Wire, inp: RecvInput, now: nat)
    ensures var s := RelayInit(c, ps, from, payload, inp, now); SameRoutes(ps, s.peers) && s.tun.None?
    ensures var s := RelayResp(c, ps, from, payload, inp, now); SameRoutes(ps, s.peers) && s.tun.None?
  {
    hide HandleHandshake, Answer, ReadInit;
    if FindKey(ps, from).Some? {
      var read := ReadInit(c.local, Cut(payload, INIT_LEN));
      HandshakeKeepsRoutes(c, ps[FindKey(ps, from).value], c.magic.handshakeResp, payload,
                           if read.Some? then read.value.0 else 0, inp, now);
    }
  }

  lemma RelayDataDelivers(c: Config, ps: Peers, from: Key, payload: Wire, now: nat) returns (i: nat)
    ensures SameRoutes(ps, RelayData(c, ps, from, payload, now).peers)
    ensures var s := RelayData(c, ps, from, payload, now); s.tun.Some? ==> Delivered(c, s, s.tun.value, i)
  {
    hide Decrypt, Admitted, Source, HasHeader;
    i := 0;
    if FindKey(ps, from).Some? {
      i := FindKey(ps, from).value;
      PeerOpsKeepRoutes(c, ps[i], payload, now);
      if Admitted(Decrypt(ps[i], payload, now)) {
        AdmittedIsDelivered(c, ps[i], payload, now);
      }
    }
  }

  lemma RelayReceiveDelivers(c: Config, ps: Peers, from: Key, packet: Wire, inp: RecvInput, now: nat) returns (i: nat)
    ensures SameRoutes(ps, RelayReceive(c, ps, from, packet, inp, now).peers)
    ensures var s := RelayReceive(c, ps, from, packet, inp, now); s.tun.Some? ==> Delivered(c, s, s.tun.value, i)
  {
    hide RelayInit, RelayResp, RelayData, Delivered;
    i := 0;
    if packet != [] {
      i := RelayDataDelivers(c, ps, from, packet[1..], now);
      RelayHandshakesKeepRoutes(c, ps, from, packet[1..], inp, now);
    }
  }

  lemma {:induction false} TickKeepsRoutes(c: Config, ps: Peers, inputs: seq<TickInput>, now: nat)
    requires |inputs| == |ps|
    ensures SameRoutes(ps, Tick(c, ps, inputs, now).peers) && Tick(c, ps, inputs, now).tun.None?
  {
    hide TickPeer;
    if ps != [] {
      var n := |ps| - 1;
      TickKeepsRoutes(c, ps[..n], inputs[..n], now);
      TickPeerKeepsRoutes(c, ps[n], inputs[n], now);
    }
  }

  lemma TickPeerKeepsRoutes(c: Config, p: PeerState, inp: TickInput, now: nat)
    ensures TickPeer(c, p, inp, now).peer.allowedIps == p.allowedIps
  {
  }

  lemma SendViaKeepsRoutes(c: Config, p: PeerState, packet: Bytes, inp: SendInput, now: nat)
    ensures SendVia(c, p, packet, inp, now).peer.allowedIps == p.allowedIps
  {
  }

  /** Only reconciliation changes routes, and whatever reaches TUN was delivered in the sense above. */
  lemma ActDelivers(c: Config, ps: Peers, a: Activity, now: nat) returns (i: nat)
    requires a.Ticks? ==> |a.inputs| == |ps|
    ensures !a.Syncs? ==> SameRoutes(ps, Act(c, ps, a, now).peers)
    ensures var s := Act(c, ps, a, now); s.tun.Some? ==> !a.Syncs? && Delivered(c, s, s.tun.value, i)
  {
    hide Tick, UdpReceive, RelayReceive, FindBest, SendVia;
    i := 0;
    match a
    case Ticks(inputs) =>
      TickKeepsRoutes(c, ps, inputs, now);
    case Sends(packet, inp) =>
      var header := ParseIpv4Header(packet);
      if header.Some? && FindBest(ps, header.value.1).idx.Some? {
        SendViaKeepsRoutes(c, ps[FindBest(ps, header.value.1).idx.value], packet, inp, now);
      }
    case ReceivesUdp(datagram, addr, inp) =>
      i := UdpReceiveDelivers(c, ps, datagram, addr, inp, now);
    case ReceivesRelayed(from, frame, inp) =>
      i := RelayReceiveDelivers(c, ps, from, frame, inp, now);
    case Syncs(_) =>
  }

  // ------------------------------------------------------------ a node's runs

  datatype Turn = Turn(activity: Activity, now: nat)

  /** A step of a node whose only source of peers is the coordinator. */
  ghost predicate TurnOk(ax: AddrSyntax, ps: Peers, t: Turn) {
    && (t.activity.Ticks? ==> |t.activity.inputs| == |ps|)
    && (t.activity.Syncs? ==> exists ds :: FromRegistry(ds) && t.activity.wanted == ParseAll(ax, ds))
  }

  /** The node registers, is told of `ds`, and goes on from there. */
  ghost predicate NodeRun(ax: AddrSyntax, c: Config, ds: seq<PeerDescriptor>, born: nat, tables: seq<Peers>,
                          turns: seq<Turn>) {
    && FromRegistry(ds)
    && |tables| == |turns| + 1
    && tables[0] == Startup(ax, ds, c.magic, born)
    && forall k | 0 <= k < |turns| ::
         TurnOk(ax, tables[k], turns[k]) && tables[k + 1] == Act(c, tables[k], turns[k].activity, turns[k].now).peers
  }

  lemma SyncFromRegistry(ax: AddrSyntax, ps: Peers, t: Turn, magic: Magic)
    requires Distinct(ps) && t.activity.Syncs? && TurnOk(ax, ps, t)
    ensures var qs := Reconcile(ps, t.activity.wanted, magic, t.now).peers; HostRoutes(qs) && Distinct(qs)
  {
    hide Reconcile, DistinctHosts, Advertised, DescribesNode, ParseAll, HostRoutes, Distinct, LeftoversKeepClear;
    var ds :| FromRegistry(ds) && t.activity.wanted == ParseAll(ax, ds);
    var r, qs, key :| Advertised(r, qs, key, ds);
    AdvertisedDescribesNodes(ax, r, qs, key, ds);
    SyncGivesHostRoutes(ps, t.activity.wanted, magic, t.now);
  }

  lemma SameRoutesAreHostRoutes(ps: Peers, qs: Peers)
    requires HostRoutes(ps) && Distinct(ps) && SameRoutes(ps, qs)
    ensures HostRoutes(qs) && Distinct(qs)
  {
  }

  lemma {:induction false} TablesHaveHostRoutes(ax: AddrSyntax, c: Config, ds: seq<PeerDescriptor>, born: nat,
                                                tables: seq<Peers>, turns: seq<Turn>, k: nat)
    requires NodeRun(ax, c, ds, born, tables, turns) && KeysDiffer(ax, ds) && k < |tables|
    ensures HostRoutes(tables[k]) && Distinct(tables[k])
    decreases k
  {
    hide Act, HostRoutes, Distinct, SameRoutes, FromRegistry, Startup, KeysDiffer;
    if k == 0 {
      StartupHasHostRoutes(ax, ds, c.magic, born);
      StartupIsDistinct(ax, ds, c.magic, born);
    } else {
      TablesHaveHostRoutes(ax, c, ds, born, tables, turns, k - 1);
      var ps, t := tables[k - 1], turns[k - 1];
      if t.activity.Syncs? {
        SyncFromRegistry(ax, ps, t, c.magic);
        SyncAct(c, ps, t.activity, t.now);
      } else {
        var i := ActDelivers(c, ps, t.activity, t.now);
        SameRoutesAreHostRoutes(ps, tables[k]);
      }
    }
  }

  /** Every table of every run has disjoint host routes exactly when the first listing spells no key twice. */
  lemma HostRoutesHoldIffKeysDiffer(ax: AddrSyntax, c: Config, ds: seq<PeerDescriptor>, born: nat)
    requires FromRegistry(ds)
    ensures KeysDiffer(ax, ds) <==>
            forall tables, turns, k | NodeRun(ax, c, ds, born, tables, turns) && 0 <= k < |tables| ::
              HostRoutes(tables[k])
  {
    hide Act, HostRoutes, Distinct, FromRegistry, Startup, KeysDiffer, ParseAll;
    if KeysDiffer(ax, ds) {
      forall tables, turns, k | NodeRun(ax, c, ds, born, tables, turns) && 0 <= k < |tables|
        ensures HostRoutes(tables[k]) {
        TablesHaveHostRoutes(ax, c, ds, born, tables, turns, k);
      }
    } else {
      var tables, t := OneSync(ax, c, ds, born);
      FirstSyncBreaksRepeatedKeys(ax, ds, c.magic, born, born);
      assert !HostRoutes(tables[1]);
    }
  }

  /** Whoever may use an address gets what is sent to it. */
  ghost predicate RoutesLeadBack(ps: Peers) {
    forall i, ip: Ipv4Addr | 0 <= i < |ps| && Allows(ps[i], ip) :: FindBest(ps, ip).idx == Some(i)
  }

  /** Of two entries with one host, the later one never gets what is sent there. */
  lemma SharedHostLosesReplies(ps: Peers, f: nat, l: nat)
    requires SharedHost(ps, f, l)
    ensures Allows(ps[l], HostAddr(ps[l].allowedIps)) && FindBest(ps, HostAddr(ps[l].allowedIps)).idx != Some(l)
    ensures !RoutesLeadBack(ps)
  {
    hide FindBest, BestPrefix;
    var ip := HostAddr(ps[l].allowedIps);
    HostSubnetContainsOnlyItself(ps[l].allowedIps[0], ip);
    assert ps[l].allowedIps[0] in ps[l].allowedIps;
    FindBestIsFirstLongest(ps, ip);
  }

  /**
   * In every table of every run each entry gets the replies to all it may send, exactly when the
   * first listing spells no key twice; otherwise one sync is enough for an entry never to get any.
   */
  lemma RoutesLeadBackIffKeysDiffer(ax: AddrSyntax, c: Config, ds: seq<PeerDescriptor>, born: nat)
    requires FromRegistry(ds)
    ensures KeysDiffer(ax, ds) <==>
            forall tables, turns, k | NodeRun(ax, c, ds, born, tables, turns) && 0 <= k < |tables| ::
              RoutesLeadBack(tables[k])
  {
    hide Act, HostRoutes, Distinct, FromRegistry, Startup, KeysDiffer, ParseAll, RoutesLeadBack;
    if KeysDiffer(ax, ds) {
      forall tables, turns, k | NodeRun(ax, c, ds, born, tables, turns) && 0 <= k < |tables|
        ensures RoutesLeadBack(tables[k])
      {
        TablesHaveHostRoutes(ax, c, ds, born, tables, turns, k);
        HostRoutesLeadBack(tables[k]);
      }
    } else {
      var tables, t := OneSync(ax, c, ds, born);
      FirstSyncBreaksRepeatedKeys(ax, ds, c.magic, born, born);
      var f: nat, l: nat :| SharedHost(tables[1], f, l);
      SharedHostLosesReplies(tables[1], f, l);
    }
  }

  lemma HostRoutesLeadBack(ps: Peers)
    requires HostRoutes(ps)
    ensures RoutesLeadBack(ps)
  {
    hide HostRoutes, FindBest, Allows;
    forall i, ip: Ipv4Addr | 0 <= i < |ps| && Allows(ps[i], ip) ensures FindBest(ps, ip).idx == Some(i) {
      RouteLeadsBack(ps, i, ip);
    }
  }

  /** The node syncs once with the very listing it started from. */
  lemma OneSync(ax: AddrSyntax, c: Config, ds: seq<PeerDescriptor>, born: nat) returns (tables: seq<Peers>, t: Turn)
    requires FromRegistry(ds)
    ensures NodeRun(ax, c, ds, born, tables, [t]) && |tables| == 2
    ensures tables[1] == Reconcile(Startup(ax, ds, c.magic, born), ParseAll(ax, ds), c.magic, born).peers
  {
    hide Act, FromRegistry, Startup, ParseAll;
    var ps := Startup(ax, ds, c.magic, born);
    t := Turn(Syncs(ParseAll(ax, ds)), born);
    tables := [ps, Act(c, ps, t.activity, t.now).peers];
    SyncAct(c, ps, t.activity, t.now);
    assert TurnOk(ax, ps, t);
  }

  /**
   * Along every run of a node fed by the coordinator, a packet written to TUN was decrypted with
   * a session of one peer `i`, and `find_best_peer_idx` sends replies to its source to that `i`.
   */
  lemma RepliesGoToTheSender(ax: AddrSyntax, c: Config, ds: seq<PeerDescriptor>, born: nat,
                             tables: seq<Peers>, turns: seq<Turn>, k: nat)
    returns (i: nat)
    requires NodeRun(ax, c, ds, born, tables, turns) && KeysDiffer(ax, ds) && k < |turns|
    ensures var s := Act(c, tables[k], turns[k].activity, turns[k].now);
            s.tun.Some? ==>
              && Delivered(c, s, s.tun.value, i)
              && FindBest(tables[k + 1], Source(s.tun.value)).idx == Some(i)
  {
    hide Act, HostRoutes, Distinct, SameRoutes, FindBest, FromRegistry, Startup, KeysDiffer;
    var s := Act(c, tables[k], turns[k].activity, turns[k].now);
    i := ActDelivers(c, tables[k], turns[k].activity, turns[k].now);
    TablesHaveHostRoutes(ax, c, ds, born, tables, turns, k + 1);
    if s.tun.Some? {
      RouteLeadsBack(tables[k + 1], i, Source(s.tun.value));
    }
  }

  // ---------------------------------------------- replies by key, in every run

  /** A listing of the registry at some point of its history `qs`. */
  ghost predicate FedBy(r: RegistryState, qs: seq<Request>, ds: seq<PeerDescriptor>) {
    exists n: nat, key :: n <= |qs| && Advertised(r, qs[..n], key, ds)
  }

  /** A run of a node that is served by one registry throughout, repeated keys or not. */
  ghost predicate ServedRun(ax: AddrSyntax, c: Config, r: RegistryState, qs: seq<Request>, ds: seq<PeerDescriptor>,
                            born: nat,
                            tables: seq<Peers>, turns: seq<Turn>) {
    && FedBy(r, qs, ds)
    && |tables| == |turns| + 1
    && tables[0] == Startup(ax, ds, c.magic, born)
    && forall k | 0 <= k < |turns| ::
         ServedTurn(ax, r, qs, tables[k], turns[k])
         && tables[k + 1] == Act(c, tables[k], turns[k].activity, turns[k].now).peers
  }

  ghost predicate ServedTurn(ax: AddrSyntax, r: RegistryState, qs: seq<Request>, ps: Peers, t: Turn) {
    && (t.activity.Ticks? ==> |t.activity.inputs| == |ps|)
    && (t.activity.Syncs? ==> exists ds :: FedBy(r, qs, ds) && t.activity.wanted == ParseAll(ax, ds))
  }

  /** Every entry holds key and address of one registered node. */
  ghost predicate Owned(r: RegistryState, order: seq<string>, key: Key, ips: seq<Subnet>)
    requires Assigned(r, order)
  {
    exists j: nat :: DescribesNode(r, order, j, key, ips)
  }

  ghost predicate TableOwned(r: RegistryState, order: seq<string>, ps: Peers)
    requires Assigned(r, order)
  {
    forall i | 0 <= i < |ps| :: Owned(r, order, ps[i].pubkey, ps[i].allowedIps)
  }

  lemma {:induction false} OrderGrows(r: RegistryState, qs: seq<Request>, n: nat)
    requires r.allocator.Valid() && n <= |qs|
    ensures Order(r, qs[..n]) <= Order(r, qs)
    decreases |qs|
  {
    hide OrderAfter;
    if n < |qs| {
      OrderGrows(r, qs[..|qs| - 1], n);
      assert qs[..|qs| - 1][..n] == qs[..n];
      OrderAfterGrows(ServeAll(r, qs[..|qs| - 1]), Order(r, qs[..|qs| - 1]), qs[|qs| - 1]);
    } else {
      assert qs[..n] == qs;
    }
  }

  lemma OrderAfterGrows(r: RegistryState, order: seq<string>, q: Request)
    requires r.allocator.Valid()
    ensures order <= OrderAfter(r, order, q)
  {
  }

  /** What a listing says of a node stays true of it. */
  lemma ListingIsOwned(ax: AddrSyntax, r: RegistryState, qs: seq<Request>, ds: seq<PeerDescriptor>)
    requires FedBy(r, qs, ds)
    ensures r.allocator.Valid()
    ensures Assigned(ServeAll(r, qs), Order(r, qs))
    ensures forall w | w in ParseAll(ax, ds) :: Owned(ServeAll(r, qs), Order(r, qs), w.pubkey, w.allowedIps)
  {
    hide ServeAll, Order, ParseAll, Assigned, HexDecode, IpAllocator.Valid, DistinctHosts, IpAllocator.Capacity;
    var n: nat, key :| n <= |qs| && Advertised(r, qs[..n], key, ds);
    AdvertisedDescribesNodes(ax, r, qs[..n], key, ds);
    ReachableIsAssigned(r, qs);
    OrderGrows(r, qs, n);
    var before, order := Order(r, qs[..n]), Order(r, qs);
    forall w | w in ParseAll(ax, ds) ensures Owned(ServeAll(r, qs), order, w.pubkey, w.allowedIps) {
      var j: nat :| DescribesNode(ServeAll(r, qs[..n]), before, j, w.pubkey, w.allowedIps);
      assert order[j] == before[j];
      assert DescribesNode(ServeAll(r, qs), order, j, w.pubkey, w.allowedIps);
    }
  }

  lemma SyncKeepsOwned(r: RegistryState, order: seq<string>, ps: Peers, wanted: seq<ParsedPeer>, magic: Magic, now: nat)
    requires Assigned(r, order) && TableOwned(r, order, ps)
    requires forall w | w in wanted :: Owned(r, order, w.pubkey, w.allowedIps)
    ensures TableOwned(r, order, Reconcile(ps, wanted, magic, now).peers)
  {
    hide Assigned, Owned, Reconcile, Retain, First;
    var kept, qs := Retain(ps, wanted), Reconcile(ps, wanted, magic, now).peers;
    LeftoversStay(ps, wanted, magic, now);
    RetainedAreWanted(ps, wanted);
    forall i | 0 <= i < |qs| ensures Owned(r, order, qs[i].pubkey, qs[i].allowedIps) {
      if First(qs, i) {
        var w := FirstFollows(ps, wanted, magic, now, i);
      } else {
        assert kept[i] in kept;
      }
    }
  }

  lemma {:induction false} TablesAreOwned(ax: AddrSyntax, c: Config, r: RegistryState, qs: seq<Request>,
                                          ds: seq<PeerDescriptor>, born: nat, tables: seq<Peers>, turns: seq<Turn>,
                                          k: nat)
    requires ServedRun(ax, c, r, qs, ds, born, tables, turns) && k < |tables|
    ensures r.allocator.Valid()
    ensures Assigned(ServeAll(r, qs), Order(r, qs)) && TableOwned(ServeAll(r, qs), Order(r, qs), tables[k])
    decreases k
  {
    hide Act, ServeAll, Order, Assigned, Owned, ParseAll, FedBy;
    ListingIsOwned(ax, r, qs, ds);
    if k > 0 {
      TablesAreOwned(ax, c, r, qs, ds, born, tables, turns, k - 1);
      var ps, t := tables[k - 1], turns[k - 1];
      if t.activity.Syncs? {
        var es :| FedBy(r, qs, es) && t.activity.wanted == ParseAll(ax, es);
        ListingIsOwned(ax, r, qs, es);
        SyncKeepsOwned(ServeAll(r, qs), Order(r, qs), ps, t.activity.wanted, c.magic, t.now);
        SyncAct(c, ps, t.activity, t.now);
      } else {
        var i := ActDelivers(c, ps, t.activity, t.now);
      }
    }
  }

  lemma OwnedAddressHasOneKey(r: RegistryState, order: seq<string>, ps: Peers, i: nat, ip: Ipv4Addr)
    requires Assigned(r, order) && TableOwned(r, order, ps) && i < |ps| && Allows(ps[i], ip)
    ensures FindBest(ps, ip).idx.Some? && ps[FindBest(ps, ip).idx.value].pubkey == ps[i].pubkey
  {
    hide FindBest, Assigned, HexDecode, IpAllocator.Valid, IpAllocator.Capacity;
    UnroutedIffNotAllowed(ps, ip);
    RouteIsMostSpecific(ps, ip);
    var k := FindBest(ps, ip).idx.value;
    var winner :| Wins(ps, ip, k, winner);
    assert Owned(r, order, ps[i].pubkey, ps[i].allowedIps) && Owned(r, order, ps[k].pubkey, ps[k].allowedIps);
    HostSubnetContainsOnlyItself(ps[i].allowedIps[0], ip);
    HostSubnetContainsOnlyItself(ps[k].allowedIps[0], ip);
  }

  /**
   * Whatever the keys: along every run of a node served by one registry, replies to a packet written
   * to TUN are routed to an entry of the very key whose session decrypted the packet.
   */
  lemma RepliesGoToTheSendersKey(ax: AddrSyntax, c: Config, r: RegistryState, qs: seq<Request>, ds: seq<PeerDescriptor>,
                                 born: nat, tables: seq<Peers>, turns: seq<Turn>, k: nat)
    returns (i: nat)
    requires ServedRun(ax, c, r, qs, ds, born, tables, turns) && k < |turns|
    ensures var s := Act(c, tables[k], turns[k].activity, turns[k].now);
            s.tun.Some? ==>
              && Delivered(c, s, s.tun.value, i)
              && var best := FindBest(tables[k + 1], Source(s.tun.value)).idx;
              best.Some? && tables[k + 1][best.value].pubkey == tables[k + 1][i].pubkey
  {
    hide Act, FindBest, FedBy, Startup, TableOwned, Assigned, ServeAll, Order;
    var t := turns[k];
    var s := Act(c, tables[k], t.activity, t.now);
    i := ActDelivers(c, tables[k], t.activity, t.now);
    TablesAreOwned(ax, c, r, qs, ds, born, tables, turns, k + 1);
    if s.tun.Some? {
      OwnedAddressHasOneKey(ServeAll(r, qs), Order(r, qs), tables[k + 1], i, Source(s.tun.value));
    }
  }

  // ------------------------------------------------- from one TUN to the other

  /** What the TUN device of node `i` is given when it takes the step from `ws[k]` to `ws[k + 1]`. */
  ghost predicate WritesToTun(ws: seq<World>, k: nat, i: nat, a: Activity, now: nat, data: Bytes) {
    && k + 1 < |ws| && NextBy(ws[k], ws[k + 1], i, a, now)
    && Act(ws[k].nodes[i].config, ws[k].nodes[i].peers, a, now).tun == Some(data)
  }

  /** The entry `s` records that `remote` sealed, for `local`, a packet that opens as `data`. */
  ghost predicate SealedFor(s: LogEntry, local: Key, remote: Key, data: Bytes) {
    && s.local == remote && s.remote == local && s.event.Encrypted? && s.event.sent
    && Unpad(s.event.plain) == data
    && (LengthHonest(s.event.payload) ==> s.event.payload == data)
  }

  /**
   * Whatever the network does: a packet written to TUN was sealed earlier, for this node, by the
   * peer that may use its source address, and is the payload that peer was given unless that
   * payload's own length field is wrong.
   */
  lemma TunPacketsAreAuthentic(ws: seq<World>, k: nat, i: nat, a: Activity, now: nat, data: Bytes)
    returns (j: nat, s: LogEntry)
    requires Run(ws) && WritesToTun(ws, k, i, a, now, data)
    ensures j < |ws[k + 1].nodes[i].peers|
    ensures var node := ws[k + 1].nodes[i]; var p := node.peers[j];
                                            && HasHeader(data) && Allows(p, Source(data))
                                            && s in ws[k + 1].history && SealedFor(s, node.config.local, p.pubkey, data)
  {
    hide Act, HistoryOk, WorldSafe, FreshInputs, Derivable, SessionUsed, HandshakeUsed;
    var c, ps := ws[k].nodes[i].config, ws[k].nodes[i].peers;
    j := ActDelivers(c, ps, a, now);
    var step := Act(c, ps, a, now);
    var e :| e in step.log && e.local == c.local && e.remote == step.peers[j].pubkey && e.event.Opened?
             && e.event.payload == data;
    var h := ws[k + 1].history;
    assert h == ws[k].history + step.log;
    RunsAreSafe(ws, k + 1);
    s := SealBehind(h, e);
  }

  lemma SealBehind(h: History, e: LogEntry) returns (s: LogEntry)
    requires HistoryOk(h) && e in h && e.event.Opened?
    ensures s in h && SealedFor(s, e.local, e.remote, e.event.payload)
  {
    var n :| 0 <= n < |h| && h[n] == e;
    DeliveryIsExplainedOnce(h, n);
    var m: nat :| m < n && Explains(h[m], h[n]);
    ExplanationIsUnique(h, m, n);
    assert EventOk(h[..n], h[n]);
    s := h[m];
  }
}
