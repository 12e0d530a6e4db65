/**
 * What a node makes of the coordinator's listings: the table it starts with, the tables later
 * listings turn it into, and exactly when these keep one address per peer and no address twice.
 */
module Listing {
  import opened Wrappers
  import opened Words
  import opened Packet
  import opened Noise
  import opened PeerModel
  import opened DaemonModel
  import opened Text
  import opened Spec
  import opened Allocator
  import opened RegistryModel
  import opened Reconciliation

  predicate IsHost(subnets: seq<Subnet>) {
    |subnets| == 1 && subnets[0].prefixLen == 32
  }

  function HostAddr(subnets: seq<Subnet>): Ipv4Addr {
    if subnets == [] then 0 else subnets[0].addr
  }

  /** One /32 per peer, no address twice. */
  ghost predicate HostRoutes(ps: Peers) {
    && (forall i | 0 <= i < |ps| :: IsHost(ps[i].allowedIps))
    && (forall i, j | 0 <= i < j < |ps| :: HostAddr(ps[i].allowedIps) != HostAddr(ps[j].allowedIps))
  }

  ghost predicate DistinctHosts(ws: seq<ParsedPeer>) {
    && (forall i | 0 <= i < |ws| :: IsHost(ws[i].allowedIps))
    && (forall i, j | 0 <= i < j < |ws| :: HostAddr(ws[i].allowedIps) != HostAddr(ws[j].allowedIps))
  }

  // ---------------------------------------------- what the registry advertises

  /** The address a registered node was given reads as a /32. */
  lemma NodeAddressParses(r: RegistryState, order: seq<string>, i: nat)
    requires Assigned(r, order) && i < |order|
    ensures ParseAllowedIps(r.nodes[order[i]].allowedIp) == Some([Ipv4Subnet(AddressOf(r, i), 32)])
    ensures ';' !in r.nodes[order[i]].allowedIp
  {
    hide Ipv4Text, ParseSubnet, IpAllocator.Capacity, IpAllocator.Valid;
    var addr := AddressOf(r, i);
    Ipv4TextChars(addr);
    SplitNone(Ipv4Text(addr), ',');
    HostRoundTrip(addr);
    Ipv4TextNotEmpty(addr);
    TrimPlain(Ipv4Text(addr));
    ParseOneSubnet(Ipv4Text(addr), Ipv4Subnet(addr, 32));
  }

  lemma ParseOneSubnet(text: string, subnet: Subnet)
    requires ParseSubnet(Trim(text)) == Some(subnet)
    ensures ParseSubnets([text]) == Some([subnet])
  {
    hide ParseSubnet, Trim;
    var parts := [text];
    var rest := parts[1..];
    assert rest == [] && ParseSubnets(rest) == Some([]);
    assert ParseSubnets(parts) == Some([subnet] + []) && [subnet] + [] == [subnet];
  }

  lemma Ipv4TextNotEmpty(addr: Ipv4Addr)
    ensures Ipv4Text(addr) != ""
  {
  }

  /** Key and addresses are those of the `j`-th registered node: its digits as hex, and its address. */
  ghost predicate DescribesNode(r: RegistryState, order: seq<string>, j: nat, key: Key, ips: seq<Subnet>)
    requires Assigned(r, order)
  {
    j < |order| && HexDecode(order[j]) == Some(key) && ips == [Ipv4Subnet(AddressOf(r, j), 32)]
  }

  /** Each description in a listing that parses describes the node it was made for. */
  lemma ListedPeer(ax: AddrSyntax, r: RegistryState, order: seq<string>, ds: seq<PeerDescriptor>, ks: seq<string>,
                   i: nat)
    returns (j: nat)
    requires Assigned(r, order) && |ds| == |ks| && i < |ds|
    requires ks[i] in r.nodes && ds[i] == Describe(r.nodes[ks[i]]) && Parses(ax, ds[i])
    ensures var w := ParsePeerArg(ax, ToSpec(ds[i])).value;
            DescribesNode(r, order, j, w.pubkey, w.allowedIps) && order[j] == ks[i]
  {
    hide ParsePeerArg, ToSpec, Ipv4Text, HexDecode, ParseAllowedIps, IpAllocator.Capacity, IpAllocator.Valid;
    j :| j < |order| && order[j] == ks[i];
    NodeAddressParses(r, order, j);
    ParsedKey(ax, ds[i]);
  }

  /** The descriptions that parse carry addresses of the nodes listed, as /32s, all different. */
  lemma AdvertisedAreHosts(ax: AddrSyntax, r: RegistryState, order: seq<string>, ds: seq<PeerDescriptor>,
                           ks: seq<string>)
    requires Assigned(r, order) && |ds| == |ks|
    requires forall i, j | 0 <= i < j < |ks| :: ks[i] != ks[j]
    requires forall i | 0 <= i < |ks| :: ks[i] in r.nodes && ds[i] == Describe(r.nodes[ks[i]])
    ensures DistinctHosts(ParseAll(ax, ds))
    ensures forall w | w in ParseAll(ax, ds) :: exists j: nat :: DescribesNode(r, order, j, w.pubkey, w.allowedIps)
  {
    hide ParsePeerArg, ToSpec, Assigned, HexDecode, IpAllocator.Capacity, IpAllocator.Valid;
    var ws := ParseAll(ax, ds);
    var at := ParsedPlaces(ax, ds);
    forall k, l | 0 <= k < l < |ws|
      ensures HostAddr(ws[k].allowedIps) != HostAddr(ws[l].allowedIps)
    {
      var i := ListedPeer(ax, r, order, ds, ks, at[k]);
      var j := ListedPeer(ax, r, order, ds, ks, at[l]);
      AddressesDiffer(r, order, i, j);
    }
    forall k | 0 <= k < |ws|
      ensures IsHost(ws[k].allowedIps)
      ensures exists j: nat :: DescribesNode(r, order, j, ws[k].pubkey, ws[k].allowedIps)
    {
      var j := ListedPeer(ax, r, order, ds, ks, at[k]);
    }
  }

  lemma AddressesDiffer(r: RegistryState, order: seq<string>, i: nat, j: nat)
    requires Assigned(r, order) && i < |order| && j < |order| && order[i] != order[j]
    ensures AddressOf(r, i) != AddressOf(r, j)
  {
  }

  /** A listing of some registry reached from empty, in any order. */
  ghost predicate Advertised(r: RegistryState, qs: seq<Request>, key: string, ds: seq<PeerDescriptor>) {
    r.allocator.Valid() && r.nodes == map[] && exists ks :: Lists(ServeAll(r, qs), key, ds, ks)
  }

  ghost predicate FromRegistry(ds: seq<PeerDescriptor>) {
    exists r, qs, key :: Advertised(r, qs, key, ds)
  }

  lemma AdvertisedDescribesNodes(ax: AddrSyntax, r: RegistryState, qs: seq<Request>, key: string,
                                 ds: seq<PeerDescriptor>)
    requires Advertised(r, qs, key, ds)
    ensures Assigned(ServeAll(r, qs), Order(r, qs)) && DistinctHosts(ParseAll(ax, ds))
    ensures forall w | w in ParseAll(ax, ds) ::
              exists j: nat :: DescribesNode(ServeAll(r, qs), Order(r, qs), j, w.pubkey, w.allowedIps)
  {
    hide ServeAll, Order, DistinctHosts, DescribesNode, ParseAll;
    var ks :| Lists(ServeAll(r, qs), key, ds, ks);
    ReachableIsAssigned(r, qs);
    AdvertisedAreHosts(ax, ServeAll(r, qs), Order(r, qs), ds, ks);
  }

  // ------------------------------------------------------------ the first table

  /** The table of a daemon that just registered: a peer for each description that parses, in order. */
  function Startup(ax: AddrSyntax, ds: seq<PeerDescriptor>, magic: Magic, now: nat): Peers {
    Created(ParseAll(ax, ds), magic, now)
  }

  /** The first table: an entry for each description that parses, in order, as new as the registration. */
  lemma StartupIsNew(ax: AddrSyntax, ds: seq<PeerDescriptor>, magic: Magic, now: nat) returns (at: seq<nat>)
    ensures var ps := Startup(ax, ds, magic, now);
            && |at| == |ps|
            && (forall k, l | 0 <= k < l < |at| :: at[k] < at[l])
            && (forall i | 0 <= i < |ds| :: i in at <==> Parses(ax, ds[i]))
            && forall k | 0 <= k < |at| ::
                 && at[k] < |ds| && Parses(ax, ds[at[k]])
                 && var w, p := ParsePeerArg(ax, ToSpec(ds[at[k]])).value, ps[k];
                 && p.pubkey == w.pubkey && p.endpoint == w.endpoint && p.allowedIps == w.allowedIps
                 && p.magic == magic && p.active.None? && p.previous.None? && p.handshake.None?
                 && p.lastRx == p.lastTx == p.lastDirectRx == now
  {
    hide ParsePeerArg, ToSpec, Created;
    at := ParsedPlaces(ax, ds);
    forall k | 0 <= k < |at| {
      CreatedAreNew(ParseAll(ax, ds), magic, now, k);
    }
  }

  /** No two descriptions that parse spell one key; the registry compares the digits, not the key. */
  predicate KeysDiffer(ax: AddrSyntax, ds: seq<PeerDescriptor>) {
    forall i, j | 0 <= i < j < |ds| && Parses(ax, ds[i]) && Parses(ax, ds[j]) ::
      HexDecode(ds[i].publicKey) != HexDecode(ds[j].publicKey)
  }

  /** The first table has one /32 per peer, whatever the keys. */
  lemma StartupHasHostRoutes(ax: AddrSyntax, ds: seq<PeerDescriptor>, magic: Magic, now: nat)
    requires FromRegistry(ds)
    ensures HostRoutes(Startup(ax, ds, magic, now))
  {
    hide ParseAll, Advertised;
    var r, qs, key :| Advertised(r, qs, key, ds);
    AdvertisedDescribesNodes(ax, r, qs, key, ds);
  }

  /** The first table has no key twice exactly when the listing spells none twice. */
  lemma StartupIsDistinct(ax: AddrSyntax, ds: seq<PeerDescriptor>, magic: Magic, now: nat)
    ensures Distinct(Startup(ax, ds, magic, now)) <==> KeysDiffer(ax, ds)
  {
    hide ParsePeerArg, ToSpec, HexDecode, ParseAll;
    var ws, ps := ParseAll(ax, ds), Startup(ax, ds, magic, now);
    var at := ParsedPlaces(ax, ds);
    forall k | 0 <= k < |ws| ensures HexDecode(ds[at[k]].publicKey) == Some(ps[k].pubkey) {
      ParsedKey(ax, ds[at[k]]);
    }
    if Distinct(ps) {
      forall i, j | 0 <= i < j < |ds| && Parses(ax, ds[i]) && Parses(ax, ds[j])
        ensures HexDecode(ds[i].publicKey) != HexDecode(ds[j].publicKey)
      {
        assert i in at && j in at;
        var k :| 0 <= k < |at| && at[k] == i;
        var l :| 0 <= l < |at| && at[l] == j;
        assert ps[k].pubkey != ps[l].pubkey;
      }
    }
  }

  // ------------------------------------------------------------ later tables

  /**
   * Entries that are not the first of their key keep the addresses they have: single /32s, all
   * different, and none that a description in force gives to some key.
   */
  ghost predicate LeftoversKeepClear(ps: Peers, wanted: seq<ParsedPeer>) {
    && (forall i | 0 <= i < |ps| && !First(ps, i) :: IsHost(ps[i].allowedIps))
    && (forall i, j | 0 <= i < j < |ps| && !First(ps, i) && !First(ps, j) ::
          HostAddr(ps[i].allowedIps) != HostAddr(ps[j].allowedIps))
    && (forall i, w | 0 <= i < |ps| && !First(ps, i) && w in wanted && LastFor(wanted, w.pubkey) == Some(w) ::
          HostAddr(ps[i].allowedIps) != HostAddr(w.allowedIps))
  }

  /** After a sync, the first entry of each key holds what the last description of the key says. */
  lemma FirstFollows(ps: Peers, wanted: seq<ParsedPeer>, magic: Magic, now: nat, i: nat) returns (w: ParsedPeer)
    requires i < |Reconcile(ps, wanted, magic, now).peers| && First(Reconcile(ps, wanted, magic, now).peers, i)
    ensures var q := Reconcile(ps, wanted, magic, now).peers[i];
            w in wanted && LastFor(wanted, q.pubkey) == Some(w) && w.pubkey == q.pubkey && q.allowedIps == w.allowedIps
  {
    hide Reconcile, Newcomers, Created, Retain, Wanted;
    var qs := Reconcile(ps, wanted, magic, now).peers;
    SyncInClosedForm(ps, wanted, magic, now);
    assert qs[i] in qs && HasKey(qs, qs[i].pubkey);
    LastForFinds(wanted, qs[i].pubkey);
    w := LastFor(wanted, qs[i].pubkey).value;
  }

  lemma SameFirsts(ps: Peers, qs: Peers, i: nat)
    requires i < |ps| && i < |qs| && forall k | 0 <= k <= i :: ps[k].pubkey == qs[k].pubkey
    ensures First(ps, i) <==> First(qs, i)
  {
  }

  lemma NewcomersComeFirst(ps: Peers, wanted: seq<ParsedPeer>, magic: Magic, now: nat, i: nat)
    requires i < |ps| + |Newcomers(ps, wanted)|
    ensures var base := ps + Created(Newcomers(ps, wanted), magic, now);
            !First(base, i) <==> i < |ps| && !First(ps, i)
  {
    hide Newcomers, Wanted;
    var base := ps + Created(Newcomers(ps, wanted), magic, now);
    NewcomersAreNew(ps, wanted);
    if i < |ps| {
      SameFirsts(ps, base, i);
    } else {
      forall k | 0 <= k < i ensures base[k].pubkey != base[i].pubkey {
        if k < |ps| {
          assert ps[k] in ps;
        }
      }
    }
  }

  /** Later entries of a key are exactly those the table had before, unchanged. */
  lemma LeftoversStay(ps: Peers, wanted: seq<ParsedPeer>, magic: Magic, now: nat)
    ensures var kept, qs := Retain(ps, wanted), Reconcile(ps, wanted, magic, now).peers;
            && |kept| <= |qs|
            && (forall i | 0 <= i < |qs| :: !First(qs, i) <==> i < |kept| && !First(kept, i))
            && (forall i | 0 <= i < |kept| && !First(kept, i) :: qs[i] == kept[i])
  {
    hide Reconcile, Newcomers, Retain, Created, First, Refresh;
    var kept, qs := Retain(ps, wanted), Reconcile(ps, wanted, magic, now).peers;
    SyncInClosedForm(ps, wanted, magic, now);
    var base := kept + Created(Newcomers(kept, wanted), magic, now);
    forall i | 0 <= i < |qs| ensures !First(qs, i) <==> i < |kept| && !First(kept, i) {
      SameFirsts(qs, base, i);
      NewcomersComeFirst(kept, wanted, magic, now, i);
    }
    forall i | 0 <= i < |kept| && !First(kept, i) ensures qs[i] == kept[i] {
      NewcomersComeFirst(kept, wanted, magic, now, i);
    }
  }

  /**
   * From descriptions of distinct hosts, a sync makes one /32 per peer and no address twice exactly
   * when the later entries of repeated keys keep out of the way. A table without repeated keys has
   * none, and stays so.
   */
  lemma SyncGivesHostRoutes(ps: Peers, wanted: seq<ParsedPeer>, magic: Magic, now: nat)
    requires DistinctHosts(wanted)
    ensures HostRoutes(Reconcile(ps, wanted, magic, now).peers) <==> LeftoversKeepClear(Retain(ps, wanted), wanted)
    ensures Distinct(ps) ==>
              LeftoversKeepClear(Retain(ps, wanted), wanted) && Distinct(Reconcile(ps, wanted, magic, now).peers)
  {
    hide Reconcile, Retain, HostRoutes, LeftoversKeepClear, DistinctHosts;
    LeftoversStay(ps, wanted, magic, now);
    if LeftoversKeepClear(Retain(ps, wanted), wanted) {
      ClearMeansHostRoutes(ps, wanted, magic, now);
    }
    if HostRoutes(Reconcile(ps, wanted, magic, now).peers) {
      HostRoutesMeanClear(ps, wanted, magic, now);
    }
    if Distinct(ps) {
      SyncInClosedForm(ps, wanted, magic, now);
      RetainKeepsDistinct(ps, wanted);
      DistinctKeepsClear(Retain(ps, wanted), wanted);
    }
  }

  lemma DistinctKeepsClear(ps: Peers, wanted: seq<ParsedPeer>)
    requires Distinct(ps)
    ensures LeftoversKeepClear(ps, wanted)
  {
  }

  lemma ClearMeansHostRoutes(ps: Peers, wanted: seq<ParsedPeer>, magic: Magic, now: nat)
    requires DistinctHosts(wanted) && LeftoversKeepClear(Retain(ps, wanted), wanted)
    ensures HostRoutes(Reconcile(ps, wanted, magic, now).peers)
  {
    hide Reconcile, Retain, First;
    var qs := Reconcile(ps, wanted, magic, now).peers;
    LeftoversStay(ps, wanted, magic, now);
    forall i | 0 <= i < |qs| ensures IsHost(qs[i].allowedIps) {
      if First(qs, i) {
        var w := FirstFollows(ps, wanted, magic, now, i);
      }
    }
    forall i, j | 0 <= i < j < |qs| ensures HostAddr(qs[i].allowedIps) != HostAddr(qs[j].allowedIps) {
      if First(qs, i) && First(qs, j) {
        FirstsDiffer(ps, wanted, magic, now, i, j);
      } else if First(qs, i) {
        var w := FirstFollows(ps, wanted, magic, now, i);
      } else if First(qs, j) {
        var w := FirstFollows(ps, wanted, magic, now, j);
      }
    }
  }

  lemma FirstsDiffer(ps: Peers, wanted: seq<ParsedPeer>, magic: Magic, now: nat, i: nat, j: nat)
    requires DistinctHosts(wanted) && i < j < |Reconcile(ps, wanted, magic, now).peers|
    requires First(Reconcile(ps, wanted, magic, now).peers, i) && First(Reconcile(ps, wanted, magic, now).peers, j)
    ensures var qs := Reconcile(ps, wanted, magic, now).peers;
            HostAddr(qs[i].allowedIps) != HostAddr(qs[j].allowedIps)
  {
    hide Reconcile;
    var v := FirstFollows(ps, wanted, magic, now, i);
    var w := FirstFollows(ps, wanted, magic, now, j);
    var a: nat :| a < |wanted| && wanted[a] == v;
    var b: nat :| b < |wanted| && wanted[b] == w;
    assert v.pubkey != w.pubkey;
  }

  lemma HostRoutesMeanClear(ps: Peers, wanted: seq<ParsedPeer>, magic: Magic, now: nat)
    requires HostRoutes(Reconcile(ps, wanted, magic, now).peers)
    ensures LeftoversKeepClear(Retain(ps, wanted), wanted)
  {
    hide Reconcile, Retain;
    var kept, qs := Retain(ps, wanted), Reconcile(ps, wanted, magic, now).peers;
    LeftoversStay(ps, wanted, magic, now);
    forall i, w | 0 <= i < |kept| && !First(kept, i) && w in wanted && LastFor(wanted, w.pubkey) == Some(w)
      ensures HostAddr(kept[i].allowedIps) != HostAddr(w.allowedIps)
    {
      SyncInClosedForm(ps, wanted, magic, now);
      assert HasKey(qs, w.pubkey);
      var f := FindKey(qs, w.pubkey).value;
      assert First(qs, f) && f != i;
      var v := FirstFollows(ps, wanted, magic, now, f);
    }
  }

  lemma {:induction false} LastForPlace(wanted: seq<ParsedPeer>, key: Key) returns (l: nat)
    requires Wanted(wanted, key)
    ensures l < |wanted| && wanted[l].pubkey == key && LastFor(wanted, key) == Some(wanted[l])
    ensures forall m | l < m < |wanted| :: wanted[m].pubkey != key
    decreases |wanted|
  {
    hide Wanted;
    WantedEarlier(wanted, key);
    l := |wanted| - 1;
    if wanted[l].pubkey != key {
      l := LastForPlace(wanted[..l], key);
    }
  }

  lemma WantedEarlier(wanted: seq<ParsedPeer>, key: Key)
    requires Wanted(wanted, key)
    ensures wanted != []
    ensures wanted[|wanted| - 1].pubkey != key ==> Wanted(wanted[..|wanted| - 1], key)
  {
    var w :| w in wanted && w.pubkey == key;
    assert wanted == wanted[..|wanted| - 1] + [wanted[|wanted| - 1]];
  }

  /** Two entries hold one and the same host. */
  ghost predicate SharedHost(ps: Peers, i: nat, j: nat) {
    i < j < |ps| && IsHost(ps[i].allowedIps) && ps[j].allowedIps == ps[i].allowedIps
  }

  /**
   * A first table with a repeated key breaks at the first sync, even with the very listing it was
   * made from: the first entry of the key takes over the address of the last one.
   */
  lemma FirstSyncBreaksRepeatedKeys(ax: AddrSyntax, ds: seq<PeerDescriptor>, magic: Magic, born: nat, now: nat)
    requires FromRegistry(ds) && !KeysDiffer(ax, ds)
    ensures var qs := Reconcile(Startup(ax, ds, magic, born), ParseAll(ax, ds), magic, now).peers;
            !HostRoutes(qs) && exists f, l :: SharedHost(qs, f, l)
  {
    hide ParseAll, Advertised, KeysDiffer, DescribesNode, Reconcile;
    var ws, ps := ParseAll(ax, ds), Startup(ax, ds, magic, born);
    var r, qs, key :| Advertised(r, qs, key, ds);
    AdvertisedDescribesNodes(ax, r, qs, key, ds);
    StartupIsDistinct(ax, ds, magic, born);
    var i, j :| 0 <= i < j < |ps| && ps[i].pubkey == ps[j].pubkey;
    RepeatedKeyIsShared(ps, ws, magic, born, now, i, j);
  }

  lemma RepeatedKeyIsShared(ps: Peers, ws: seq<ParsedPeer>, magic: Magic, born: nat, now: nat, i: nat, j: nat)
    requires ps == Created(ws, magic, born) && DistinctHosts(ws)
    requires i < j < |ps| && ps[i].pubkey == ps[j].pubkey
    ensures exists f, l :: SharedHost(Reconcile(ps, ws, magic, now).peers, f, l)
  {
    hide DistinctHosts, Reconcile;
    forall p | p in ps ensures Wanted(ws, p.pubkey) {
      var m :| 0 <= m < |ps| && ps[m] == p;
      assert ws[m] in ws;
    }
    RetainEverything(ps, ws);
    assert ps[j] in ps;
    var l := LastForPlace(ws, ps[j].pubkey);
    assert i < l && ps[l].pubkey == ps[i].pubkey && !First(ps, l);
    LeftoversStay(ps, ws, magic, now);
    var after := Reconcile(ps, ws, magic, now).peers;
    var f := FindKey(after, ps[l].pubkey).value;
    assert First(after, f) && f < l;
    var w := FirstFollows(ps, ws, magic, now, f);
    HostsAreHosts(ws, l);
    assert SharedHost(after, f, l);
  }

  lemma HostsAreHosts(ws: seq<ParsedPeer>, l: nat)
    requires DistinctHosts(ws) && l < |ws|
    ensures IsHost(ws[l].allowedIps)
  {
  }

  // ------------------------------------------------------- the failing case

  function Repeated(c: char, n: nat): string {
    seq(n, _ => c)
  }

  function RepeatedByte(n: nat): Bytes {
    seq(n, _ => 0xAA)
  }

  lemma {:induction false} RepeatedDecodes(c: char, n: nat)
    requires c in {'a', 'A'}
    ensures HexDecode(Repeated(c, 2 * n)) == Some(RepeatedByte(n))
  {
    if n == 0 {
      assert Repeated(c, 0) == "" && RepeatedByte(0) == [];
    } else {
      RepeatedDecodes(c, n - 1);
      assert Repeated(c, 2 * n)[2..] == Repeated(c, 2 * (n - 1));
      assert [0xAA] + RepeatedByte(n - 1) == RepeatedByte(n);
    }
  }

  /** One key registers in small letters, then in capitals. */
  function BothCases(): seq<Request> {
    [RegisterRequest(Repeated('a', 64), "", None, None, true), RegisterRequest(Repeated('A', 64), "", None, None, true)]
  }

  lemma BothCasesRegister(r: RegistryState)
    requires r.allocator.Valid() && r.nodes == map[] && r.whitelist.None?
    ensures Order(r, BothCases()) == [Repeated('a', 64), Repeated('A', 64)]
    ensures Assigned(ServeAll(r, BothCases()), Order(r, BothCases()))
    ensures forall k | k in ServeAll(r, BothCases()).nodes :: ServeAll(r, BothCases()).nodes[k].endpoint == Some("")
  {
    hide IpAllocator.Valid, IpAllocator.Capacity, IpAllocator.NextFree, Ipv4Text, Used, Assigned, AddressOf;
    var qs := BothCases();
    assert Repeated('a', 64)[0] != Repeated('A', 64)[0];
    CapacityIsPositive(r.allocator);
    ReachableIsAssigned(r, qs);
    ReachableIsAssigned(r, qs[..1]);
    NodesAreOrdered(ServeAll(r, qs[..1]), Order(r, qs[..1]));
    NodesAreOrdered(ServeAll(r, qs), Order(r, qs));
    assert qs[..1][..0] == [] && qs[..|qs| - 1] == qs[..1];
    assert Order(r, qs[..1]) == [Repeated('a', 64)];
  }

  function BothDescribed(r: RegistryState): seq<PeerDescriptor>
    requires Repeated('a', 64) in r.nodes && Repeated('A', 64) in r.nodes
  {
    [Describe(r.nodes[Repeated('a', 64)]), Describe(r.nodes[Repeated('A', 64)])]
  }

  lemma BothParse(ax: AddrSyntax, r: RegistryState, order: seq<string>, i: nat)
    requires Assigned(r, order) && i < |order| && order[i] in {Repeated('a', 64), Repeated('A', 64)}
    requires r.nodes[order[i]].endpoint == Some("")
    ensures ParsePeerArg(ax, ToSpec(Describe(r.nodes[order[i]])))
         == Ok(ParsedPeer(RepeatedByte(32), None, [Ipv4Subnet(AddressOf(r, i), 32)]))
  {
    hide IpAllocator.Valid, IpAllocator.Capacity, HexDecode, ParseAllowedIps, Ipv4Text, ToSpec, ParsePeerArg;
    RepeatedDecodes(order[i][0], 32);
    NodeAddressParses(r, order, i);
    SpecParsesFieldByField(ax, Describe(r.nodes[order[i]]));
  }

  /**
   * A run that breaks: from an empty registry the two requests give two nodes with one key. A third
   * node starts with one entry for each; its first sync, with the same listing, leaves both entries
   * with the address of the second.
   */
  lemma RepeatedKeyWitness(ax: AddrSyntax, r: RegistryState, magic: Magic, born: nat, now: nat)
    requires r.allocator.Valid() && r.nodes == map[] && r.whitelist.None?
    ensures var s := ServeAll(r, BothCases());
            && Repeated('a', 64) in s.nodes && Repeated('A', 64) in s.nodes
            && var ds := BothDescribed(s);
            var ps := Startup(ax, ds, magic, born);
            var qs := Reconcile(ps, ParseAll(ax, ds), magic, now).peers;
            && Advertised(r, BothCases(), "", ds) && !KeysDiffer(ax, ds)
            && |qs| == 2 && qs[0].pubkey == qs[1].pubkey
            && IsHost(qs[0].allowedIps) && qs[0].allowedIps == qs[1].allowedIps
  {
    hide Assigned, ServeAll, Order, Reconcile, Parses, HexDecode, ParsePeerArg, ToSpec;
    var s, order := ServeAll(r, BothCases()), Order(r, BothCases());
    BothCasesRegister(r);
    NodesAreOrdered(s, order);
    assert order[0] in s.nodes && order[1] in s.nodes;
    var ds := BothDescribed(s);
    BothAreListed(s, order, ds);
    BothParse(ax, s, order, 0);
    BothParse(ax, s, order, 1);
    var v := ParsedPeer(RepeatedByte(32), None, [Ipv4Subnet(AddressOf(s, 0), 32)]);
    var w := ParsedPeer(RepeatedByte(32), None, [Ipv4Subnet(AddressOf(s, 1), 32)]);
    assert ds[..1][..0] == [] && ParseAll(ax, ds[..1]) == [v];
    assert ParseAll(ax, ds) == [v, w];
    StartupIsDistinct(ax, ds, magic, born);
    var ps := Startup(ax, ds, magic, born);
    assert ps[0].pubkey == ps[1].pubkey;
    LastOfTwo(ps, v, w, magic, now);
  }

  lemma NodesAreOrdered(r: RegistryState, order: seq<string>)
    requires Assigned(r, order)
    ensures forall k :: k in r.nodes <==> k in order
    ensures forall k | k in r.nodes :: r.nodes[k].publicKey == k
    ensures |order| <= r.allocator.Capacity()
  {
  }

  lemma BothAreListed(r: RegistryState, order: seq<string>, ds: seq<PeerDescriptor>)
    requires Assigned(r, order) && order == [Repeated('a', 64), Repeated('A', 64)]
    requires Repeated('a', 64) in r.nodes && Repeated('A', 64) in r.nodes && ds == BothDescribed(r)
    ensures Lists(r, "", ds, order)
  {
    hide Assigned, Describe;
    NodesAreOrdered(r, order);
    assert Repeated('a', 64)[0] != Repeated('A', 64)[0];
  }

  lemma LastOfTwo(ps: Peers, v: ParsedPeer, w: ParsedPeer, magic: Magic, now: nat)
    requires |ps| == 2 && ps[0].pubkey == ps[1].pubkey == v.pubkey == w.pubkey && ps[1].allowedIps == w.allowedIps
    ensures var qs := Reconcile(ps, [v, w], magic, now).peers;
            |qs| == 2 && qs[0].pubkey == qs[1].pubkey && qs[0].allowedIps == qs[1].allowedIps == w.allowedIps
  {
    hide Reconcile;
    assert w in [v, w];
    RetainEverything(ps, [v, w]);
    assert ps[0] in ps && HasKey(ps, v.pubkey);
    NoNewcomers(ps, [v, w]);
    SyncInClosedForm(ps, [v, w], magic, now);
    assert ps + Created([], magic, now) == ps;
    assert LastFor([v, w], ps[0].pubkey) == Some(w);
    assert First(ps, 0) && !First(ps, 1);
  }
}
