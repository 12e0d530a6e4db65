/** Overlay addresses out of one CIDR block (`IpAllocator` in src/coordinator.rs). */
module Allocator {
  import opened Wrappers
  import opened Words
  import opened Bits
  import opened Packet
  import opened Text

  datatype CidrError = NoSlash | BadAddress | BadPrefix | NoHosts

  function SplitOnce(s: string, sep: char): Option<(string, string)> {
    if s == "" then None
    else if s[0] == sep then Some(("", s[1..]))
    else match SplitOnce(s[1..], sep)
         case Some((a, b)) => Some(([s[0]] + a, b))
         case None => None
  }

  datatype IpAllocator = IpAllocator(network: u32, prefix: u8) {

    /** What `New` establishes: the network address has no host bits, and hosts exist. */
    predicate Valid() {
      prefix <= 30 && Low(network, 32 - prefix) == 0
    }

    static function New(cidr: string): Result<IpAllocator, CidrError> {
      match SplitOnce(cidr, '/')
      case None => Err(NoSlash)
      case Some((addrText, prefixText)) =>
        var addr, prefix := ParseIpv4(addrText), ParseU8(prefixText);
        if addr.None? then Err(BadAddress)
        else if prefix.None? then Err(BadPrefix)
        else if prefix.value > 30 then Err(NoHosts)
        else
          var mask := if prefix.value == 0 then 0 else Shl(0xFFFF_FFFF, 32 - prefix.value, 32);
          AndBelow(addr.value, mask);
          Ok(IpAllocator(And(addr.value, mask), prefix.value))
    }

    /**
     * Inclusive. With overflow checks off, `1u32 << 32` is 1 and `0 - 1` is the largest u32, so
     * a /0 gets the range 1 .. 2^32-1; with checks on it panics.
     */
    function HostRange(): (r: (u32, u32))
      requires Valid()
    {
      var size := Shl(1, (32 - prefix) % 32, 32);
      var broadcast := Or(network, (size + 0xFFFF_FFFF) % 0x1_0000_0000);
      ((network + 1) % 0x1_0000_0000, (broadcast + 0xFFFF_FFFF) % 0x1_0000_0000)
    }

    /** The first address of the range that `used` does not hold. */
    function NextFree(used: set<Ipv4Addr>): Option<Ipv4Addr>
      requires Valid()
    {
      FirstUnused(used, HostRange().0, HostRange().1)
    }

    /** Number of addresses the block has for nodes. */
    function Capacity(): int
      requires Valid()
    {
      if prefix == 0 then 0xFFFF_FFFF else Pow2(32 - prefix) - 2
    }
  }

  function FirstUnused(used: set<Ipv4Addr>, first: nat, last: u32): Option<Ipv4Addr>
    decreases last - first
  {
    if first > last then None
    else if first !in used then Some(first)
    else FirstUnused(used, first + 1, last)
  }

  lemma NewIsValid(cidr: string)
    requires IpAllocator.New(cidr).Ok?
    ensures IpAllocator.New(cidr).value.Valid()
  {
    hide ParseIpv4, ParseU8, SplitOnce, And, Shl;
    var a := IpAllocator.New(cidr).value;
    var addr := ParseIpv4(SplitOnce(cidr, '/').value.0).value;
    NetworkHasNoHostBits(addr, a.prefix);
  }

  lemma NetworkHasNoHostBits(addr: u32, prefix: nat)
    requires prefix <= 32
    ensures Low(And(addr, if prefix == 0 then 0 else Shl(0xFFFF_FFFF, 32 - prefix, 32)), 32 - prefix) == 0
  {
    hide Shl;
    if prefix == 0 {
      LowOfZero(32);
    } else {
      WidthValues();
      MaskIsHighBits(32 - prefix);
      AndHighMask(addr, 32 - prefix, 32);
      ClearingLowBits(addr, 32 - prefix);
    }
  }

  lemma {:induction false} SplitOnceAt(a: string, b: string, sep: char)
    requires sep !in a
    ensures SplitOnce(a + [sep] + b, sep) == Some((a, b))
  {
    var s := a + [sep] + b;
    if a == "" {
      assert s[1..] == b;
    } else {
      assert s[1..] == a[1..] + [sep] + b;
      SplitOnceAt(a[1..], b, sep);
      assert [a[0]] + a[1..] == a;
    }
  }

  lemma {:induction false} SplitOnceNone(s: string, sep: char)
    requires sep !in s
    ensures SplitOnce(s, sep) == None
  {
    if s != "" {
      SplitOnceNone(s[1..], sep);
    }
  }

  /**
   * "A.B.C.D/p" is the block of 2^(32-p) addresses around A.B.C.D that starts at a multiple of its
   * size; longer prefixes than 30 leave no hosts and are refused, and so is text without a slash.
   */
  lemma NewFromText(addr: Ipv4Addr, p: u8, cidr: string)
    ensures '/' !in cidr ==> IpAllocator.New(cidr) == Err(NoSlash)
    ensures var made := IpAllocator.New(Ipv4Text(addr) + "/" + Decimal(p));
            if p <= 30 then
              && made.Ok? && made.value.prefix == p
              && made.value.network % Pow2(32 - p) == 0
              && made.value.network <= addr < made.value.network + Pow2(32 - p)
            else made == Err(NoHosts)
  {
    hide ParseIpv4, ParseU8, SplitOnce, And, Shl, Ipv4Text, Decimal;
    if '/' !in cidr {
      SplitOnceNone(cidr, '/');
    }
    Ipv4TextChars(addr);
    SplitOnceAt(Ipv4Text(addr), Decimal(p), '/');
    Ipv4RoundTrip(addr);
    ParseU8RoundTrip(p);
    if p <= 30 {
      NetworkIsMultiple(addr, p);
    }
  }

  lemma NetworkIsMultiple(addr: u32, prefix: nat)
    requires prefix <= 32
    ensures var network := And(addr, if prefix == 0 then 0 else Shl(0xFFFF_FFFF, 32 - prefix, 32));
            network % Pow2(32 - prefix) == 0 && network <= addr < network + Pow2(32 - prefix)
  {
    hide Shl, Pow2;
    if prefix == 0 {
      WidthValues();
    } else {
      MaskRoundsDown(addr, 32 - prefix);
      RoundDownIsMultiple(addr, Pow2(32 - prefix));
    }
  }

  lemma RoundDownIsMultiple(x: nat, m: nat)
    requires m > 0
    ensures RoundDown(x, m) % m == 0
  {
    DivModUnique(RoundDown(x, m), m, x / m, 0);
  }

  /** Broadcast is the last address of the block; the block does not cross 2^32. */
  lemma BlockFits(network: u32, k: nat)
    requires 2 <= k < 32 && Low(network, k) == 0
    ensures 4 <= Pow2(k) && network + Pow2(k) <= 0x1_0000_0000
    ensures Or(network, Pow2(k) - 1) == network + Pow2(k) - 1
  {
    var size := Pow2(k);
    WidthValues();
    assert Pow2(2) == 4;
    if k > 2 {
      Pow2Monotone(2, k);
    }
    LowIsRemainder(network, k);
    OrLowMask(network, k);
    Pow2Splits(32 - k, k);
    AlignedBlocksNest(network, 0, size, Pow2(32 - k), network);
  }

  /** The host range is network+1, .., network+capacity, without wrap-around. */
  lemma HostRangeIsInterval(a: IpAllocator)
    requires a.Valid()
    ensures a.network + a.Capacity() < 0x1_0000_0000
    ensures a.HostRange() == (a.network + 1, a.network + a.Capacity())
  {
    hide Shl, Or, Low, Pow2;
    WidthValues();
    if a.prefix == 0 {
      LowOfAll(a.network, 32);
      OneShifted(0, 32);
      OrZero(0);
    } else {
      BlockFits(a.network, 32 - a.prefix);
      OneShifted(32 - a.prefix, 32);
    }
  }

  lemma {:induction false} FirstUnusedFromFull(used: set<Ipv4Addr>, first: nat, next: nat, last: u32)
    requires first <= next <= last + 1
    requires forall x: Ipv4Addr | first <= x <= last :: x in used <==> x < next
    ensures FirstUnused(used, first, last) == if next <= last then Some(next) else None
    decreases last - first
  {
    if first < next {
      FirstUnusedFromFull(used, first + 1, next, last);
    }
  }
}

/** The registry (src/coordinator.rs), on values: what each request answers and leaves behind. */
module RegistryModel {
  import opened Wrappers
  import opened Packet
  import opened Text
  import opened Allocator
  import opened Spec

  datatype NodeRecord = NodeRecord(
    publicKey: string,
    allowedIp: string,
    endpoint: Option<string>,
    hostname: Option<string>,
    observedEndpoint: Option<string>
  )

  datatype RegistryState = RegistryState(
    allocator: IpAllocator,
    nodes: map<string, NodeRecord>,
    whitelist: Option<set<string>>
  )

  datatype RegisterError = NotWhitelisted | PoolExhausted | PersistFailed | UnknownNode

  type Registration = Result<(string, Option<string>), RegisterError>

  /** The addresses already handed out, as far as they parse. */
  function Used(nodes: map<string, NodeRecord>): set<Ipv4Addr> {
    set k | k in nodes && ParseIpv4(nodes[k].allowedIp).Some? :: ParseIpv4(nodes[k].allowedIp).value
  }

  /** `persistOk`: the state file could be written. A failed write reports an error but keeps the change. */
  function Register(r: RegistryState, key: string, endpoint: string, hostname: Option<string>,
                    observed: Option<string>, persistOk: bool): (RegistryState, Registration)
    requires r.allocator.Valid()
  {
    if r.whitelist.Some? && key !in r.whitelist.value then (r, Err(NotWhitelisted))
    else if key in r.nodes then
      var node := r.nodes[key].(endpoint := Some(endpoint),
                  hostname := if hostname.Some? then hostname else r.nodes[key].hostname,
                  observedEndpoint := observed);
      (r.(nodes := r.nodes[key := node]), if persistOk then Ok((node.allowedIp, observed)) else Err(PersistFailed))
    else
      match r.allocator.NextFree(Used(r.nodes))
      case None => (r, Err(PoolExhausted))
      case Some(ip) =>
        var node := NodeRecord(key, Ipv4Text(ip), Some(endpoint), hostname, observed);
        (r.(nodes := r.nodes[key := node]), if persistOk then Ok((node.allowedIp, observed)) else Err(PersistFailed))
  }

  function Poll(r: RegistryState, key: string, endpoint: string, observed: Option<string>, persistOk: bool)
    : (RegistryState, Result<(), RegisterError>)
  {
    if key !in r.nodes then (r, Err(UnknownNode))
    else
      var node := r.nodes[key].(endpoint := Some(endpoint), observedEndpoint := observed);
      (r.(nodes := r.nodes[key := node]), if persistOk then Ok(()) else Err(PersistFailed))
  }

  function Describe(n: NodeRecord): PeerDescriptor {
    PeerDescriptor(n.publicKey, n.allowedIp, n.endpoint)
  }

  /** `ds` lists every node but `key`, in some order: that of the keys `ks`. */
  ghost predicate Lists(r: RegistryState, key: string, ds: seq<PeerDescriptor>, ks: seq<string>) {
    && |ks| == |ds|
    && (forall i, j | 0 <= i < j < |ks| :: ks[i] != ks[j])
    && (forall i | 0 <= i < |ks| ::
          ks[i] in r.nodes && r.nodes[ks[i]].publicKey != key && ds[i] == Describe(r.nodes[ks[i]]))
    && (forall k | k in r.nodes && r.nodes[k].publicKey != key :: k in ks)
  }

  // --------------------------------------------------------- every reachable registry

  datatype Request =
    | RegisterRequest(key: string, endpoint: string, hostname: Option<string>, observed: Option<string>,
                      persistOk: bool)
    | PollRequest(key: string, endpoint: string, observed: Option<string>, persistOk: bool)

  function Serve(r: RegistryState, q: Request): RegistryState
    requires r.allocator.Valid()
  {
    match q
    case RegisterRequest(key, endpoint, hostname, observed, ok) => Register(r, key, endpoint, hostname, observed, ok).0
    case PollRequest(key, endpoint, observed, ok) => Poll(r, key, endpoint, observed, ok).0
  }

  function ServeAll(r: RegistryState, qs: seq<Request>): (s: RegistryState)
    requires r.allocator.Valid()
    ensures s.allocator == r.allocator && s.whitelist == r.whitelist
  {
    if qs == [] then r else Serve(ServeAll(r, qs[..|qs| - 1]), qs[|qs| - 1])
  }

  /** `order` lists the registered keys by first registration: the i-th holds address network+1+i. */
  ghost predicate Assigned(r: RegistryState, order: seq<string>) {
    && r.allocator.Valid()
    && |order| <= r.allocator.Capacity()
    && (forall i, j | 0 <= i < j < |order| :: order[i] != order[j])
    && (forall k :: k in r.nodes <==> k in order)
    && (forall i | 0 <= i < |order| ::
          r.nodes[order[i]].publicKey == order[i] && r.nodes[order[i]].allowedIp == Ipv4Text(AddressOf(r, i)))
  }

  function AddressOf(r: RegistryState, i: nat): Ipv4Addr
    requires r.allocator.Valid() && i < r.allocator.Capacity()
  {
    HostRangeIsInterval(r.allocator);
    r.allocator.network + 1 + i
  }

  lemma UsedIsInitialRange(r: RegistryState, order: seq<string>)
    requires Assigned(r, order)
    ensures forall x: Ipv4Addr :: x in Used(r.nodes) <==> r.allocator.network < x <= r.allocator.network + |order|
  {
    hide Ipv4Text, ParseIpv4, IpAllocator.Valid, IpAllocator.Capacity, IpAllocator.HostRange;
    HostRangeIsInterval(r.allocator);
    forall x: Ipv4Addr
      ensures x in Used(r.nodes) <==> r.allocator.network < x <= r.allocator.network + |order|
    {
      if x in Used(r.nodes) {
        var k :| k in r.nodes && ParseIpv4(r.nodes[k].allowedIp) == Some(x);
        var i :| 0 <= i < |order| && order[i] == k;
        Ipv4RoundTrip(AddressOf(r, i));
      }
      if r.allocator.network < x <= r.allocator.network + |order| {
        var i := x - r.allocator.network - 1;
        Ipv4RoundTrip(AddressOf(r, i));
        assert order[i] in r.nodes && ParseIpv4(r.nodes[order[i]].allowedIp) == Some(x);
      }
    }
  }

  /** The next new key gets the next address while there is one, and is refused afterwards. */
  lemma NextFreeIsNext(r: RegistryState, order: seq<string>)
    requires Assigned(r, order)
    ensures r.allocator.NextFree(Used(r.nodes))
         == if |order| < r.allocator.Capacity() then Some(AddressOf(r, |order|)) else None
  {
    hide Ipv4Text, ParseIpv4, Used, Assigned, IpAllocator.Valid, IpAllocator.Capacity, IpAllocator.HostRange;
    AssignedIsValid(r, order);
    HostRangeIsInterval(r.allocator);
    UsedIsInitialRange(r, order);
    FirstUnusedFromFull(Used(r.nodes), r.allocator.network + 1, r.allocator.network + 1 + |order|,
                        r.allocator.network + r.allocator.Capacity());
  }

  /** The order of first registrations after one more request. */
  function OrderAfter(r: RegistryState, order: seq<string>, q: Request): seq<string>
    requires r.allocator.Valid()
  {
    if q.RegisterRequest? && q.key !in r.nodes && (r.whitelist.Some? ==> q.key in r.whitelist.value)
       && |order| < r.allocator.Capacity()
    then order + [q.key] else order
  }

  lemma UpdateKeepsAssigned(r: RegistryState, order: seq<string>, key: string, node: NodeRecord)
    requires Assigned(r, order) && key in r.nodes
    requires node.publicKey == r.nodes[key].publicKey && node.allowedIp == r.nodes[key].allowedIp
    ensures Assigned(r.(nodes := r.nodes[key := node]), order)
  {
    hide Ipv4Text, ParseIpv4, IpAllocator.Valid, IpAllocator.Capacity, IpAllocator.HostRange;
    var s := r.(nodes := r.nodes[key := node]);
    forall i | 0 <= i < |order|
      ensures s.nodes[order[i]].publicKey == order[i] && s.nodes[order[i]].allowedIp == Ipv4Text(AddressOf(s, i))
    {
      assert r.nodes[order[i]].publicKey == order[i];
    }
  }

  lemma AppendKeepsAssigned(r: RegistryState, order: seq<string>, key: string, node: NodeRecord)
    requires Assigned(r, order) && key !in r.nodes && |order| < r.allocator.Capacity()
    requires node.publicKey == key && node.allowedIp == Ipv4Text(AddressOf(r, |order|))
    ensures Assigned(r.(nodes := r.nodes[key := node]), order + [key])
  {
    hide Ipv4Text, ParseIpv4, IpAllocator.Valid, IpAllocator.Capacity, IpAllocator.HostRange;
    var s, more := r.(nodes := r.nodes[key := node]), order + [key];
    forall i | 0 <= i < |more|
      ensures s.nodes[more[i]].publicKey == more[i] && s.nodes[more[i]].allowedIp == Ipv4Text(AddressOf(s, i))
    {
      if i < |order| {
        assert order[i] in r.nodes && order[i] != key;
      }
    }
    forall i, j | 0 <= i < j < |more| ensures more[i] != more[j] {
      assert order[i] in r.nodes;
    }
  }

  lemma ServeKeepsAssigned(r: RegistryState, order: seq<string>, q: Request)
    requires Assigned(r, order)
    ensures Assigned(Serve(r, q), OrderAfter(r, order, q))
  {
    hide Assigned;
    NextFreeIsNext(r, order);
    AssignedIsValid(r, order);
    if q.key in r.nodes {
      if q.RegisterRequest? && (r.whitelist.Some? ==> q.key in r.whitelist.value) {
        UpdateKeepsAssigned(r, order, q.key, Serve(r, q).nodes[q.key]);
      } else if q.PollRequest? {
        UpdateKeepsAssigned(r, order, q.key, Serve(r, q).nodes[q.key]);
      }
    } else if OrderAfter(r, order, q) != order {
      AppendKeepsAssigned(r, order, q.key, Serve(r, q).nodes[q.key]);
    }
  }

  lemma AssignedIsValid(r: RegistryState, order: seq<string>)
    requires Assigned(r, order)
    ensures r.allocator.Valid() && |order| <= r.allocator.Capacity()
  {
  }

  function Order(r: RegistryState, qs: seq<Request>): seq<string>
    requires r.allocator.Valid()
  {
    if qs == [] then []
    else
      var init := qs[..|qs| - 1];
      OrderAfter(ServeAll(r, init), Order(r, init), qs[|qs| - 1])
  }

  /**
   * From an empty registry, whatever was requested and whichever writes failed: the k-th key ever
   * accepted holds network+k, addresses are distinct and inside the host range.
   */
  lemma {:induction false} ReachableIsAssigned(r: RegistryState, qs: seq<Request>)
    requires r.allocator.Valid() && r.nodes == map[]
    ensures Assigned(ServeAll(r, qs), Order(r, qs))
  {
    hide Serve, OrderAfter;
    if qs != [] {
      ReachableIsAssigned(r, qs[..|qs| - 1]);
      ServeKeepsAssigned(ServeAll(r, qs[..|qs| - 1]), Order(r, qs[..|qs| - 1]), qs[|qs| - 1]);
    } else {
      CapacityIsPositive(r.allocator);
    }
  }

  lemma CapacityIsPositive(a: IpAllocator)
    requires a.Valid()
    ensures a.Capacity() >= 2
  {
    if a.prefix > 0 {
      BlockFits(a.network, 32 - a.prefix);
    }
  }

  lemma ServeKeepsAddress(r: RegistryState, q: Request, key: string)
    requires r.allocator.Valid() && key in r.nodes
    ensures key in Serve(r, q).nodes && Serve(r, q).nodes[key].allowedIp == r.nodes[key].allowedIp
  {
    hide Ipv4Text, IpAllocator.Valid, IpAllocator.NextFree;
  }

  /** Later requests only append to the order, so an assigned address never changes. */
  lemma {:induction false} AddressesNeverChange(r: RegistryState, qs: seq<Request>, more: seq<Request>, key: string)
    requires r.allocator.Valid() && r.nodes == map[]
    requires key in ServeAll(r, qs).nodes
    ensures key in ServeAll(r, qs + more).nodes
    ensures ServeAll(r, qs + more).nodes[key].allowedIp == ServeAll(r, qs).nodes[key].allowedIp
  {
    hide IpAllocator.Valid, Serve;
    if more == [] {
      assert qs + more == qs;
    } else {
      var init := more[..|more| - 1];
      AddressesNeverChange(r, qs, init, key);
      assert (qs + more)[..|qs + more| - 1] == qs + init;
      ServeKeepsAddress(ServeAll(r, qs + init), more[|more| - 1], key);
    }
  }

  /**
   * Exactly `Capacity()` keys fit. A new key that may register gets the next address as long as
   * fewer are taken and is refused afterwards; a known key always gets its own address back.
   */
  lemma CapacityAndStability(r: RegistryState, qs: seq<Request>, key: string, endpoint: string,
                             hostname: Option<string>, observed: Option<string>)
    requires r.allocator.Valid() && r.nodes == map[]
    requires r.whitelist.Some? ==> key in r.whitelist.value
    ensures var s, order := ServeAll(r, qs), Order(r, qs);
            var reply := Register(s, key, endpoint, hostname, observed, true).1;
            && |s.nodes| == |order| <= s.allocator.Capacity()
            && reply ==
               if key in s.nodes then Ok((s.nodes[key].allowedIp, observed))
               else if |order| < s.allocator.Capacity() then Ok((Ipv4Text(AddressOf(s, |order|)), observed))
               else Err(PoolExhausted)
  {
    var s, order := ServeAll(r, qs), Order(r, qs);
    ReachableIsAssigned(r, qs);
    NextFreeIsNext(s, order);
    CountKeys(s.nodes, order);
  }

  lemma {:induction false} CountKeys(nodes: map<string, NodeRecord>, order: seq<string>)
    requires forall i, j | 0 <= i < j < |order| :: order[i] != order[j]
    requires forall k :: k in nodes <==> k in order
    ensures |nodes| == |order|
  {
    if order == [] {
      assert nodes == map[];
    } else {
      var init, last := order[..|order| - 1], order[|order| - 1];
      var rest := nodes - {last};
      assert rest.Keys == nodes.Keys - {last};
      CountKeys(rest, init);
      assert |nodes.Keys| == |rest.Keys| + 1;
    }
  }
}
