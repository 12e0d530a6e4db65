/** What the registry tells nodes of each other: every listing shows where each node last said it is. */
module Directory {
  import opened Wrappers
  import opened Text
  import opened Allocator
  import opened Spec
  import opened RegistryModel

  /** The request is taken: its reply is a success, or says that only the state file was not written. */
  predicate Taken(r: RegistryState, q: Request)
    requires r.allocator.Valid()
  {
    match q
    case RegisterRequest(key, endpoint, hostname, observed, ok) =>
      var reply := Register(r, key, endpoint, hostname, observed, ok).1; reply.Ok? || reply == Err(PersistFailed)
    case PollRequest(key, endpoint, observed, ok) =>
      var reply := Poll(r, key, endpoint, observed, ok).1; reply.Ok? || reply == Err(PersistFailed)
  }

  /** A known node may poll, and register unless a whitelist leaves it out; a new one needs a free address too. */
  lemma TakenIff(r: RegistryState, order: seq<string>, q: Request)
    requires Assigned(r, order)
    ensures r.allocator.Valid()
    ensures Taken(r, q) <==>
            if q.PollRequest? then q.key in order
            else (r.whitelist.Some? ==> q.key in r.whitelist.value)
                 && (q.key in order || |order| < r.allocator.Capacity())
    ensures !Taken(r, q) ==> Serve(r, q) == r
  {
    hide IpAllocator.Valid, IpAllocator.Capacity, IpAllocator.NextFree, Ipv4Text;
    NextFreeIsNext(r, order);
  }

  /** Which refusal: unknown, not on the whitelist, or no address left. */
  lemma RefusalsSayWhy(r: RegistryState, order: seq<string>, key: string, endpoint: string, hostname: Option<string>,
                       observed: Option<string>, ok: bool)
    requires Assigned(r, order)
    ensures r.allocator.Valid()
    ensures key !in order ==> Poll(r, key, endpoint, observed, ok) == (r, Err(UnknownNode))
    ensures r.whitelist.Some? && key !in r.whitelist.value ==>
              Register(r, key, endpoint, hostname, observed, ok) == (r, Err(NotWhitelisted))
    ensures (r.whitelist.Some? ==> key in r.whitelist.value) && key !in order && |order| == r.allocator.Capacity() ==>
              Register(r, key, endpoint, hostname, observed, ok) == (r, Err(PoolExhausted))
  {
    hide IpAllocator.Valid, IpAllocator.Capacity, IpAllocator.NextFree, Ipv4Text;
    NextFreeIsNext(r, order);
  }

  /** Request `i` is the last one of `key` that was taken. */
  ghost predicate LastTaken(r: RegistryState, qs: seq<Request>, key: string, i: nat)
    requires r.allocator.Valid()
  {
    && i < |qs| && qs[i].key == key && Taken(ServeAll(r, qs[..i]), qs[i])
    && forall j | i < j < |qs| && qs[j].key == key :: !Taken(ServeAll(r, qs[..j]), qs[j])
  }

  ghost predicate NeverTaken(r: RegistryState, qs: seq<Request>, key: string)
    requires r.allocator.Valid()
  {
    forall j | 0 <= j < |qs| && qs[j].key == key :: !Taken(ServeAll(r, qs[..j]), qs[j])
  }

  lemma ServeOne(r: RegistryState, q: Request, key: string)
    requires r.allocator.Valid()
    ensures q.key != key || !Taken(r, q) ==>
              (key in Serve(r, q).nodes <==> key in r.nodes)
              && (key in r.nodes ==> Serve(r, q).nodes[key] == r.nodes[key])
    ensures q.key == key && Taken(r, q) ==>
              && key in Serve(r, q).nodes
              && Serve(r, q).nodes[key].endpoint == Some(q.endpoint)
              && Serve(r, q).nodes[key].observedEndpoint == q.observed
              && Serve(r, q).nodes[key].hostname ==
                 (if q.RegisterRequest? && (q.hostname.Some? || key !in r.nodes) then q.hostname
                  else r.nodes[key].hostname)
  {
    hide IpAllocator.Valid, IpAllocator.NextFree, Ipv4Text;
  }

  /** What the registry holds of a node is what its last request said, whether or not it was written to the file. */
  lemma {:induction false} LastTakenIsKept(r: RegistryState, qs: seq<Request>, key: string, i: nat)
    requires r.allocator.Valid() && LastTaken(r, qs, key, i)
    ensures var s := ServeAll(r, qs);
            && key in s.nodes && s.nodes[key].endpoint == Some(qs[i].endpoint)
            && s.nodes[key].observedEndpoint == qs[i].observed
    decreases |qs|
  {
    hide Serve, Taken, IpAllocator.Valid;
    var n := |qs| - 1;
    var init := qs[..n];
    ServeOne(ServeAll(r, init), qs[n], key);
    if i < n {
      assert init[..i] == qs[..i];
      forall j | i < j < n && init[j].key == key ensures !Taken(ServeAll(r, init[..j]), init[j]) {
        assert init[..j] == qs[..j] && init[j] == qs[j];
      }
      LastTakenIsKept(r, init, key, i);
    }
  }

  lemma {:induction false} NeverTakenIsUnknown(r: RegistryState, qs: seq<Request>, key: string)
    requires r.allocator.Valid() && r.nodes == map[] && NeverTaken(r, qs, key)
    ensures key !in ServeAll(r, qs).nodes
  {
    hide Serve, Taken, IpAllocator.Valid;
    if qs != [] {
      var n := |qs| - 1;
      var init := qs[..n];
      forall j | 0 <= j < n && init[j].key == key ensures !Taken(ServeAll(r, init[..j]), init[j]) {
        assert init[..j] == qs[..j] && init[j] == qs[j];
      }
      NeverTakenIsUnknown(r, init, key);
      ServeOne(ServeAll(r, init), qs[n], key);
    }
  }

  lemma AssignedAt(r: RegistryState, order: seq<string>, place: nat)
    requires Assigned(r, order) && place < |order|
    ensures order[place] in r.nodes && r.nodes[order[place]].publicKey == order[place]
    ensures r.allocator.network + 1 + place < 0x1_0000_0000
    ensures r.nodes[order[place]].allowedIp == Ipv4Text(r.allocator.network + 1 + place)
  {
    hide IpAllocator.Valid, IpAllocator.Capacity, IpAllocator.HostRange, Ipv4Text;
    HostRangeIsInterval(r.allocator);
  }

  /** The registry files every node under its own key. */
  lemma FiledByKey(r: RegistryState, order: seq<string>, key: string)
    requires Assigned(r, order) && key in r.nodes
    ensures r.nodes[key].publicKey == key && exists place: nat :: place < |order| && order[place] == key
  {
    hide IpAllocator.Valid, IpAllocator.Capacity, Ipv4Text;
    assert key in order;
  }

  /**
   * Every listing for another node holds exactly one descriptor of a node that ever got in: with the
   * address that goes with its place in the order of first registrations, and the endpoint its last
   * accepted request gave, whether or not the state file was written.
   */
  lemma ListingShowsLastRefresh(r: RegistryState, qs: seq<Request>, i: nat, asker: string, ds: seq<PeerDescriptor>,
                                ks: seq<string>)
    returns (m: nat, place: nat)
    requires r.allocator.Valid() && r.nodes == map[]
    requires i < |qs| && LastTaken(r, qs, qs[i].key, i) && asker != qs[i].key
    requires Lists(ServeAll(r, qs), asker, ds, ks)
    ensures m < |ds| && ds[m].publicKey == qs[i].key && ds[m].endpoint == Some(qs[i].endpoint)
    ensures place < |Order(r, qs)| && Order(r, qs)[place] == qs[i].key
    ensures r.allocator.network + 1 + place < 0x1_0000_0000
    ensures ds[m].allowedIp == Ipv4Text(r.allocator.network + 1 + place)
    ensures forall l | 0 <= l < |ds| && l != m :: ds[l].publicKey != qs[i].key
  {
    hide ServeAll, Order, Assigned, Ipv4Text, LastTaken;
    var s, order, key := ServeAll(r, qs), Order(r, qs), qs[i].key;
    LastTakenIsKept(r, qs, key, i);
    ReachableIsAssigned(r, qs);
    FiledByKey(s, order, key);
    place :| place < |order| && order[place] == key;
    AssignedAt(s, order, place);
    assert key in ks;
    m :| m < |ks| && ks[m] == key;
    forall l | 0 <= l < |ds| && l != m ensures ds[l].publicKey != key {
      FiledByKey(s, order, ks[l]);
    }
  }

  /** Nobody is told of itself, nor of a node that never got in. */
  lemma OthersAreNotListed(r: RegistryState, qs: seq<Request>, asker: string, ds: seq<PeerDescriptor>, ks: seq<string>,
                           key: string)
    requires r.allocator.Valid() && r.nodes == map[] && Lists(ServeAll(r, qs), asker, ds, ks)
    requires key == asker || NeverTaken(r, qs, key)
    ensures forall l | 0 <= l < |ds| :: ds[l].publicKey != key
  {
    hide ServeAll, Order, Assigned, NeverTaken;
    ReachableIsAssigned(r, qs);
    if key != asker {
      NeverTakenIsUnknown(r, qs, key);
    }
    forall l | 0 <= l < |ds| ensures ds[l].publicKey != key {
      FiledByKey(ServeAll(r, qs), Order(r, qs), ks[l]);
    }
  }
}
