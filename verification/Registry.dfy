/** `Registry` of src/coordinator.rs as the object it is. */
module RegistryObject {
  import opened Wrappers
  import opened Text
  import opened Allocator
  import opened Spec
  import opened RegistryModel

  class Registry {
    const allocator: IpAllocator
    var nodes: map<string, NodeRecord>
    var whitelist: Option<set<string>>

    ghost predicate Valid() {
      allocator.Valid()
    }

    ghost function View(): RegistryState
      reads this
    {
      RegistryState(allocator, nodes, whitelist)
    }

    constructor (allocator: IpAllocator)
      requires allocator.Valid()
      ensures Valid() && View() == RegistryState(allocator, map[], None)
    {
      this.allocator := allocator;
      nodes := map[];
      whitelist := None;
    }

    method SetWhitelist(keys: seq<string>)
      modifies this`whitelist
      ensures whitelist == Some(set k | k in keys)
    {
      whitelist := Some(set k | k in keys);
    }

    method Register(key: string, endpoint: string, hostname: Option<string>, observed: Option<string>, persistOk: bool)
      returns (reply: Registration)
      requires Valid()
      modifies this`nodes
      ensures (View(), reply) == RegistryModel.Register(old(View()), key, endpoint, hostname, observed, persistOk)
    {
      if whitelist.Some? && key !in whitelist.value {
        return Err(NotWhitelisted);
      }
      if key in nodes {
        var existing := nodes[key];
        existing := existing.(endpoint := Some(endpoint));
        if hostname.Some? {
          existing := existing.(hostname := hostname);
        }
        existing := existing.(observedEndpoint := observed);
        nodes := nodes[key := existing];
        if !persistOk {
          return Err(PersistFailed);
        }
        return Ok((existing.allowedIp, observed));
      }
      var used := Used(nodes);
      var ip := allocator.NextFree(used);
      if ip.None? {
        return Err(PoolExhausted);
      }
      var text := Ipv4Text(ip.value);
      nodes := nodes[key := NodeRecord(key, text, Some(endpoint), hostname, observed)];
      if !persistOk {
        return Err(PersistFailed);
      }
      reply := Ok((text, observed));
    }

    method Poll(key: string, endpoint: string, observed: Option<string>, persistOk: bool)
      returns (reply: Result<(), RegisterError>)
      modifies this`nodes
      ensures (View(), reply) == RegistryModel.Poll(old(View()), key, endpoint, observed, persistOk)
    {
      if key !in nodes {
        return Err(UnknownNode);
      }
      var node := nodes[key].(endpoint := Some(endpoint), observedEndpoint := observed);
      nodes := nodes[key := node];
      reply := if persistOk then Ok(()) else Err(PersistFailed);
    }

    /** Every node but the one that asks, in whatever order the map yields them. */
    method PeersFor(key: string) returns (ds: seq<PeerDescriptor>)
      ensures exists ks :: Lists(View(), key, ds, ks)
    {
      ds := [];
      ghost var ks := [];
      var rest := nodes.Keys;
      while rest != {}
        invariant rest <= nodes.Keys
        invariant |ks| == |ds|
        invariant forall i, j | 0 <= i < j < |ks| :: ks[i] != ks[j]
        invariant forall i | 0 <= i < |ks| ::
                    ks[i] in nodes && ks[i] !in rest && nodes[ks[i]].publicKey != key && ds[i] == Describe(nodes[ks[i]])
        invariant forall k | k in nodes && nodes[k].publicKey != key :: k in rest || k in ks
        decreases rest
      {
        var k :| k in rest;
        rest := rest - {k};
        if nodes[k].publicKey != key {
          ds := ds + [Describe(nodes[k])];
          ks := ks + [k];
        }
      }
      assert Lists(View(), key, ds, ks);
    }
  }
}
