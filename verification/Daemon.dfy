/** `PeerManager` and the locked sections of the daemon's tasks, proved to act as DaemonModel says. */
module Daemon {
  import opened Wrappers
  import opened Words
  import opened Packet
  import opened Noise
  import opened PeerModel
  import opened DaemonModel
  import opened PeerObjects
  import opened Spec
  import opened Reconciliation

  class PeerManager {
    const config: Config
    var peers: seq<Peer>
    ghost var Repr: set<object>

    ghost predicate Valid()
      reads this, Repr
      ensures Valid() ==> this in Repr
    {
      && this in Repr
      && (forall i | 0 <= i < |peers| ::
            peers[i] in Repr && peers[i].Repr() <= Repr && this !in peers[i].Repr() && peers[i].Valid())
      && (forall i, j | 0 <= i < j < |peers| :: peers[i].Repr() !! peers[j].Repr())
    }

    ghost function View(): (ps: Peers)
      requires Valid()
      reads this, Repr
      ensures |ps| == |peers| && forall i | 0 <= i < |ps| :: ps[i] == peers[i].View()
    {
      seq(|peers|, i requires 0 <= i < |peers| reads this, Repr requires Valid() => peers[i].View())
    }

    /** `PeerManager::new`: every peer takes over the manager's magic bytes. */
    constructor (config: Config, descriptions: seq<ParsedPeer>, now: nat)
      ensures Valid() && fresh(Repr) && this.config == config
      ensures View() == Created(descriptions, config.magic, now)
    {
      this.config := config;
      peers := [];
      Repr := {this};
      new;
      for n := 0 to |descriptions|
        invariant Valid() && fresh(Repr)
        invariant View() == Created(descriptions[..n], config.magic, now)
      {
        Append(descriptions[n], now);
        assert Created(descriptions[..n + 1], config.magic, now)[..n] == Created(descriptions[..n], config.magic, now);
      }
      assert descriptions[..|descriptions|] == descriptions;
    }

    method Append(d: ParsedPeer, now: nat)
      requires Valid()
      modifies this
      ensures Valid() && fresh(Repr - old(Repr))
      ensures View() == old(View()) + [NewPeer(d.pubkey, d.endpoint, d.allowedIps, config.magic, now)]
    {
      var p := new Peer(d.pubkey, d.endpoint, d.allowedIps, config.magic, now);
      peers := peers + [p];
      Repr := Repr + p.Repr();
    }

    /** `find(|p| p.pubkey == key)` */
    method FindByKey(key: Key) returns (found: Option<nat>)
      requires Valid()
      ensures found == FindKey(View(), key)
    {
      for i := 0 to |peers|
        invariant forall k | 0 <= k < i :: View()[k].pubkey != key
      {
        if peers[i].pubkey == key {
          return Some(i);
        }
      }
      found := None;
    }

    /** `find(|p| p.endpoint == Some(addr))` */
    method FindByEndpoint(addr: Endpoint) returns (found: Option<nat>)
      requires Valid()
      ensures found == FindEndpoint(View(), addr)
    {
      for i := 0 to |peers|
        invariant forall k | 0 <= k < i :: View()[k].endpoint != Some(addr)
      {
        if peers[i].endpoint == Some(addr) {
          return Some(i);
        }
      }
      found := None;
    }

    /** `allowed_ips.iter().any(|s| s.contains(ip))` */
    method MayUse(i: nat, ip: Ipv4Addr) returns (ok: bool)
      requires Valid() && i < |peers|
      ensures ok == Allows(View()[i], ip)
    {
      var subnets := peers[i].allowedIps;
      for k := 0 to |subnets|
        invariant forall j | 0 <= j < k :: !subnets[j].Contains(ip)
      {
        if subnets[k].Contains(ip) {
          return true;
        }
      }
      ok := false;
    }

    method FindBestPeerIdx(ip: Ipv4Addr) returns (matched: Option<nat>)
      requires Valid()
      ensures matched == FindBest(View(), ip).idx
    {
      matched := None;
      var bestPrefixLen: int := -1;
      ghost var ps := View();
      for idx := 0 to |peers|
        invariant FindBest(ps[..idx], ip) == Best(matched, bestPrefixLen)
      {
        var subnets := peers[idx].allowedIps;
        ghost var before := FindBest(ps[..idx], ip);
        assert ps[..idx + 1][..idx] == ps[..idx];
        for k := 0 to |subnets|
          invariant var len := BestPrefix(subnets[..k], ip);
                    Best(matched, bestPrefixLen) == if len > before.prefixLen then Best(Some(idx), len) else before
        {
          assert subnets[..k + 1][..k] == subnets[..k];
          if subnets[k].Contains(ip) {
            var len := subnets[k].prefixLen;
            if len > bestPrefixLen {
              bestPrefixLen := len;
              matched := Some(idx);
            }
          }
        }
        assert subnets[..|subnets|] == subnets;
      }
      assert ps[..|ps|] == ps;
    }

    // ------------------------------------------- operations on one peer of the table

    method TickOne(i: nat, inp: TickInput, now: nat) returns (actions: seq<Action>)
      requires Valid() && i < |peers|
      modifies Repr
      ensures Valid() && fresh(Repr - old(Repr)) && |peers| == |old(peers)|
      ensures var t := TickPeer(config, old(View())[i], inp, now);
              View() == old(View())[i := t.peer] && actions == t.actions
    {
      hide TickPeer, Peer.View, Peer.Valid, Peer.Repr;
      var p := peers[i];
      actions := p.OnTick(config, inp, now);
    }

    method DecryptOne(i: nat, payload: Wire, now: nat) returns (plaintext: Option<Bytes>)
      requires Valid() && i < |peers|
      modifies Repr
      ensures Valid() && fresh(Repr - old(Repr)) && |peers| == |old(peers)|
      ensures var o := Decrypt(old(View())[i], payload, now);
              View() == old(View())[i := o.peer] && plaintext == o.result
    {
      hide Decrypt, Peer.View, Peer.Valid, Peer.Repr;
      var p := peers[i];
      plaintext := p.DecryptPacket(payload, now);
    }

    method HandshakeOne(i: nat, payload: Wire, inp: RecvInput, now: nat)
      requires Valid() && i < |peers|
      modifies Repr
      ensures Valid() && fresh(Repr - old(Repr)) && |peers| == |old(peers)|
      ensures View() == old(View())[i := HandleHandshake(old(View())[i], config.local, config.magic.handshakeResp,
                                                         payload,
                                                         inp.id, inp.padding, now, inp.ok).peer]
    {
      hide HandleHandshake, Peer.View, Peer.Valid, Peer.Repr;
      var p := peers[i];
      var reply := p.HandleHandshakePacket(config.local, config.magic.handshakeResp, payload, inp.id, inp.padding,
                                           now, inp.ok);
      Repr := Repr + p.Repr();
    }

    method AnswerOne(i: nat, hs: nat, inp: RecvInput, now: nat) returns (packet: Option<Wire>)
      requires Valid() && i < |peers|
      modifies Repr
      ensures Valid() && fresh(Repr - old(Repr)) && |peers| == |old(peers)|
      ensures var o := Answer(old(View())[i], config.magic, hs, inp.id, inp.padding, now, inp.ok);
              View() == old(View())[i := o.peer] && packet == o.result
    {
      hide Answer, Peer.View, Peer.Valid, Peer.Repr;
      var p := peers[i];
      packet := p.AnswerHandshake(config.magic, hs, inp.id, inp.padding, now, inp.ok);
      Repr := Repr + p.Repr();
    }

    /** Record where a peer was heard from directly. */
    method Touch(i: nat, endpoint: Option<Endpoint>, now: nat)
      requires Valid() && i < |peers|
      modifies Repr
      ensures Valid() && fresh(Repr - old(Repr)) && |peers| == |old(peers)|
      ensures var p := old(View())[i]; View() == old(View())[i := p.(endpoint := endpoint, lastDirectRx := now)]
    {
      hide Peer.View, Peer.Valid, Peer.Repr;
      var p := peers[i];
      p.HeardFrom(endpoint, now);
    }

    method SendOne(i: nat, packet: Bytes, inp: SendInput, now: nat) returns (actions: seq<Action>)
      requires Valid() && i < |peers|
      modifies Repr
      ensures Valid() && fresh(Repr - old(Repr)) && |peers| == |old(peers)|
      ensures var o := SendVia(config, old(View())[i], packet, inp, now);
              View() == old(View())[i := o.peer] && actions == Queue(config, o, now)
    {
      hide SendVia, Queue, Peer.View, Peer.Valid, Peer.Repr;
      var p := peers[i];
      actions := p.Send(config, packet, inp, now);
    }

    /** The coordinator's word on a peer we already know. */
    method Update(i: nat, w: ParsedPeer)
      requires Valid() && i < |peers|
      modifies Repr
      ensures Valid() && fresh(Repr - old(Repr)) && |peers| == |old(peers)|
      ensures var p := old(View())[i];
              View() == old(View())[i := p.(endpoint := w.endpoint, allowedIps := w.allowedIps)]
    {
      hide Peer.View, Peer.Valid, Peer.Repr;
      var p := peers[i];
      p.Advertise(w.endpoint, w.allowedIps);
    }

    // ------------------------------------------------------------------ the tasks

    method TimerTick(inputs: seq<TickInput>, now: nat) returns (actions: seq<Action>)
      requires Valid() && |inputs| == |peers|
      modifies Repr
      ensures Valid() && fresh(Repr - old(Repr))
      ensures var s := Tick(config, old(View()), inputs, now); View() == s.peers && actions == s.actions
    {
      hide Valid, View, TickPeer, Tick, PartlyTicked;
      ghost var ps := View();
      TickNothing(config, ps, inputs, now);
      actions := [];
      var n := |peers|;
      for i := 0 to n
        invariant Valid() && fresh(Repr - old(Repr)) && |peers| == n
        invariant View() == PartlyTicked(config, ps, inputs, i, now).peers
        invariant actions == PartlyTicked(config, ps, inputs, i, now).actions
      {
        TickOneMore(config, ps, inputs, i, now);
        var more := TickOne(i, inputs[i], now);
        actions := actions + more;
      }
      TickAll(config, ps, inputs, now);
    }

    method TunToNetwork(packet: Bytes, inp: SendInput, now: nat) returns (actions: seq<Action>)
      requires Valid()
      modifies Repr
      ensures Valid() && fresh(Repr - old(Repr))
      ensures var s := TunSend(config, old(View()), packet, inp, now); View() == s.peers && actions == s.actions
    {
      hide Valid, FindBest, SendVia, Queue;
      actions := [];
      var header := ParseIpv4Header(packet);
      if header.Some? {
        var matched := FindBestPeerIdx(header.value.1);
        if matched.Some? {
          actions := SendOne(matched.value, packet, inp, now);
        }
      }
    }

    /** Does the decrypted packet carry a source address that peer `i` may use? */
    method Admits(i: nat, plaintext: Option<Bytes>) returns (ok: bool)
      requires Valid() && i < |peers|
      ensures ok == Admitted(Outcome(View()[i], plaintext, []))
    {
      ok := false;
      if plaintext.Some? {
        var header := ParseIpv4Header(plaintext.value);
        if header.Some? {
          ok := MayUse(i, header.value.0);
        }
      }
    }

    /** Decrypt with one peer; keep the plaintext if the peer may have sent it. */
    method TryPeer(i: nat, payload: Wire, now: nat) returns (tun: Option<Bytes>)
      requires Valid() && i < |peers|
      modifies Repr
      ensures Valid() && fresh(Repr - old(Repr)) && |peers| == |old(peers)|
      ensures var o := Decrypt(old(View())[i], payload, now);
              && View() == old(View())[i := o.peer]
              && tun == if Admitted(o) then o.result else None
    {
      hide Decrypt, Admitted, Peer.View, Peer.Valid, Peer.Repr;
      ghost var before := View();
      var plaintext := DecryptOne(i, payload, now);
      var ok := Admits(i, plaintext);
      AdmittedSame(before[i], payload, now, View()[i], plaintext);
      tun := if ok then plaintext else None;
    }

    /** Trial decryption of a packet from an unknown address: the peer that opens it has roamed there. */
    method TryRoamer(k: nat, payload: Wire, addr: Endpoint, now: nat) returns (tun: Option<Bytes>)
      requires Valid() && k < |peers|
      modifies Repr
      ensures Valid() && fresh(Repr - old(Repr)) && |peers| == |old(peers)|
      ensures var o := Decrypt(old(View())[k], payload, now);
              && View() == old(View())[k := if Admitted(o) then o.peer.(endpoint := Some(addr), lastDirectRx := now)
                           else o.peer]
              && tun == (if Admitted(o) then o.result else None) && (Admitted(o) ==> tun.Some?)
    {
      hide Valid, View, Decrypt, Admitted;
      AdmittedHasResult(View()[k], payload, now);
      tun := TryPeer(k, payload, now);
      if tun.Some? {
        Touch(k, Some(addr), now);
      }
    }

    method TryOtherPeers(payload: Wire, addr: Endpoint, now: nat) returns (tun: Option<Bytes>)
      requires Valid()
      modifies Repr
      ensures Valid() && fresh(Repr - old(Repr))
      ensures var s := TrialDecrypt(config, old(View()), 0, payload, addr, now); View() == s.peers && tun == s.tun
    {
      hide Valid, View, Decrypt, Admitted, Peer.Valid, Peer.Repr;
      ghost var goal := TrialDecrypt(config, View(), 0, payload, addr, now);
      var n := |peers|;
      for k := 0 to n
        invariant Valid() && fresh(Repr - old(Repr)) && |peers| == n
        invariant var s := TrialDecrypt(config, View(), k, payload, addr, now);
                  goal.peers == s.peers && goal.tun == s.tun
      {
        if peers[k].endpoint != Some(addr) {
          tun := TryRoamer(k, payload, addr, now);
          if tun.Some? {
            return;
          }
        }
      }
      tun := None;
    }

    method OnUdpData(payload: Wire, addr: Endpoint, now: nat) returns (tun: Option<Bytes>)
      requires Valid()
      modifies Repr
      ensures Valid() && fresh(Repr - old(Repr))
      ensures var s := UdpData(config, old(View()), payload, addr, now); View() == s.peers && tun == s.tun
    {
      hide Valid, Decrypt, Admitted, TrialDecrypt, Peer.Valid, Peer.Repr;
      var found := FindByEndpoint(addr);
      if found.Some? {
        var i := found.value;
        AdmittedHasResult(View()[i], payload, now);
        tun := TryPeer(i, payload, now);
        if tun.Some? {
          Touch(i, peers[i].endpoint, now);
          return;
        }
      }
      tun := TryOtherPeers(payload, addr, now);
    }

    method OnUdpInit(payload: Wire, addr: Endpoint, inp: RecvInput, now: nat) returns (actions: seq<Action>)
      requires Valid()
      modifies Repr
      ensures Valid() && fresh(Repr - old(Repr))
      ensures var s := UdpInit(config, old(View()), payload, addr, inp, now); View() == s.peers && actions == s.actions
    {
      hide Valid, Answer, ReadInit, Cut, Peer.Valid, Peer.Repr;
      actions := [];
      var read := ReadInit(config.local, Cut(payload, INIT_LEN));
      if read.Some? {
        var found := FindByKey(read.value.1);
        if found.Some? {
          var i := found.value;
          Touch(i, Some(addr), now);
          var packet := AnswerOne(i, read.value.0, inp, now);
          if packet.Some? {
            actions := [(packet.value, Udp(addr))];
          }
        }
      }
    }

    method OnUdpResp(payload: Wire, addr: Endpoint, inp: RecvInput, now: nat)
      requires Valid()
      modifies Repr
      ensures Valid() && fresh(Repr - old(Repr))
      ensures View() == UdpResp(config, old(View()), payload, addr, inp, now).peers
    {
      hide Valid, HandleHandshake;
      var found := FindByEndpoint(addr);
      if found.Some? {
        var i := found.value;
        HandshakeOne(i, payload, inp, now);
        Touch(i, peers[i].endpoint, now);
      }
    }

    method NetworkToTun(datagram: Wire, addr: Endpoint, inp: RecvInput, now: nat)
      returns (actions: seq<Action>, tun: Option<Bytes>)
      requires Valid()
      modifies Repr
      ensures Valid() && fresh(Repr - old(Repr))
      ensures var s := UdpReceive(config, old(View()), datagram, addr, inp, now);
              View() == s.peers && actions == s.actions && tun == s.tun
    {
      hide Valid, UdpInit, UdpResp, UdpData;
      actions, tun := [], None;
      if datagram != [] {
        HandshakesGoNowhere(config, View(), datagram, addr, inp, now);
        var packetType, payload := Values(datagram)[0], datagram[1..];
        if packetType == config.magic.handshakeInit {
          actions := OnUdpInit(payload, addr, inp, now);
        } else if packetType == config.magic.handshakeResp {
          OnUdpResp(payload, addr, inp, now);
        } else if packetType == config.magic.data {
          tun := OnUdpData(payload, addr, now);
        }
      }
    }

    method OnRelayInit(from: Key, payload: Wire, inp: RecvInput, now: nat) returns (actions: seq<Action>)
      requires Valid()
      modifies Repr
      ensures Valid() && fresh(Repr - old(Repr))
      ensures var s := RelayInit(config, old(View()), from, payload, inp, now);
              View() == s.peers && actions == s.actions
    {
      hide Valid, Answer, ReadInit, Cut, Peer.Valid, Peer.Repr;
      actions := [];
      var read := ReadInit(config.local, Cut(payload, INIT_LEN));
      if read.Some? && read.value.1 == from {
        var found := FindByKey(from);
        if found.Some? {
          var reply := AnswerOne(found.value, read.value.0, inp, now);
          if reply.Some? {
            actions := [(reply.value, Relay(from))];
          }
        }
      }
    }

    /** `process_relayed_packet` */
    method RelayToTun(from: Key, packet: Wire, inp: RecvInput, now: nat)
      returns (actions: seq<Action>, tun: Option<Bytes>)
      requires Valid()
      modifies Repr
      ensures Valid() && fresh(Repr - old(Repr))
      ensures var s := RelayReceive(config, old(View()), from, packet, inp, now);
              View() == s.peers && actions == s.actions && tun == s.tun
    {
      hide Valid, RelayInit, HandleHandshake, Decrypt, Admitted;
      actions, tun := [], None;
      if packet == [] {
        return;
      }
      var packetType, payload := Values(packet)[0], packet[1..];
      if packetType == config.magic.handshakeInit {
        RelayInitIsSilent(config, View(), from, payload, inp, now);
        actions := OnRelayInit(from, payload, inp, now);
      } else if packetType == config.magic.handshakeResp {
        var found := FindByKey(from);
        if found.Some? {
          HandshakeOne(found.value, payload, inp, now);
        }
      } else if packetType == config.magic.data {
        var found := FindByKey(from);
        if found.Some? {
          tun := TryPeer(found.value, payload, now);
        }
      }
    }

    // ------------------------------------------------------------- reconciliation

    /** The peers whose key is wanted, and where in the table they stand. */
    method Select(wanted: seq<ParsedPeer>) returns (kept: seq<Peer>, ghost picked: seq<nat>)
      requires Valid()
      ensures |picked| == |kept| == |Retain(View(), wanted)|
      ensures forall k | 0 <= k < |kept| ::
                picked[k] < |peers| && kept[k] == peers[picked[k]] && Retain(View(), wanted)[k] == View()[picked[k]]
      ensures forall k, l | 0 <= k < l < |kept| :: picked[k] < picked[l]
    {
      hide Peer.Valid, Peer.Repr;
      kept, picked := [], [];
      ghost var ps := View();
      for i := 0 to |peers|
        invariant |picked| == |kept| == |Retain(ps[..i], wanted)|
        invariant forall k | 0 <= k < |kept| ::
            picked[k] < i && kept[k] == peers[picked[k]] && Retain(ps[..i], wanted)[k] == ps[picked[k]]
        invariant forall k, l | 0 <= k < l < |kept| :: picked[k] < picked[l]
      {
        assert ps[..i + 1][..i] == ps[..i];
        var found := IsWanted(wanted, peers[i].pubkey);
        assert peers[i].pubkey == ps[i].pubkey;
        if found {
          kept := kept + [peers[i]];
          picked := picked + [i];
        }
      }
      assert ps[..|ps|] == ps;
    }

    method RetainWanted(wanted: seq<ParsedPeer>)
      requires Valid()
      modifies this
      ensures Valid() && Repr == old(Repr)
      ensures View() == Retain(old(View()), wanted)
    {
      hide Retain, Peer.View, Peer.Valid, Peer.Repr;
      ghost var picked;
      var kept;
      kept, picked := Select(wanted);
      peers := kept;
    }

    method ParseDescriptors(ax: AddrSyntax, descriptors: seq<PeerDescriptor>) returns (wanted: seq<ParsedPeer>)
      ensures wanted == ParseAll(ax, descriptors)
    {
      wanted := [];
      for k := 0 to |descriptors|
        invariant wanted == ParseAll(ax, descriptors[..k])
      {
        assert descriptors[..k + 1][..k] == descriptors[..k];
        var parsed := ParsePeerArg(ax, ToSpec(descriptors[k]));
        if parsed.Ok? {
          wanted := wanted + [parsed.value];
        }
      }
      assert descriptors[..|descriptors|] == descriptors;
    }

    method UpsertOne(w: ParsedPeer, now: nat) returns (newEndpoints: seq<Endpoint>)
      requires Valid()
      modifies Repr
      ensures Valid() && fresh(Repr - old(Repr))
      ensures Synced(View(), newEndpoints) == Upsert(old(View()), w, config.magic, now)
    {
      hide Valid, View;
      newEndpoints := [];
      var found := FindByKey(w.pubkey);
      if found.Some? {
        Update(found.value, w);
      } else {
        if w.endpoint.Some? {
          newEndpoints := [w.endpoint.value];
        }
        Append(w, now);
      }
    }

    method SyncPeers(ax: AddrSyntax, descriptors: seq<PeerDescriptor>, now: nat) returns (newEndpoints: seq<Endpoint>)
      requires Valid()
      modifies Repr
      ensures Valid() && fresh(Repr - old(Repr))
      ensures var s := Reconcile(old(View()), ParseAll(ax, descriptors), config.magic, now);
              View() == s.peers && newEndpoints == s.newEndpoints
    {
      hide Valid, View, Retain, Upsert;
      var wanted := ParseDescriptors(ax, descriptors);
      RetainWanted(wanted);
      ghost var base := View();
      newEndpoints := [];
      for k := 0 to |wanted|
        invariant Valid() && fresh(Repr - old(Repr))
        invariant Synced(View(), newEndpoints) == UpsertAll(base, wanted[..k], config.magic, now)
      {
        assert wanted[..k + 1][..k] == wanted[..k];
        var more := UpsertOne(wanted[k], now);
        newEndpoints := newEndpoints + more;
      }
      assert wanted[..|wanted|] == wanted;
    }
  }

  /** `wanted.iter().any(|w| w.pubkey == key)` */
  method IsWanted(wanted: seq<ParsedPeer>, key: Key) returns (found: bool)
    ensures found == Wanted(wanted, key)
  {
    for k := 0 to |wanted|
      invariant forall j | 0 <= j < k :: wanted[j].pubkey != key
    {
      if wanted[k].pubkey == key {
        return true;
      }
    }
    found := false;
  }

  /** The table and the queue when the first `i` peers are ticked. */
  ghost function PartlyTicked(c: Config, ps: Peers, inputs: seq<TickInput>, i: nat, now: nat): Step
    requires i <= |ps| == |inputs|
  {
    var s := Tick(c, ps[..i], inputs[..i], now);
    s.(peers := s.peers + ps[i..])
  }

  lemma TickNothing(c: Config, ps: Peers, inputs: seq<TickInput>, now: nat)
    requires |ps| == |inputs|
    ensures PartlyTicked(c, ps, inputs, 0, now).peers == ps && PartlyTicked(c, ps, inputs, 0, now).actions == []
  {
  }

  lemma TickAll(c: Config, ps: Peers, inputs: seq<TickInput>, now: nat)
    requires |ps| == |inputs|
    ensures PartlyTicked(c, ps, inputs, |ps|, now).peers == Tick(c, ps, inputs, now).peers
    ensures PartlyTicked(c, ps, inputs, |ps|, now).actions == Tick(c, ps, inputs, now).actions
  {
    hide Tick;
    assert ps[..|ps|] == ps && inputs[..|ps|] == inputs;
  }

  /** Ticking one more peer changes that entry of the table and queues its packets last. */
  lemma TickOneMore(c: Config, ps: Peers, inputs: seq<TickInput>, i: nat, now: nat)
    requires i < |ps| == |inputs|
    ensures var s, more := PartlyTicked(c, ps, inputs, i, now), PartlyTicked(c, ps, inputs, i + 1, now);
            var t := TickPeer(c, ps[i], inputs[i], now);
            && |s.peers| == |ps| && s.peers[i] == ps[i]
            && s.peers[i := t.peer] == more.peers
            && more.actions == s.actions + t.actions
  {
    hide TickPeer;
    assert ps[..i + 1][..i] == ps[..i] && inputs[..i + 1][..i] == inputs[..i];
  }

  /** Admission looks at the plaintext and the allowed addresses only. */
  lemma AdmittedSame(p: PeerState, payload: Wire, now: nat, q: PeerState, plaintext: Option<Bytes>)
    requires var o := Decrypt(p, payload, now); q == o.peer && plaintext == o.result
    ensures Admitted(Outcome(q, plaintext, [])) == Admitted(Decrypt(p, payload, now))
  {
  }

  lemma AdmittedHasResult(p: PeerState, payload: Wire, now: nat)
    ensures Admitted(Decrypt(p, payload, now)) ==> Decrypt(p, payload, now).result.Some?
  {
  }

  lemma RelayInitIsSilent(c: Config, ps: Peers, from: Key, payload: Wire, inp: RecvInput, now: nat)
    ensures RelayInit(c, ps, from, payload, inp, now).tun.None?
  {
  }

  lemma HandshakesGoNowhere(c: Config, ps: Peers, datagram: Wire, addr: Endpoint, inp: RecvInput, now: nat)
    requires datagram != []
    ensures UdpInit(c, ps, datagram[1..], addr, inp, now).tun.None?
    ensures UdpResp(c, ps, datagram[1..], addr, inp, now).tun.None?
    ensures UdpResp(c, ps, datagram[1..], addr, inp, now).actions == []
    ensures UdpData(c, ps, datagram[1..], addr, now).actions == []
  {
    TrialDecryptIsSilent(c, ps, 0, datagram[1..], addr, now);
    var found := FindEndpoint(ps, addr);
    if found.Some? {
      TrialDecryptIsSilent(c, ps[found.value := Decrypt(ps[found.value], datagram[1..], now).peer], 0, datagram[1..],
                           addr, now);
    }
  }

  lemma {:induction false} TrialDecryptIsSilent(c: Config, ps: Peers, k: nat, payload: Wire, addr: Endpoint, now: nat)
    requires k <= |ps|
    ensures TrialDecrypt(c, ps, k, payload, addr, now).actions == []
    decreases |ps| - k
  {
    hide Decrypt, Admitted;
    if k < |ps| && ps[k].endpoint == Some(addr) {
      TrialDecryptIsSilent(c, ps, k + 1, payload, addr, now);
    } else if k < |ps| {
      TrialDecryptIsSilent(c, ps[k := Decrypt(ps[k], payload, now).peer], k + 1, payload, addr, now);
    }
  }
}
