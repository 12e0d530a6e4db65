/**
 * The relay server (src/bin/coordinatord.rs): any number of client connections, each with a read
 * loop and a write loop, around one shared route map. Every step below is one await-to-await
 * stretch of one task; they interleave freely.
 */
module RelayRouter {
  import opened Wrappers
  import opened Words
  import opened Noise
  import opened RelayCodec

  const CHANNEL_CAPACITY := 64

  /**
   * A frame on its way. `src` and `index` say which read of which connection it came from;
   * only `from` and `payload` go out on the wire.
   */
  datatype Item = Item(src: nat, index: nat, from: Key, payload: Bytes)

  /** `sending` is a blocked `tx.send`: the destination connection and the item. */
  datatype Conn = Conn(
    identity: Key,
    open: bool,
    received: seq<Frame>,
    sending: Option<(nat, Item)>,
    channel: seq<Item>,
    written: seq<Item>
  )

  datatype Relay = Relay(conns: seq<Conn>, routes: map<Key, nat>)

  /** Everything that has reached connection `d`: already written, or waiting in its channel. */
  function Landed(c: Conn): seq<Item> {
    c.written + c.channel
  }

  // ------------------------------------------------------------------- steps

  datatype Move =
    | Connect(identity: Key)
    | Read(conn: nat, frame: Frame)
    | Push(conn: nat)
    | Write(conn: nat)
    | Disconnect(conn: nat)

  ghost predicate Enabled(r: Relay, m: Move) {
    match m
    case Connect(identity) => |identity| == 32
    case Read(c, frame) => c < |r.conns| && r.conns[c].open && r.conns[c].sending.None? && Fits(frame)
    case Push(c) =>
      && c < |r.conns| && r.conns[c].open && r.conns[c].sending.Some?
      && var d := r.conns[c].sending.value.0;
      d < |r.conns| && (r.conns[d].open ==> |r.conns[d].channel| < CHANNEL_CAPACITY)
    case Write(c) => c < |r.conns| && r.conns[c].open && r.conns[c].channel != []
    case Disconnect(c) => c < |r.conns| && r.conns[c].open
  }

  function Do(r: Relay, m: Move): Relay
    requires Enabled(r, m)
  {
    match m
    case Connect(identity) =>
      // an older namesake loses its only stored sender here, so its write loop ends once its channel
      // is empty; the model lets it close at any time, or never
      Relay(r.conns + [Conn(identity, true, [], None, [], [])], r.routes[identity := |r.conns|])
    case Read(c, frame) =>
      var conn := r.conns[c];
      var item := Item(c, |conn.received|, conn.identity, frame.payload);
      var sending := if frame.key in r.routes then Some((r.routes[frame.key], item)) else None;
      r.(conns := r.conns[c := conn.(received := conn.received + [frame], sending := sending)])
    case Push(c) =>
      var (d, item) := r.conns[c].sending.value;
      var sent := r.conns[c := r.conns[c].(sending := None)];
      if r.conns[d].open then r.(conns := sent[d := sent[d].(channel := sent[d].channel + [item])])
      else r.(conns := sent)
    case Write(c) =>
      var conn := r.conns[c];
      r.(conns := r.conns[c := conn.(channel := conn.channel[1..], written := conn.written + [conn.channel[0]])])
    case Disconnect(c) =>
      // by identity: a younger connection with the same key loses its route as well
      Relay(r.conns[c := r.conns[c].(open := false, sending := None)], r.routes - {r.conns[c].identity})
  }

  ghost predicate Next(r: Relay, s: Relay) {
    exists m :: Enabled(r, m) && s == Do(r, m)
  }

  ghost predicate Run(rs: seq<Relay>) {
    rs != [] && rs[0] == Relay([], map[]) && forall k | 0 < k < |rs| :: Next(rs[k - 1], rs[k])
  }

  // --------------------------------------------------------------- invariant

  /** The reads of a connection that its read loop has dealt with. */
  function Done(c: Conn): int {
    |c.received| - if c.sending.Some? then 1 else 0
  }

  /** The item is read number `index` of its sender, unchanged, addressed to `dest`. */
  ghost predicate Genuine(conns: seq<Conn>, item: Item, dest: Key) {
    && item.src < |conns|
    && item.index < |conns[item.src].received|
    && conns[item.src].received[item.index] == Frame(dest, item.payload)
    && Fits(Frame(dest, item.payload))
    && item.from == conns[item.src].identity
  }

  /** The item a read loop is trying to hand over is its newest read. */
  ghost predicate SendingOk(conns: seq<Conn>, c: nat)
    requires c < |conns|
  {
    conns[c].sending.Some? ==>
      var (d, item) := conns[c].sending.value;
      && d < |conns|
      && item.src == c && item.index == Done(conns[c])
      && Genuine(conns, item, conns[d].identity)
  }

  /** A read its sender is done with, addressed to `dest`. */
  ghost predicate Settled(conns: seq<Conn>, item: Item, dest: Key) {
    Genuine(conns, item, dest) && item.index < Done(conns[item.src])
  }

  ghost predicate Ordered(items: seq<Item>) {
    forall a, b | 0 <= a < b < |items| && items[a].src == items[b].src :: items[a].index < items[b].index
  }

  ghost predicate LandedOk(conns: seq<Conn>, d: nat)
    requires d < |conns|
  {
    Ordered(Landed(conns[d])) && forall item | item in Landed(conns[d]) :: Settled(conns, item, conns[d].identity)
  }

  /** No read lands on two connections. */
  ghost predicate Disjoint(conns: seq<Conn>) {
    forall d, e, x, y | 0 <= d < |conns| && 0 <= e < |conns| && d != e && x in Landed(conns[d])
                        && y in Landed(conns[e]) ::
      x.src == y.src ==> x.index != y.index
  }

  ghost predicate ConnsOk(conns: seq<Conn>) {
    && (forall c | 0 <= c < |conns| :: |conns[c].identity| == 32 && SendingOk(conns, c) && LandedOk(conns, c))
    && Disjoint(conns)
  }

  /** A route leads to a connection that identified itself by that key. */
  ghost predicate RoutesOk(r: Relay) {
    forall k | k in r.routes :: r.routes[k] < |r.conns| && r.conns[r.routes[k]].identity == k
  }

  ghost predicate RelayOk(r: Relay) {
    RoutesOk(r) && ConnsOk(r.conns)
  }

  // ------------------------------------------------------------------- proofs

  /** Connections keep their identity, forget no read and take none back. */
  ghost predicate Extends(conns: seq<Conn>, more: seq<Conn>) {
    && |conns| <= |more|
    && forall c | 0 <= c < |conns| ::
         && more[c].identity == conns[c].identity
         && conns[c].received <= more[c].received
         && Done(conns[c]) <= Done(more[c])
  }

  lemma GenuineStays(conns: seq<Conn>, more: seq<Conn>, item: Item, dest: Key)
    requires Genuine(conns, item, dest) && Extends(conns, more)
    ensures Genuine(more, item, dest)
  {
    assert more[item.src].received[item.index] == conns[item.src].received[item.index];
  }

  lemma LandedStays(conns: seq<Conn>, more: seq<Conn>, d: nat)
    requires d < |conns| && LandedOk(conns, d) && Extends(conns, more)
    requires Landed(more[d]) == Landed(conns[d])
    ensures LandedOk(more, d)
  {
    forall item | item in Landed(conns[d]) ensures Settled(more, item, conns[d].identity) {
      assert Settled(conns, item, conns[d].identity);
      GenuineStays(conns, more, item, conns[d].identity);
    }
  }

  lemma DisjointStays(conns: seq<Conn>, more: seq<Conn>)
    requires Disjoint(conns) && |conns| <= |more|
    requires forall c | 0 <= c < |conns| :: Landed(more[c]) == Landed(conns[c])
    requires forall c | |conns| <= c < |more| :: Landed(more[c]) == []
    ensures Disjoint(more)
  {
    hide Landed;
  }

  lemma SendingStays(conns: seq<Conn>, more: seq<Conn>, c: nat)
    requires c < |conns| && SendingOk(conns, c) && Extends(conns, more)
    requires more[c].sending.None? || (more[c].sending == conns[c].sending && more[c].received == conns[c].received)
    ensures SendingOk(more, c)
  {
    if more[c].sending.Some? {
      var (d, item) := more[c].sending.value;
      GenuineStays(conns, more, item, conns[d].identity);
    }
  }

  /** A step in which nothing lands anywhere and nothing new waits to be handed over. */
  lemma QuietStep(conns: seq<Conn>, more: seq<Conn>)
    requires ConnsOk(conns) && |more| == |conns| && Extends(conns, more)
    requires forall c | 0 <= c < |conns| :: Landed(more[c]) == Landed(conns[c])
    requires forall c | 0 <= c < |conns| ::
               more[c].sending.None? || (more[c].sending == conns[c].sending && more[c].received == conns[c].received)
    ensures ConnsOk(more)
  {
    hide LandedOk, SendingOk, Landed;
    forall c | 0 <= c < |conns| ensures SendingOk(more, c) && LandedOk(more, c) {
      SendingStays(conns, more, c);
      LandedStays(conns, more, c);
    }
  }

  lemma ConnectKeeps(r: Relay, identity: Key)
    requires RelayOk(r) && Enabled(r, Connect(identity))
    ensures RelayOk(Do(r, Connect(identity)))
  {
    hide LandedOk, SendingOk, Disjoint;
    var s := Do(r, Connect(identity));
    forall c | 0 <= c < |r.conns| ensures SendingOk(s.conns, c) && LandedOk(s.conns, c) {
      SendingStays(r.conns, s.conns, c);
      LandedStays(r.conns, s.conns, c);
    }
    NewcomerIsOk(s.conns, |r.conns|);
    DisjointStays(r.conns, s.conns);
  }

  lemma NewcomerIsOk(conns: seq<Conn>, c: nat)
    requires c < |conns| && conns[c].sending.None? && Landed(conns[c]) == []
    ensures SendingOk(conns, c) && LandedOk(conns, c)
  {
  }

  lemma ReadKeeps(r: Relay, c: nat, frame: Frame)
    requires RelayOk(r) && Enabled(r, Read(c, frame))
    ensures RelayOk(Do(r, Read(c, frame)))
  {
    hide LandedOk, SendingOk, Disjoint;
    var s := Do(r, Read(c, frame));
    assert s.conns[c].received[|r.conns[c].received|] == frame;
    forall e | 0 <= e < |r.conns| ensures SendingOk(s.conns, e) && LandedOk(s.conns, e) {
      if e != c {
        SendingStays(r.conns, s.conns, e);
      } else {
        NewestReadIsSending(s, c, frame);
      }
      LandedStays(r.conns, s.conns, e);
    }
    DisjointStays(r.conns, s.conns);
  }

  lemma NewestReadIsSending(s: Relay, c: nat, frame: Frame)
    requires c < |s.conns| && Fits(frame) && s.conns[c].received != []
    requires RoutesOk(s)
    requires var n := |s.conns[c].received| - 1;
             && s.conns[c].received[n] == frame
             && s.conns[c].sending == if frame.key in s.routes
                                      then Some((s.routes[frame.key], Item(c, n, s.conns[c].identity, frame.payload)))
                                      else None
    ensures SendingOk(s.conns, c)
  {
  }

  /** The item handed over is the next one of its sender, so it lands behind all earlier ones. */
  lemma PushKeeps(r: Relay, c: nat)
    requires RelayOk(r) && Enabled(r, Push(c)) && r.conns[r.conns[c].sending.value.0].open
    ensures RelayOk(Do(r, Push(c)))
  {
    var (d, item) := r.conns[c].sending.value;
    var sent := r.conns[c := r.conns[c].(sending := None)];
    hide ConnsOk, RoutesOk, Settled, Landed;
    RoutesStay(r, Do(r, Push(c)));
    HandedOver(r.conns, c);
    NewestIsAboveAll(r.conns, c);
    LandKeeps(sent, d, item);
  }

  lemma NewestIsAboveAll(conns: seq<Conn>, c: nat)
    requires ConnsOk(conns) && c < |conns| && conns[c].sending.Some?
    ensures var item := conns[c].sending.value.1;
            var sent := conns[c := conns[c].(sending := None)];
            forall e, x | 0 <= e < |sent| && x in Landed(sent[e]) && x.src == item.src :: x.index < item.index
  {
    var (d, item) := conns[c].sending.value;
    var sent := conns[c := conns[c].(sending := None)];
    assert SendingOk(conns, c);
    forall e, x | 0 <= e < |sent| && x in Landed(sent[e]) && x.src == item.src ensures x.index < item.index {
      assert Landed(sent[e]) == Landed(conns[e]);
      assert LandedOk(conns, e) && Settled(conns, x, conns[e].identity);
    }
  }

  lemma RoutesStay(r: Relay, s: Relay)
    requires RoutesOk(r) && s.routes == r.routes && |s.conns| == |r.conns|
    requires forall c | 0 <= c < |r.conns| :: s.conns[c].identity == r.conns[c].identity
    ensures RoutesOk(s)
  {
  }

  lemma HandedOver(conns: seq<Conn>, c: nat)
    requires ConnsOk(conns) && c < |conns| && conns[c].sending.Some?
    ensures var sent := conns[c := conns[c].(sending := None)];
            ConnsOk(sent) && Settled(sent, conns[c].sending.value.1, sent[conns[c].sending.value.0].identity)
  {
    hide LandedOk, Disjoint;
      var (d, item) := conns[c].sending.value;
    var sent := conns[c := conns[c].(sending := None)];
    assert SendingOk(conns, c);
    GenuineStays(conns, sent, item, conns[d].identity);
    QuietStep(conns, sent);
  }

  /** An item its sender is done with joins the channel of the connection it is addressed to. */
  lemma LandKeeps(conns: seq<Conn>, d: nat, item: Item)
    requires ConnsOk(conns) && d < |conns| && Settled(conns, item, conns[d].identity)
    requires forall e, x | 0 <= e < |conns| && x in Landed(conns[e]) && x.src == item.src :: x.index < item.index
    ensures ConnsOk(conns[d := conns[d].(channel := conns[d].channel + [item])])
  {
    hide LandedOk, SendingOk, Disjoint, Settled;
    var more := conns[d := conns[d].(channel := conns[d].channel + [item])];
    assert Landed(more[d]) == Landed(conns[d]) + [item];
    forall e | 0 <= e < |conns| ensures SendingOk(more, e) && LandedOk(more, e) {
      SendingStays(conns, more, e);
      if e != d {
        LandedStays(conns, more, e);
      } else {
        SettledStays(conns, more, item, conns[d].identity);
        PushLands(conns, more, d, item);
      }
    }
    PushStaysDisjoint(conns, more, d, item);
  }

  lemma SettledStays(conns: seq<Conn>, more: seq<Conn>, item: Item, dest: Key)
    requires Settled(conns, item, dest) && Extends(conns, more)
    ensures Settled(more, item, dest)
  {
    GenuineStays(conns, more, item, dest);
  }

  lemma PushLands(conns: seq<Conn>, more: seq<Conn>, d: nat, item: Item)
    requires d < |conns| && LandedOk(conns, d) && Extends(conns, more)
    requires Landed(more[d]) == Landed(conns[d]) + [item]
    requires Settled(more, item, conns[d].identity)
    requires forall x | x in Landed(conns[d]) && x.src == item.src :: x.index < item.index
    ensures LandedOk(more, d)
  {
    forall x | x in Landed(more[d]) ensures Settled(more, x, more[d].identity) {
      if x in Landed(conns[d]) {
        assert Settled(conns, x, conns[d].identity);
      }
    }
    var items := Landed(conns[d]);
    forall a, b | 0 <= a < b < |items| + 1 && (items + [item])[a].src == (items + [item])[b].src
      ensures (items + [item])[a].index < (items + [item])[b].index
    {
      assert items[a] in items;
    }
  }

  lemma PushStaysDisjoint(conns: seq<Conn>, more: seq<Conn>, d: nat, item: Item)
    requires d < |conns| == |more| && Disjoint(conns)
    requires Landed(more[d]) == Landed(conns[d]) + [item]
    requires forall e | 0 <= e < |conns| && e != d :: Landed(more[e]) == Landed(conns[e])
    requires forall e, x | 0 <= e < |conns| && x in Landed(conns[e]) && x.src == item.src :: x.index < item.index
    ensures Disjoint(more)
  {
    hide Landed;
  }

  lemma MoveKeeps(r: Relay, m: Move)
    requires RelayOk(r) && Enabled(r, m)
    ensures RelayOk(Do(r, m))
  {
    hide ConnsOk;
    match m
    case Connect(identity) => ConnectKeeps(r, identity);
    case Read(c, frame) => ReadKeeps(r, c, frame);
    case Push(c) =>
      if r.conns[r.conns[c].sending.value.0].open {
        PushKeeps(r, c);
      } else {
        QuietStep(r.conns, Do(r, m).conns);
      }
    case Write(c) =>
      WriteMovesFront(r.conns[c]);
      QuietStep(r.conns, Do(r, m).conns);
    case Disconnect(c) =>
      QuietStep(r.conns, Do(r, m).conns);
  }

  lemma WriteMovesFront(c: Conn)
    requires c.channel != []
    ensures Landed(c.(channel := c.channel[1..], written := c.written + [c.channel[0]])) == Landed(c)
  {
  }

  lemma {:induction false} RunsAreOk(rs: seq<Relay>, k: nat)
    requires Run(rs) && k < |rs|
    ensures RelayOk(rs[k])
    decreases k
  {
    hide RelayOk;
    if k == 0 {
      assert RelayOk(Relay([], map[])) by {
        EmptyRelayIsOk();
      }
    } else {
      RunsAreOk(rs, k - 1);
      assert Next(rs[k - 1], rs[k]);
      var m :| Enabled(rs[k - 1], m) && rs[k] == Do(rs[k - 1], m);
      MoveKeeps(rs[k - 1], m);
    }
  }

  lemma EmptyRelayIsOk()
    ensures RelayOk(Relay([], map[]))
  {
  }

  /** What goes out on connection `c`, as the client's decoder sees it. */
  function Outgoing(items: seq<Item>): seq<Frame> {
    if items == [] then []
    else Outgoing(items[..|items| - 1]) + [Frame(items[|items| - 1].from, items[|items| - 1].payload)]
  }

  /**
   * In every reachable state, each frame written to a connection was read, once, from a sending
   * connection: addressed to this connection's identity, carrying that connection's own identity
   * and an unchanged payload. Frames of one sender are written in the order it sent them, and no
   * read is written to two connections.
   */
  lemma WrittenFramesAreGenuine(rs: seq<Relay>, k: nat, d: nat, a: nat)
    requires Run(rs) && k < |rs| && d < |rs[k].conns| && a < |rs[k].conns[d].written|
    ensures var conns, item := rs[k].conns, rs[k].conns[d].written[a];
            && item.src < |conns| && item.index < |conns[item.src].received|
            && conns[item.src].received[item.index] == Frame(conns[d].identity, item.payload)
            && item.from == conns[item.src].identity
            && (forall b | a < b < |conns[d].written| && conns[d].written[b].src == item.src ::
                  item.index < conns[d].written[b].index)
            && (forall e, y | 0 <= e < |conns| && e != d && y in conns[e].written && y.src == item.src ::
                  y.index != item.index)
  {
    RunsAreOk(rs, k);
    var conns := rs[k].conns;
    var item := conns[d].written[a];
    assert LandedOk(conns, d) && Landed(conns[d])[a] == item && item in Landed(conns[d]);
    assert Settled(conns, item, conns[d].identity);
    forall b | a < b < |conns[d].written| && conns[d].written[b].src == item.src
      ensures item.index < conns[d].written[b].index
    {
      assert Landed(conns[d])[b] == conns[d].written[b];
    }
    forall e, y | 0 <= e < |conns| && e != d && y in conns[e].written && y.src == item.src
      ensures y.index != item.index
    {
      assert y in Landed(conns[e]);
    }
  }

  lemma {:induction false} OutgoingInOrder(items: seq<Item>)
    ensures |Outgoing(items)| == |items|
    ensures forall i | 0 <= i < |items| :: Outgoing(items)[i] == Frame(items[i].from, items[i].payload)
  {
    if items != [] {
      OutgoingInOrder(items[..|items| - 1]);
    }
  }

  lemma {:induction false} OutgoingFits(conns: seq<Conn>, items: seq<Item>, dest: Key)
    requires forall item | item in items :: Settled(conns, item, dest)
    requires forall c | 0 <= c < |conns| :: |conns[c].identity| == 32
    ensures |Outgoing(items)| == |items|
    ensures forall f | f in Outgoing(items) :: Fits(f)
  {
    if items != [] {
      OutgoingFits(conns, items[..|items| - 1], dest);
      assert Settled(conns, items[|items| - 1], dest);
    }
  }

  /** The client's decoder accepts every frame it is sent, wherever its stream is cut. */
  lemma ClientsDecodeWhatWasWritten(rs: seq<Relay>, k: nat, d: nat, cut: nat)
    requires Run(rs) && k < |rs| && d < |rs[k].conns|
    requires cut <= |EncodeAll(Outgoing(rs[k].conns[d].written))|
    ensures var sent := Outgoing(rs[k].conns[d].written);
            Decode(EncodeAll(sent)[..cut]) == Decoded(sent[..Complete(sent, cut)], Closed)
    ensures var written, got := rs[k].conns[d].written,
                                Decode(EncodeAll(Outgoing(rs[k].conns[d].written))[..cut]).frames;
            |got| <= |written| && forall i | 0 <= i < |got| :: got[i] == Frame(written[i].from, written[i].payload)
  {
    OutgoingInOrder(rs[k].conns[d].written);
    RunsAreOk(rs, k);
    var conns := rs[k].conns;
    assert LandedOk(conns, d);
    forall item | item in conns[d].written ensures Settled(conns, item, conns[d].identity) {
      assert item in Landed(conns[d]);
    }
    OutgoingFits(conns, conns[d].written, conns[d].identity);
    CutStream(Outgoing(conns[d].written), cut);
  }

  // ------------------------------------------------------------- reachability

  ghost predicate OnePerIdentity(conns: seq<Conn>) {
    forall c, d | 0 <= c < d < |conns| && conns[c].open && conns[d].open :: conns[c].identity != conns[d].identity
  }

  ghost predicate Routed(r: Relay) {
    forall c | 0 <= c < |r.conns| && r.conns[c].open ::
      r.conns[c].identity in r.routes && r.routes[r.conns[c].identity] == c
  }

  lemma MoveKeepsRouted(r: Relay, m: Move)
    requires Enabled(r, m) && Routed(r) && OnePerIdentity(r.conns) && OnePerIdentity(Do(r, m).conns)
    ensures Routed(Do(r, m))
  {
    var s := Do(r, m);
    if m.Connect? {
      forall c | 0 <= c < |r.conns| && r.conns[c].open ensures r.conns[c].identity != m.identity {
        assert s.conns[c] == r.conns[c] && s.conns[|r.conns|].open;
      }
    }
  }

  /** While no key is connected twice at a time, every open connection can be reached by its key. */
  lemma {:induction false} SoleConnectionsAreRouted(rs: seq<Relay>, k: nat)
    requires Run(rs) && k < |rs|
    requires forall j | 0 <= j <= k :: OnePerIdentity(rs[j].conns)
    ensures Routed(rs[k])
    decreases k
  {
    hide Enabled, Do, OnePerIdentity, Routed;
    if k == 0 {
      assert Routed(Relay([], map[])) by {
        NobodyToRoute();
      }
    } else {
      SoleConnectionsAreRouted(rs, k - 1);
      assert Next(rs[k - 1], rs[k]);
      var m :| Enabled(rs[k - 1], m) && rs[k] == Do(rs[k - 1], m);
      MoveKeepsRouted(rs[k - 1], m);
    }
  }

  lemma NobodyToRoute()
    ensures Routed(Relay([], map[]))
  {
  }

  lemma RoutedMeansSole(r: Relay)
    requires Routed(r)
    ensures OnePerIdentity(r.conns)
  {
  }

  /** All connections stay reachable by their keys exactly as long as no key is connected twice at a time. */
  lemma RoutedExactlyWhileSole(rs: seq<Relay>, k: nat)
    requires Run(rs) && k < |rs|
    ensures (forall j | 0 <= j <= k :: Routed(rs[j])) <==> (forall j | 0 <= j <= k :: OnePerIdentity(rs[j].conns))
  {
    hide Run, Routed, OnePerIdentity;
    forall j | 0 <= j <= k && Routed(rs[j]) ensures OnePerIdentity(rs[j].conns) {
      RoutedMeansSole(rs[j]);
    }
    forall j | 0 <= j <= k && forall i | 0 <= i <= k :: OnePerIdentity(rs[i].conns) ensures Routed(rs[j]) {
      SoleConnectionsAreRouted(rs, j);
    }
  }

  /** When a namesake of an open connection closes, frames for its key go nowhere. */
  lemma NamesakeClosesTheRoute(r: Relay, c: nat, d: nat)
    requires c < |r.conns| && d < |r.conns| && c != d && r.conns[c].open && r.conns[d].open
    requires r.conns[c].identity == r.conns[d].identity
    ensures Enabled(r, Disconnect(c))
    ensures var s := Do(r, Disconnect(c)); s.conns[d] == r.conns[d] && !Routed(s)
    ensures forall e, frame: Frame | 0 <= e < |r.conns| && frame.key == r.conns[d].identity ::
              Enabled(Do(r, Disconnect(c)), Read(e, frame)) ==>
                Do(Do(r, Disconnect(c)), Read(e, frame)).conns[e].sending.None?
  {
    var s := Do(r, Disconnect(c));
    assert s.conns[d].open && s.conns[d].identity !in s.routes;
  }

  // --------------------------------------------- reachability of one connection

  /** The run `rs` with the moves that make it. */
  ghost predicate Played(rs: seq<Relay>, ms: seq<Move>) {
    && |rs| == |ms| + 1 && rs[0] == Relay([], map[])
    && forall j | 0 <= j < |ms| :: Enabled(rs[j], ms[j]) && rs[j + 1] == Do(rs[j], ms[j])
  }

  lemma {:induction false} RunHasMoves(rs: seq<Relay>) returns (ms: seq<Move>)
    requires Run(rs)
    ensures Played(rs, ms)
    decreases |rs|
  {
    hide Enabled, Do;
    ms := [];
    if |rs| > 1 {
      var n := |rs| - 1;
      ms := RunHasMoves(rs[..n]);
      assert Next(rs[n - 1], rs[n]);
      var m :| Enabled(rs[n - 1], m) && rs[n] == Do(rs[n - 1], m);
      ms := ms + [m];
    }
  }

  /** The move connects or disconnects a client with this key. */
  ghost predicate Touches(r: Relay, m: Move, identity: Key) {
    match m
    case Connect(id) => id == identity
    case Disconnect(c) => c < |r.conns| && r.conns[c].identity == identity
    case _ => false
  }

  /** Connection `d` is made by move number `b`. */
  ghost predicate Born(rs: seq<Relay>, ms: seq<Move>, d: nat, b: nat) {
    b < |ms| < |rs| && ms[b].Connect? && |rs[b].conns| == d
  }

  ghost predicate RoutedTo(r: Relay, d: nat) {
    d < |r.conns| && r.conns[d].identity in r.routes && r.routes[r.conns[d].identity] == d
  }

  lemma {:induction false} EveryConnectionIsBorn(rs: seq<Relay>, ms: seq<Move>, k: nat, d: nat) returns (b: nat)
    requires Played(rs, ms) && k < |rs| && d < |rs[k].conns|
    ensures b < k && Born(rs, ms, d, b)
    decreases k
  {
    assert Enabled(rs[k - 1], ms[k - 1]) && rs[k] == Do(rs[k - 1], ms[k - 1]);
    if d < |rs[k - 1].conns| {
      b := EveryConnectionIsBorn(rs, ms, k - 1, d);
    } else {
      b := k - 1;
    }
  }

  /** One move neither forgets a connection nor changes its key, and moves only routes it touches. */
  lemma MoveAndRoute(r: Relay, m: Move, d: nat)
    requires Enabled(r, m) && RoutesOk(r) && d < |r.conns|
    ensures var s := Do(r, m);
            && d < |s.conns| && s.conns[d].identity == r.conns[d].identity
            && (s.conns[d].open ==> r.conns[d].open)
            && (r.conns[d].open && !s.conns[d].open ==> Touches(r, m, r.conns[d].identity))
            && (RoutedTo(s, d) <==> RoutedTo(r, d) && !Touches(r, m, r.conns[d].identity))
  {
  }

  /**
   * A connection is reachable by its key exactly while it is open and, since it was made, no client
   * with its key connected or disconnected.
   */
  lemma {:induction false} RoutedExactlyWhileUntouched(rs: seq<Relay>, ms: seq<Move>, d: nat, b: nat, k: nat)
    requires Played(rs, ms) && Born(rs, ms, d, b) && b < k < |rs|
    ensures d < |rs[k].conns| && rs[k].conns[d].identity == ms[b].identity
    ensures RoutedTo(rs[k], d) <==>
            rs[k].conns[d].open && forall j | b < j < k :: !Touches(rs[j], ms[j], ms[b].identity)
    ensures (forall j | b < j < k :: !Touches(rs[j], ms[j], ms[b].identity)) ==> rs[k].conns[d].open
    decreases k
  {
    hide Do, Enabled, RelayOk, Touches;
    assert Enabled(rs[k - 1], ms[k - 1]) && rs[k] == Do(rs[k - 1], ms[k - 1]);
    if k == b + 1 {
      ConnectRoutes(rs[b], ms[b]);
    } else {
      RoutedExactlyWhileUntouched(rs, ms, d, b, k - 1);
      PlayedIsRun(rs, ms);
      RunsAreOk(rs, k - 1);
      RelayOkHasRoutes(rs[k - 1]);
      MoveAndRoute(rs[k - 1], ms[k - 1], d);
    }
  }

  lemma ConnectRoutes(r: Relay, m: Move)
    requires m.Connect? && Enabled(r, m)
    ensures var s := Do(r, m);
            |s.conns| == |r.conns| + 1 && s.conns[|r.conns|].identity == m.identity && s.conns[|r.conns|].open
            && RoutedTo(s, |r.conns|)
  {
  }

  lemma RelayOkHasRoutes(r: Relay)
    requires RelayOk(r)
    ensures RoutesOk(r)
  {
  }

  lemma PlayedIsRun(rs: seq<Relay>, ms: seq<Move>)
    requires Played(rs, ms)
    ensures Run(rs)
  {
    hide Enabled, Do;
    forall k | 0 < k < |rs| ensures Next(rs[k - 1], rs[k]) {
      assert Enabled(rs[k - 1], ms[k - 1]);
    }
  }

  /** A client that reconnects before its old connection is closed ends up connected and unreachable. */
  lemma ReconnectLosesItsRoute(identity: Key) returns (rs: seq<Relay>)
    requires |identity| == 32
    ensures Played(rs, [Connect(identity), Connect(identity), Disconnect(0)]) && Run(rs)
    ensures var r := rs[3];
            && |r.conns| == 2 && r.conns[1].open && r.conns[1].identity == identity
            && identity !in r.routes && !RoutedTo(r, 1) && !Routed(r)
  {
    var r0 := Relay([], map[]);
    var r1 := Do(r0, Connect(identity));
    var r2 := Do(r1, Connect(identity));
    var r3 := Do(r2, Disconnect(0));
    rs := [r0, r1, r2, r3];
    assert r3.conns[1].open;
    PlayedIsRun(rs, [Connect(identity), Connect(identity), Disconnect(0)]);
  }
}
