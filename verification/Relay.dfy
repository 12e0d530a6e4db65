/** The relay's frames over a byte stream (src/relay.rs, src/bin/coordinatord.rs). */
module RelayCodec {
  import opened Wrappers
  import opened Words
  import opened Noise

  const MIN_LEN := 32
  const MAX_LEN := 65536

  /** Towards the relay `key` is the destination; towards a client it is the sender. */
  datatype Frame = Frame(key: Key, payload: Bytes)

  predicate Fits(f: Frame) {
    |f.key| == 32 && 32 + |f.payload| <= MAX_LEN
  }

  /** Length of key and payload as a u32, then the key, then the payload. */
  function Encode(f: Frame): Bytes {
    ToBigEndian((32 + |f.payload|) % 0x1_0000_0000, 4) + f.key + f.payload
  }

  function EncodeAll(fs: seq<Frame>): Bytes {
    if fs == [] then [] else EncodeAll(fs[..|fs| - 1]) + Encode(fs[|fs| - 1])
  }

  /** How reading ends: the stream stops, or a length is out of range. */
  datatype Ending = Closed | InvalidLength(len: nat)

  datatype Decoded = Decoded(frames: seq<Frame>, ending: Ending)

  function LengthField(s: Bytes): nat
    requires |s| >= 4
  {
    FromBigEndian(s[..4])
  }

  /** What a reader of the whole stream `s` delivers. */
  function Decode(s: Bytes): Decoded
    decreases |s|
  {
    if |s| < 4 then Decoded([], Closed)
    else
      var len := LengthField(s);
      if !(MIN_LEN <= len <= MAX_LEN) then Decoded([], InvalidLength(len))
      else if |s| < 4 + len then Decoded([], Closed)
      else
        var rest := Decode(s[4 + len..]);
        rest.(frames := [Frame(s[4..36], s[36..4 + len])] + rest.frames)
  }

  lemma EncodedHeader(f: Frame, tail: Bytes)
    requires Fits(f)
    ensures var s := Encode(f) + tail;
            && |Encode(f)| == 36 + |f.payload| && LengthField(s) == 32 + |f.payload|
            && s[4..36] == f.key && s[36..36 + |f.payload|] == f.payload && s[36 + |f.payload|..] == tail
  {
    var n := 32 + |f.payload|;
    assert n % 0x1_0000_0000 == n;
    HeaderLayout(ToBigEndian(n, 4), f.key, f.payload, tail);
    WidthValues();
    BigEndianRoundTrip(n, 4);
  }

  lemma HeaderLayout(header: Bytes, key: Key, payload: Bytes, tail: Bytes)
    requires |header| == 4 && |key| == 32
    ensures var s := header + key + payload + tail;
            && s[..4] == header && s[4..36] == key
            && s[36..36 + |payload|] == payload && s[36 + |payload|..] == tail
  {
  }

  lemma {:induction false} DecodeOne(f: Frame, tail: Bytes)
    requires Fits(f)
    ensures Decode(Encode(f) + tail) == Decoded([f] + Decode(tail).frames, Decode(tail).ending)
  {
    EncodedHeader(f, tail);
    hide Encode, LengthField;
    var s, n := Encode(f) + tail, 32 + |f.payload|;
    assert s[4..36] == f.key && s[36..4 + n] == f.payload && s[4 + n..] == tail;
  }

  /** Frames come out as they went in, followed by whatever the rest of the stream holds. */
  lemma {:induction false} DecodeAfterFrames(fs: seq<Frame>, tail: Bytes)
    requires forall f | f in fs :: Fits(f)
    ensures Decode(EncodeAll(fs) + tail) == Decoded(fs + Decode(tail).frames, Decode(tail).ending)
    decreases |fs|
  {
    hide Decode, Encode, Fits;
    if fs == [] {
      assert EncodeAll(fs) + tail == tail;
    } else {
      var init, f := fs[..|fs| - 1], fs[|fs| - 1];
      assert EncodeAll(fs) + tail == EncodeAll(init) + (Encode(f) + tail);
      DecodeAfterFrames(init, Encode(f) + tail);
      DecodeOne(f, tail);
      assert fs == init + [f];
    }
  }

  lemma StreamRoundTrip(fs: seq<Frame>)
    requires forall f | f in fs :: |f.key| == 32 && |f.payload| <= 65504
    ensures Decode(EncodeAll(fs)) == Decoded(fs, Closed)
  {
    DecodeAfterFrames(fs, []);
    assert EncodeAll(fs) + [] == EncodeAll(fs);
  }

  /** The longest run of leading frames whose encoding fits in the first `k` bytes. */
  function Complete(fs: seq<Frame>, k: nat): (n: nat)
    ensures n <= |fs|
  {
    if fs == [] then 0
    else if |EncodeAll(fs)| <= k then |fs|
    else Complete(fs[..|fs| - 1], k)
  }

  lemma {:induction false} CompleteIsLongest(fs: seq<Frame>, k: nat)
    ensures var n := Complete(fs, k);
            && |EncodeAll(fs[..n])| <= k
            && (n < |fs| ==> k < |EncodeAll(fs[..n + 1])|)
  {
    hide Encode;
    assert fs[..|fs|] == fs;
    if fs != [] && |EncodeAll(fs)| > k {
      var init := fs[..|fs| - 1];
      CompleteIsLongest(init, k);
      var n := Complete(init, k);
      assert init[..n] == fs[..n];
      assert n < |init| ==> init[..n + 1] == fs[..n + 1];
    }
  }

  lemma PartialFrameIsNothing(f: Frame, k: nat)
    requires Fits(f) && k < |Encode(f)|
    ensures Decode(Encode(f)[..k]) == Decoded([], Closed)
  {
    EncodedHeader(f, []);
    assert Encode(f) + [] == Encode(f);
    if k >= 4 {
      assert Encode(f)[..k][..4] == Encode(f)[..4];
    }
  }

  /** A stream cut at any byte delivers exactly the frames complete before the cut. */
  lemma {:induction false} CutStream(fs: seq<Frame>, k: nat)
    requires (forall f | f in fs :: Fits(f)) && k <= |EncodeAll(fs)|
    ensures Decode(EncodeAll(fs)[..k]) == Decoded(fs[..Complete(fs, k)], Closed)
    decreases |fs|
  {
    hide Decode, Encode, Fits;
    if k == |EncodeAll(fs)| {
      DecodeAfterFrames(fs, []);
      assert Decode([]) == Decoded([], Closed) by {
        DecodeStep([]);
      }
      assert EncodeAll(fs) + [] == EncodeAll(fs) == EncodeAll(fs)[..k];
      assert fs[..|fs|] == fs;
    } else {
      var init, f := fs[..|fs| - 1], fs[|fs| - 1];
      var before := |EncodeAll(init)|;
      if k <= before {
        CutStream(init, k);
        assert EncodeAll(fs)[..k] == EncodeAll(init)[..k];
      } else {
        assert EncodeAll(fs)[..k] == EncodeAll(init) + Encode(f)[..k - before];
        PartialFrameIsNothing(f, k - before);
        DecodeAfterFrames(init, Encode(f)[..k - before]);
        assert init[..|init|] == init;
        CompleteOfWhole(init, k);
      }
    }
  }

  lemma CompleteOfWhole(fs: seq<Frame>, k: nat)
    requires |EncodeAll(fs)| <= k
    ensures Complete(fs, k) == |fs|
  {
  }

  /** A length out of range ends decoding there, with the earlier frames intact. */
  lemma InvalidLengthEnds(fs: seq<Frame>, header: Bytes, tail: Bytes)
    requires forall f | f in fs :: Fits(f)
    requires |header| == 4 && !(32 <= FromBigEndian(header) <= 65536)
    ensures Decode(EncodeAll(fs) + (header + tail)) == Decoded(fs, InvalidLength(FromBigEndian(header)))
  {
    assert (header + tail)[..4] == header;
    DecodeAfterFrames(fs, header + tail);
  }

  // ------------------------------------------------------------ the two loops

  function Flatten(chunks: seq<Bytes>): Bytes {
    if chunks == [] then [] else chunks[0] + Flatten(chunks[1..])
  }

  /** The receiving half of a socket: bytes arrive in chunks of any size until it closes. */
  class Socket {
    var chunks: seq<Bytes>

    constructor (chunks: seq<Bytes>)
      ensures this.chunks == chunks
    {
      this.chunks := chunks;
    }

    /** `read_exact`: `n` bytes wherever the chunk borders lie, or failure at the end of the stream. */
    method ReadExact(n: nat) returns (buf: Option<Bytes>)
      modifies this
      ensures var s := old(Flatten(chunks));
              if n <= |s| then buf == Some(s[..n]) && Flatten(chunks) == s[n..] else buf == None
    {
      var got: Bytes := [];
      while |got| < n && chunks != []
        invariant |got| <= n
        invariant got + Flatten(chunks) == old(Flatten(chunks))
        decreases |chunks|, n - |got|
      {
        var want := n - |got|;
        var chunk := chunks[0];
        ghost var before := chunks;
        if |chunk| <= want {
          got := got + chunk;
          chunks := chunks[1..];
        } else {
          got := got + chunk[..want];
          chunks := [chunk[want..]] + chunks[1..];
          assert chunks[1..] == before[1..];
          assert chunk[..want] + chunk[want..] == chunk;
        }
      }
      if |got| < n {
        return None;
      }
      ghost var s := old(Flatten(chunks));
      assert s[..n] == got && s[n..] == Flatten(chunks);
      return Some(got);
    }
  }

  /** One turn of the receive loop, in terms of what is left of the stream. */
  lemma DecodeStep(s: Bytes)
    ensures |s| < 4 ==> Decode(s) == Decoded([], Closed)
    ensures |s| >= 4 && !(MIN_LEN <= FromBigEndian(s[..4]) <= MAX_LEN) ==>
              Decode(s) == Decoded([], InvalidLength(FromBigEndian(s[..4])))
    ensures |s| >= 4 && MIN_LEN <= FromBigEndian(s[..4]) <= MAX_LEN ==>
              var len, body := FromBigEndian(s[..4]), s[4..];
              if |body| < len then Decode(s) == Decoded([], Closed)
              else Decode(s) == Decoded([Frame(body[..len][..32], body[..len][32..])] + Decode(body[len..]).frames,
                                        Decode(body[len..]).ending)
  {
    if |s| >= 4 && MIN_LEN <= FromBigEndian(s[..4]) <= MAX_LEN {
      var len, body := FromBigEndian(s[..4]), s[4..];
      if |body| >= len {
        assert body[..len][..32] == s[4..36] && body[..len][32..] == s[36..4 + len] && body[len..] == s[4 + len..];
      }
    }
  }

  /** The receive loop of client and relay: deliver frames until the stream ends or a length is bad. */
  method ReceiveLoop(socket: Socket) returns (frames: seq<Frame>, ending: Ending)
    modifies socket
    ensures Decoded(frames, ending) == Decode(old(Flatten(socket.chunks)))
  {
    hide Decode, Flatten;
    frames := [];
    ghost var all := Flatten(socket.chunks);
    while true
      invariant Decode(all) == Decoded(frames + Decode(Flatten(socket.chunks)).frames,
                                       Decode(Flatten(socket.chunks)).ending)
      decreases |Flatten(socket.chunks)|
    {
      DecodeStep(Flatten(socket.chunks));
      var header := socket.ReadExact(4);
      if header.None? {
        return frames, Closed;
      }
      var len := FromBigEndian(header.value);
      if !(MIN_LEN <= len <= MAX_LEN) {
        return frames, InvalidLength(len);
      }
      var body := socket.ReadExact(len);
      if body.None? {
        return frames, Closed;
      }
      frames := frames + [Frame(body.value[..32], body.value[32..])];
    }
  }

  /** The transmit loop of client and relay. */
  method TransmitLoop(fs: seq<Frame>) returns (wire: Bytes)
    ensures wire == EncodeAll(fs)
  {
    wire := [];
    for i := 0 to |fs|
      invariant wire == EncodeAll(fs[..i])
    {
      wire := wire + ToBigEndian((32 + |fs[i].payload|) % 0x1_0000_0000, 4);
      wire := wire + fs[i].key;
      wire := wire + fs[i].payload;
      assert fs[..i + 1][..i] == fs[..i];
      assert wire == EncodeAll(fs[..i]) + Encode(fs[i]);
    }
    assert fs[..|fs|] == fs;
  }

  /** However TCP splits the bytes of a sender, the receiver delivers the frames that were sent. */
  method Transfer(fs: seq<Frame>, chunks: seq<Bytes>) returns (frames: seq<Frame>)
    requires forall f | f in fs :: |f.key| == 32 && |f.payload| <= 65504
    requires Flatten(chunks) == EncodeAll(fs)
    ensures frames == fs
  {
    var socket := new Socket(chunks);
    var ending;
    frames, ending := ReceiveLoop(socket);
    StreamRoundTrip(fs);
  }
}
