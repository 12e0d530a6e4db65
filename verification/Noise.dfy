/**
 * The Noise IK handshake and its transport cipher as an ideal box.
 *
 * A wire octet is either a known byte or the i-th octet of one Noise message. Slicing,
 * concatenating and padding therefore act on real octet strings, while a message can be read
 * back only from all of its own octets in order: no other string passes for it. Whoever sees
 * octets may splice them at will, but cannot make octets of a message nobody produced.
 */
module Noise {
  import opened Wrappers
  import opened Words

  /** A static public key. */
  type Key = Bytes

  datatype Role = Initiator | Responder

  /** One end of one session; `id` is fresh at every responder completion. */
  datatype SessionKey = SessionKey(id: nat, role: Role) {
    function OtherEnd(): SessionKey {
      SessionKey(id, if role.Initiator? then Responder else Initiator)
    }
  }

  /**
   * Init: first IK message of handshake `hs`, from one static key to another.
   * Resp: the answer to handshake `hs` that opens session `id`.
   * Sealed: a transport message; only the other end of the session opens it, under this nonce.
   */
  datatype Msg =
    | Init(hs: nat, from: Key, to: Key)
    | Resp(hs: nat, id: nat)
    | Sealed(sealer: SessionKey, nonce: nat, plain: Bytes)

  datatype Octet = Known(b: u8) | Part(msg: Msg, i: nat)

  type Wire = seq<Octet>

  const INIT_LEN := 96
  const RESP_LEN := 48
  const TAG_LEN := 16

  function Size(m: Msg): nat {
    match m
    case Init(_, _, _) => INIT_LEN
    case Resp(_, _) => RESP_LEN
    case Sealed(_, _, plain) => |plain| + TAG_LEN
  }

  function Octets(m: Msg): (w: Wire)
    ensures |w| == Size(m)
  {
    seq(Size(m), i requires 0 <= i < Size(m) => Part(m, i))
  }

  function Bytewise(bytes: Bytes): (w: Wire)
    ensures |w| == |bytes|
  {
    seq(|bytes|, i requires 0 <= i < |bytes| => Known(bytes[i]))
  }

  /** The byte a plaintext field shows; an octet of some Noise message reads as 0 there. */
  function Values(w: Wire): (bytes: Bytes)
    ensures |bytes| == |w|
  {
    seq(|w|, i requires 0 <= i < |w| => if w[i].Known? then w[i].b else 0)
  }

  function Recognize(w: Wire): (m: Option<Msg>)
    ensures m.Some? ==> w == Octets(m.value)
  {
    if |w| > 0 && w[0].Part? && w == Octets(w[0].msg) then Some(w[0].msg) else None
  }

  lemma RecognizesItsOwnOctets(m: Msg)
    ensures Recognize(Octets(m)) == Some(m)
  {
    assert Octets(m)[0] == Part(m, 0);
  }

  lemma ValuesOfBytewise(bytes: Bytes)
    ensures Values(Bytewise(bytes)) == bytes
  {
  }

  function Min(a: nat, b: nat): nat {
    if a < b then a else b
  }

  /** `&payload[..n.min(payload.len())]` */
  function Cut(payload: Wire, n: nat): Wire {
    payload[..Min(n, |payload|)]
  }

  lemma CutDropsPadding(m: Msg, padding: Bytes)
    ensures Cut(Octets(m) + Bytewise(padding), Size(m)) == Octets(m)
  {
  }

  /** A responder with static key `local` reads the first message: handshake and remote static key. */
  function ReadInit(local: Key, message: Wire): Option<(nat, Key)> {
    match Recognize(message)
    case Some(Init(hs, from, to)) => if to == local then Some((hs, from)) else None
    case _ => None
  }

  /** The initiator of handshake `hs` reads the answer: the session it opens. */
  function ReadResp(hs: nat, message: Wire): Option<nat> {
    match Recognize(message)
    case Some(Resp(h, id)) => if h == hs then Some(id) else None
    case _ => None
  }

  function Open(end: SessionKey, nonce: nat, ciphertext: Wire): Option<Bytes> {
    match Recognize(ciphertext)
    case Some(Sealed(sealer, n, plain)) => if sealer == end.OtherEnd() && n == nonce then Some(plain) else None
    case _ => None
  }
}
