module Wrappers {

  datatype Option<+T> = None | Some(value: T)

  datatype Result<+T, +E> = Ok(value: T) | Err(error: E)
}

/** Fixed-width integers and the big-endian encodings the wire formats use. */
module Words {
  import opened Bits

  type u8 = x: nat | x < 0x100
  type u32 = x: nat | x < 0x1_0000_0000
  type u64 = x: nat | x < 0x1_0000_0000_0000_0000

  type Bytes = seq<u8>

  /** The low `k` bytes of `n`, most significant first. */
  function ToBigEndian(n: nat, k: nat): (r: Bytes)
    ensures |r| == k
  {
    if k == 0 then [] else ToBigEndian(n / 256, k - 1) + [n % 256]
  }

  function FromBigEndian(s: Bytes): nat {
    if s == [] then 0 else 256 * FromBigEndian(s[..|s| - 1]) + s[|s| - 1]
  }

  lemma OneMoreByte(k: nat)
    requires k > 0
    ensures Pow2(8 * k) == 256 * Pow2(8 * (k - 1))
  {
    assert Pow2(8) == 256;
    Pow2Splits(8, 8 * (k - 1));
    assert 8 + 8 * (k - 1) == 8 * k;
  }

  lemma {:induction false} BigEndianRoundTrip(n: nat, k: nat)
    requires n < Pow2(8 * k)
    ensures FromBigEndian(ToBigEndian(n, k)) == n
  {
    if k > 0 {
      OneMoreByte(k);
      BigEndianRoundTrip(n / 256, k - 1);
      assert ToBigEndian(n, k)[..k - 1] == ToBigEndian(n / 256, k - 1);
    }
  }

  lemma {:induction false} FromBigEndianBelow(s: Bytes)
    ensures FromBigEndian(s) < Pow2(8 * |s|)
  {
    if s != [] {
      FromBigEndianBelow(s[..|s| - 1]);
      OneMoreByte(|s|);
    }
  }

  lemma WidthValues()
    ensures Pow2(0) == 1 && Pow2(8) == 0x100
    ensures Pow2(16) == 0x1_0000
    ensures Pow2(32) == 0x1_0000_0000
    ensures Pow2(64) == 0x1_0000_0000_0000_0000
  {
    assert Pow2(4) == 16;
    Pow2Splits(4, 4);
    Pow2Splits(8, 8);
    Pow2Splits(16, 16);
    Pow2Splits(32, 32);
  }
}
