/** IPv4 header inspection and CIDR subnets (src/packet.rs). Addresses are their u32 values. */
module Packet {
  import opened Wrappers
  import opened Words
  import opened Bits

  type Ipv4Addr = u32

  function FromOctets(a: u8, b: u8, c: u8, d: u8): Ipv4Addr {
    ((a * 256 + b) * 256 + c) * 256 + d
  }

  predicate IsIpv4(packet: Bytes) {
    |packet| >= 20 && packet[0] / 16 == 4
  }

  /** Source and destination address. */
  function ParseIpv4Header(packet: Bytes): Option<(Ipv4Addr, Ipv4Addr)> {
    if IsIpv4(packet) then
      Some((FromOctets(packet[12], packet[13], packet[14], packet[15]),
            FromOctets(packet[16], packet[17], packet[18], packet[19])))
    else
      None
  }

  function ParseIpv4TotalLength(packet: Bytes): Option<nat> {
    if IsIpv4(packet) then Some(FromBigEndian(packet[2..4])) else None
  }

  // ------------------------------------ the header, as section 3.1 of RFC 791 lays it out

  /** The header says version 4. */
  predicate HasHeader(packet: Bytes) {
    |packet| >= 20 && 0x40 <= packet[0] <= 0x4F
  }

  /** Source Address is octets 12 to 15, Destination Address 16 to 19. */
  function Source(packet: Bytes): Ipv4Addr
    requires |packet| >= 20
  {
    FieldFits(packet[12..16]);
    FromBigEndian(packet[12..16])
  }

  function Destination(packet: Bytes): Ipv4Addr
    requires |packet| >= 20
  {
    FieldFits(packet[16..20]);
    FromBigEndian(packet[16..20])
  }

  lemma FieldFits(field: Bytes)
    requires |field| == 4
    ensures FromBigEndian(field) < 0x1_0000_0000
  {
    FromBigEndianBelow(field);
    WidthValues();
  }

  lemma FieldOctets(a: u8, b: u8, c: u8, d: u8)
    ensures FromBigEndian([a, b]) == 256 * a as nat + b as nat
    ensures FromBigEndian([a, b, c, d])
         == 0x100_0000 * a as nat + 0x1_0000 * b as nat + 256 * c as nat + d as nat
  {
    assert [a][..0] == [] && FromBigEndian([a]) == a;
    assert [a, b][..1] == [a];
    assert [a, b, c, d][..3] == [a, b, c] && [a, b, c][..2] == [a, b];
  }

  /** Total Length is octets 2 and 3. */
  function TotalLength(packet: Bytes): nat
    requires |packet| >= 20
  {
    256 * packet[2] as nat + packet[3] as nat
  }

  /** Both inspections read these fields, and nothing without such a header. */
  lemma HeaderFields(packet: Bytes)
    ensures ParseIpv4Header(packet) == if HasHeader(packet)
                                       then Some((Source(packet), Destination(packet))) else None
    ensures ParseIpv4TotalLength(packet) == if HasHeader(packet) then Some(TotalLength(packet)) else None
  {
    if |packet| >= 20 {
      FieldOctets(packet[2], packet[3], 0, 0);
      FieldOctets(packet[12], packet[13], packet[14], packet[15]);
      FieldOctets(packet[16], packet[17], packet[18], packet[19]);
      assert packet[2..4] == [packet[2], packet[3]];
      assert packet[12..16] == [packet[12], packet[13], packet[14], packet[15]];
      assert packet[16..20] == [packet[16], packet[17], packet[18], packet[19]];
    }
  }

  datatype Ipv4Subnet = Ipv4Subnet(addr: Ipv4Addr, prefixLen: u8) {
    /** `32 - prefix_len` must not underflow; every parsed subnet satisfies this. */
    predicate Valid() {
      prefixLen <= 32
    }

    predicate Contains(ip: Ipv4Addr)
      requires Valid()
    {
      prefixLen == 0
      || var mask := Shl(0xFFFF_FFFF, 32 - prefixLen, 32);
         And(addr, mask) == And(ip, mask)
    }

    /** The block of addresses the subnet denotes: `Size()` of them from `First()` on. */
    function Size(): nat
      requires Valid()
    {
      Pow2(32 - prefixLen)
    }

    function First(): nat
      requires Valid()
    {
      RoundDown(addr, Size())
    }
  }

  /** The multiple of `m` at or below `x`. */
  function RoundDown(x: nat, m: nat): (r: nat)
    requires m > 0
    ensures r == x - x % m && r <= x < r + m
  {
    assert x == x / m * m + x % m;
    x / m * m
  }

  lemma RoundDownUnique(x: nat, m: nat, q: nat)
    requires m > 0 && q * m <= x < q * m + m
    ensures RoundDown(x, m) == q * m
  {
    DivModUnique(x, m, q, x - q * m);
  }

  type Subnet = s: Ipv4Subnet | s.Valid() witness Ipv4Subnet(0, 0)

  lemma MaskIsHighBits(n: nat)
    requires n <= 32
    ensures Pow2(n) <= Pow2(32) && Shl(0xFFFF_FFFF, n, 32) == Pow2(32) - Pow2(n)
  {
    var p, w := Pow2(n), Pow2(32);
    WidthValues();
    if n < 32 {
      Pow2Monotone(n, 32);
    }
    assert 0xFFFF_FFFF * p == (p - 1) * w + (w - p);
    DivModUnique(0xFFFF_FFFF * p, w, p - 1, w - p);
  }

  lemma MaskRoundsDown(x: u32, n: nat)
    requires n <= 32
    ensures And(x, Shl(0xFFFF_FFFF, n, 32)) == RoundDown(x, Pow2(n))
  {
    WidthValues();
    MaskIsHighBits(n);
    AndHighMask(x, n, 32);
    LowIsRemainder(x, n);
  }

  /** Matching under the mask is membership in one aligned interval. */
  lemma ContainsIsInterval(s: Ipv4Subnet, ip: Ipv4Addr)
    requires s.Valid()
    ensures s.Contains(ip) <==> s.First() <= ip < s.First() + s.Size()
  {
    WidthValues();
    if s.prefixLen == 0 {
      RoundDownUnique(s.addr, s.Size(), 0);
    } else {
      MaskRoundsDown(s.addr, 32 - s.prefixLen);
      MaskRoundsDown(ip, 32 - s.prefixLen);
      SameBlock(s.addr, ip, s.Size());
    }
  }

  lemma SameBlock(a: nat, b: nat, m: nat)
    requires m > 0
    ensures RoundDown(a, m) == RoundDown(b, m) <==> RoundDown(a, m) <= b < RoundDown(a, m) + m
  {
    if RoundDown(a, m) <= b < RoundDown(a, m) + m {
      RoundDownUnique(b, m, a / m);
    }
  }

  lemma HostSubnetContainsOnlyItself(s: Ipv4Subnet, ip: Ipv4Addr)
    requires s.prefixLen == 32
    ensures s.Contains(ip) <==> ip == s.addr
  {
    ContainsIsInterval(s, ip);
    assert s.Size() == 1;
  }

  /** CIDR blocks that share an address are nested: the longer prefix lies inside the shorter. */
  lemma NestedOrDisjoint(s: Ipv4Subnet, t: Ipv4Subnet, shared: Ipv4Addr, ip: Ipv4Addr)
    requires s.Valid() && t.Valid() && s.prefixLen >= t.prefixLen
    requires s.Contains(shared) && t.Contains(shared) && s.Contains(ip)
    ensures t.Contains(ip)
  {
    ContainsIsInterval(s, shared);
    ContainsIsInterval(s, ip);
    ContainsIsInterval(t, shared);
    ContainsIsInterval(t, ip);
    IntervalsNest(s, t, shared);
  }

  lemma IntervalsNest(s: Ipv4Subnet, t: Ipv4Subnet, shared: Ipv4Addr)
    requires s.Valid() && t.Valid() && s.prefixLen >= t.prefixLen
    requires s.First() <= shared < s.First() + s.Size()
    requires t.First() <= shared < t.First() + t.Size()
    ensures t.First() <= s.First() && s.First() + s.Size() <= t.First() + t.Size()
  {
    var k := Pow2(s.prefixLen - t.prefixLen);
    Pow2Splits(s.prefixLen - t.prefixLen, 32 - s.prefixLen);
    AlignedBlocksNest(s.addr, t.addr, s.Size(), k, shared);
  }

  lemma AlignedBlocksNest(a: nat, b: nat, m: nat, k: nat, shared: nat)
    requires m > 0 && k * m > 0
    requires RoundDown(a, m) <= shared < RoundDown(a, m) + m
    requires RoundDown(b, k * m) <= shared < RoundDown(b, k * m) + k * m
    ensures RoundDown(b, k * m) <= RoundDown(a, m)
    ensures RoundDown(a, m) + m <= RoundDown(b, k * m) + k * m
  {
    var i, j := a / m, b / (k * m);
    RegroupProducts(j, k, m);
    MultiplesNest(i, m, j * k, (j + 1) * k, shared);
  }

  lemma RegroupProducts(j: nat, k: nat, m: nat)
    ensures j * (k * m) == j * k * m && (j + 1) * k * m == j * k * m + k * m
  {
  }

  lemma MultiplesNest(i: nat, m: nat, lo: nat, hi: nat, shared: nat)
    requires i * m <= shared < i * m + m
    requires lo * m <= shared < hi * m
    ensures lo * m <= i * m && i * m + m <= hi * m
  {
    if i < lo {
      MultiplesStepBy(i, lo, m);
    } else if lo < i {
      MultiplesStepBy(lo, i, m);
    }
    if i < hi {
      MultiplesStepBy(i, hi, m);
    } else if hi < i {
      MultiplesStepBy(hi, i, m);
    }
  }
}
