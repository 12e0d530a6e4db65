/** The text forms that travel between coordinator and daemon: splitting, decimal, hex, IPv4. */
module Text {
  import opened Wrappers
  import opened Words
  import opened Bits
  import opened Packet

  // --------------------------------------------------------- split and join

  /** `str::split`: one more part than there are separators. */
  function Split(s: string, sep: char): (parts: seq<string>)
    ensures |parts| >= 1
  {
    if s == "" then [""]
    else
      var rest := Split(s[1..], sep);
      if s[0] == sep then [""] + rest else [[s[0]] + rest[0]] + rest[1..]
  }

  function JoinWith(parts: seq<string>, sep: char): string
    requires |parts| >= 1
  {
    if |parts| == 1 then parts[0] else parts[0] + [sep] + JoinWith(parts[1..], sep)
  }

  lemma {:induction false} SplitAt(a: string, b: string, sep: char)
    requires sep !in a
    ensures Split(a + [sep] + b, sep) == [a] + Split(b, sep)
  {
    var s := a + [sep] + b;
    if a == "" {
      assert s[1..] == b;
    } else {
      assert s[1..] == a[1..] + [sep] + b;
      SplitAt(a[1..], b, sep);
      assert [a[0]] + a[1..] == a;
    }
  }

  lemma {:induction false} SplitNone(a: string, sep: char)
    requires sep !in a
    ensures Split(a, sep) == [a]
  {
    if a != "" {
      SplitNone(a[1..], sep);
      assert [a[0]] + a[1..] == a;
    }
  }

  lemma {:induction false} SplitUndoesJoin(parts: seq<string>, sep: char)
    requires |parts| >= 1 && forall p | p in parts :: sep !in p
    ensures Split(JoinWith(parts, sep), sep) == parts
  {
    if |parts| == 1 {
      SplitNone(parts[0], sep);
    } else {
      SplitUndoesJoin(parts[1..], sep);
      SplitAt(parts[0], JoinWith(parts[1..], sep), sep);
      assert [parts[0]] + parts[1..] == parts;
    }
  }

  /** A string with separators inside splits into more parts than it was joined from. */
  lemma {:induction false} SplitCounts(s: string, t: string, sep: char)
    ensures |Split(s + [sep] + t, sep)| == |Split(s, sep)| + |Split(t, sep)|
  {
    var u := s + [sep] + t;
    if s == "" {
      assert u[1..] == t;
    } else {
      assert u[1..] == s[1..] + [sep] + t;
      SplitCounts(s[1..], t, sep);
    }
  }

  lemma {:induction false} OnePartMeansNoSeparator(s: string, sep: char)
    ensures |Split(s, sep)| == 1 <==> sep !in s
  {
    if s != "" {
      OnePartMeansNoSeparator(s[1..], sep);
      assert sep in s <==> s[0] == sep || sep in s[1..];
    }
  }

  /** `str::trim`, by the Unicode White_Space property. */
  predicate IsWhitespace(c: char) {
    || '\U{0009}' <= c <= '\U{000D}' || c in {'\U{0020}', '\U{0085}', '\U{00A0}', '\U{1680}'}
    || '\U{2000}' <= c <= '\U{200A}' || c in {'\U{2028}', '\U{2029}', '\U{202F}', '\U{205F}', '\U{3000}'}
  }

  function Trim(s: string): string {
    if s == "" then s
    else if IsWhitespace(s[0]) then Trim(s[1..])
    else if IsWhitespace(s[|s| - 1]) then Trim(s[..|s| - 1])
    else s
  }

  predicate Blank(s: string) {
    forall c | c in s :: IsWhitespace(c)
  }

  /** Blanks on either side do not matter. */
  lemma {:induction false} TrimIgnoresBlanks(before: string, s: string, after: string)
    requires Blank(before) && Blank(after)
    ensures Trim(before + s + after) == Trim(s)
    decreases |before| + |s| + |after|
  {
    hide IsWhitespace;
    var all := before + s + after;
    if before != "" {
      assert all[0] == before[0] && before[0] in before && all[1..] == before[1..] + s + after;
      TrimIgnoresBlanks(before[1..], s, after);
    } else if after != "" {
      assert all == s + after && after[|after| - 1] in after && after[0] in after;
      if s == "" {
        assert all[1..] == "" + "" + after[1..];
        TrimIgnoresBlanks("", "", after[1..]);
      } else if IsWhitespace(s[0]) {
        assert all[1..] == "" + s[1..] + after;
        TrimIgnoresBlanks("", s[1..], after);
      } else {
        assert all[..|all| - 1] == "" + s + after[..|after| - 1];
        TrimIgnoresBlanks("", s, after[..|after| - 1]);
      }
    } else {
      assert all == s;
    }
  }

  // ---------------------------------------------------------------- decimal

  predicate IsDigit(c: char) {
    '0' <= c <= '9'
  }

  predicate AllDigits(s: string) {
    forall c | c in s :: IsDigit(c)
  }

  function Digit(d: nat): (c: char)
    requires d < 10
    ensures IsDigit(c) && DigitValue(c) == d
  {
    '0' + d as char
  }

  function DigitValue(c: char): nat
    requires IsDigit(c)
  {
    c as int - '0' as int
  }

  function Decimal(n: nat): (s: string)
    ensures AllDigits(s) && s != "" && (|s| > 1 ==> s[0] != '0')
  {
    if n < 10 then [Digit(n)] else Decimal(n / 10) + [Digit(n % 10)]
  }

  function DecimalValue(s: string): nat
    requires AllDigits(s)
  {
    if s == "" then 0 else 10 * DecimalValue(s[..|s| - 1]) + DigitValue(s[|s| - 1])
  }

  lemma {:induction false} DecimalRoundTrip(n: nat)
    ensures DecimalValue(Decimal(n)) == n
  {
    var s := Decimal(n);
    if n >= 10 {
      DecimalRoundTrip(n / 10);
      assert s[..|s| - 1] == Decimal(n / 10);
    } else {
      assert s[..0] == "";
    }
  }

  lemma {:induction false} DecimalLength(n: nat, k: nat, bound: nat)
    requires k >= 1 && bound == Pow10(k) && n < bound
    ensures |Decimal(n)| <= k
  {
    if n >= 10 {
      DecimalLength(n / 10, k - 1, Pow10(k - 1));
    }
  }

  function Pow10(k: nat): nat {
    if k == 0 then 1 else 10 * Pow10(k - 1)
  }

  /** `u8::from_str`: an optional plus sign, then digits, leading zeros allowed. */
  function ParseU8(s: string): Option<u8> {
    var digits := if s != "" && s[0] == '+' then s[1..] else s;
    if digits == "" || !AllDigits(digits) || DecimalValue(digits) > 255 then None else Some(DecimalValue(digits))
  }

  lemma ParseU8RoundTrip(n: u8)
    ensures ParseU8(Decimal(n)) == Some(n)
  {
    DecimalRoundTrip(n);
    assert Decimal(n)[0] in Decimal(n);
  }

  lemma {:induction false} LeadingZero(s: string)
    requires AllDigits(s)
    ensures AllDigits("0" + s) && DecimalValue("0" + s) == DecimalValue(s)
  {
    var t := "0" + s;
    if s == "" {
      assert t[..0] == "";
    } else {
      assert t[..|t| - 1] == "0" + s[..|s| - 1] && s[|s| - 1] in s;
      LeadingZero(s[..|s| - 1]);
    }
  }

  /** Prefix lengths may have a plus sign and leading zeros, as `u8::from_str` has it, but nothing above 255. */
  lemma PlusAndZerosAreRead(n: nat)
    ensures ParseU8("+" + Decimal(n)) == ParseU8("0" + Decimal(n)) == ParseU8(Decimal(n))
    ensures ParseU8(Decimal(n)) == if n <= 255 then Some(n) else None
    ensures ParseU8("+") == ParseU8("") == None
  {
    hide Decimal, DecimalValue;
    DecimalRoundTrip(n);
    LeadingZero(Decimal(n));
    assert Decimal(n)[0] in Decimal(n) && ("+" + Decimal(n))[1..] == Decimal(n);
  }

  // ------------------------------------------------------------------- IPv4

  /** One part of `A.B.C.D`: one to three digits without a leading zero. */
  function ParseOctet(s: string): Option<u8> {
    if s == "" || |s| > 3 || !AllDigits(s) || (|s| > 1 && s[0] == '0') || DecimalValue(s) > 255
    then None else Some(DecimalValue(s))
  }

  lemma ParseOctetRoundTrip(n: u8)
    ensures ParseOctet(Decimal(n)) == Some(n)
  {
    DecimalRoundTrip(n);
    DecimalLength(n, 3, 1000);
  }

  function ParseIpv4(s: string): Option<Ipv4Addr> {
    var parts := Split(s, '.');
    if |parts| != 4 then None
    else
      var a, b, c, d := ParseOctet(parts[0]), ParseOctet(parts[1]), ParseOctet(parts[2]), ParseOctet(parts[3]);
      if a.None? || b.None? || c.None? || d.None? then None
      else Some(FromOctets(a.value, b.value, c.value, d.value))
  }

  function Ipv4Parts(addr: Ipv4Addr): seq<string> {
    [Decimal(addr / 0x100_0000), Decimal(addr / 0x1_0000 % 256), Decimal(addr / 256 % 256), Decimal(addr % 256)]
  }

  function Ipv4Text(addr: Ipv4Addr): string {
    JoinWith(Ipv4Parts(addr), '.')
  }

  lemma {:induction false} JoinChars(parts: seq<string>, sep: char, c: char)
    requires |parts| >= 1 && c in JoinWith(parts, sep)
    ensures c == sep || exists p | p in parts :: c in p
  {
    if |parts| > 1 && c !in parts[0] && c != sep {
      JoinChars(parts[1..], sep, c);
      var p :| p in parts[1..] && c in p;
      assert p in parts;
    } else if c in parts[0] {
      assert parts[0] in parts;
    }
  }

  lemma Ipv4TextChars(addr: Ipv4Addr)
    ensures forall c | c in Ipv4Text(addr) :: IsDigit(c) || c == '.'
  {
    forall c | c in Ipv4Text(addr) ensures IsDigit(c) || c == '.' {
      JoinChars(Ipv4Parts(addr), '.', c);
    }
  }

  lemma OctetsOfAddress(addr: Ipv4Addr)
    ensures addr / 0x100_0000 < 256
    ensures FromOctets(addr / 0x100_0000, addr / 0x1_0000 % 256, addr / 256 % 256, addr % 256) == addr
  {
  }

  lemma Ipv4RoundTrip(addr: Ipv4Addr)
    ensures ParseIpv4(Ipv4Text(addr)) == Some(addr)
  {
    hide Decimal, ParseOctet, FromOctets, Split, JoinWith;
    OctetsOfAddress(addr);
    forall p | p in Ipv4Parts(addr) ensures '.' !in p {
    }
    SplitUndoesJoin(Ipv4Parts(addr), '.');
    ParseOctetRoundTrip(addr / 0x100_0000);
    ParseOctetRoundTrip(addr / 0x1_0000 % 256);
    ParseOctetRoundTrip(addr / 256 % 256);
    ParseOctetRoundTrip(addr % 256);
  }

  lemma {:induction false} JoinUndoesSplit(s: string, sep: char)
    ensures JoinWith(Split(s, sep), sep) == s
  {
    if s != "" {
      var rest := Split(s[1..], sep);
      JoinUndoesSplit(s[1..], sep);
      assert [s[0]] + s[1..] == s;
      if s[0] == sep {
        assert ([""] + rest)[1..] == rest;
      } else {
        var parts := [[s[0]] + rest[0]] + rest[1..];
        assert parts[1..] == rest[1..];
      }
    }
  }

  /** Digits without a leading zero are the text of their value. */
  lemma {:induction false} DecimalOfValue(s: string)
    requires s != "" && AllDigits(s) && (|s| > 1 ==> s[0] != '0')
    ensures Decimal(DecimalValue(s)) == s
  {
    var init, last := s[..|s| - 1], s[|s| - 1];
    assert last in s && [Digit(DigitValue(last))] == [last];
    if |s| > 1 {
      assert init[0] == s[0] && init[0] in init;
      LeadingDigitCounts(init);
      DecimalOfValue(init);
      assert DecimalValue(s) / 10 == DecimalValue(init) && DecimalValue(s) % 10 == DigitValue(last);
      assert s == init + [last];
    } else {
      assert DecimalValue(init) == 0 && s == [last];
    }
  }

  lemma {:induction false} LeadingDigitCounts(s: string)
    requires s != "" && AllDigits(s) && s[0] != '0'
    ensures DecimalValue(s) > 0
  {
    if |s| > 1 {
      assert s[..|s| - 1][0] == s[0];
      LeadingDigitCounts(s[..|s| - 1]);
    } else {
      assert s[0] in s;
    }
  }

  /** The only text that reads as an address is its own. */
  lemma Ipv4TextIsUnique(s: string)
    requires ParseIpv4(s).Some?
    ensures s == Ipv4Text(ParseIpv4(s).value)
  {
    hide Decimal, DecimalValue, Split, JoinWith;
    var parts := Split(s, '.');
    var a, b, c, d := ParseOctet(parts[0]).value, ParseOctet(parts[1]).value, ParseOctet(parts[2]).value,
                      ParseOctet(parts[3]).value;
    forall i | 0 <= i < 4 ensures Decimal(ParseOctet(parts[i]).value) == parts[i] {
      DecimalOfValue(parts[i]);
    }
    AddressOfOctets(a, b, c, d);
    assert Ipv4Parts(ParseIpv4(s).value) == parts;
    JoinUndoesSplit(s, '.');
  }

  lemma AddressOfOctets(a: u8, b: u8, c: u8, d: u8)
    ensures var addr := FromOctets(a, b, c, d);
            addr / 0x100_0000 == a && addr / 0x1_0000 % 256 == b && addr / 256 % 256 == c && addr % 256 == d
  {
    var addr := FromOctets(a, b, c, d);
    var ab: nat := a as nat * 256 + b;
    var abc: nat := ab * 256 + c;
    DivModUnique(addr, 256, abc, d);
    DivModUnique(abc, 256, ab, c);
    DivModUnique(ab, 256, a, b);
    DivModUnique(addr, 0x1_0000, ab, c as nat * 256 + d);
    DivModUnique(addr, 0x100_0000, a, (b as nat * 256 + c) * 256 + d);
  }

  // ---------------------------------------------------------------- subnets

  /** `Ipv4Subnet::from_str` */
  function ParseSubnet(s: string): Option<Subnet> {
    var parts := Split(s, '/');
    if |parts| > 2 then None
    else
      var addr := ParseIpv4(parts[0]);
      if addr.None? then None
      else if |parts| == 1 then Some(Ipv4Subnet(addr.value, 32))
      else
        var len := ParseU8(parts[1]);
        if len.None? || len.value > 32 then None else Some(Ipv4Subnet(addr.value, len.value))
  }

  function SubnetText(s: Subnet): string {
    Ipv4Text(s.addr) + "/" + Decimal(s.prefixLen)
  }

  lemma SubnetTextChars(s: Subnet)
    ensures forall c | c in SubnetText(s) :: IsDigit(c) || c in {'.', '/'}
    ensures SubnetText(s) != ""
  {
    Ipv4TextChars(s.addr);
  }

  lemma SubnetRoundTrip(s: Subnet)
    ensures ParseSubnet(SubnetText(s)) == Some(s)
  {
    Ipv4TextChars(s.addr);
    SplitAt(Ipv4Text(s.addr), Decimal(s.prefixLen), '/');
    SplitNone(Decimal(s.prefixLen), '/');
    Ipv4RoundTrip(s.addr);
    ParseU8RoundTrip(s.prefixLen);
  }

  /** A prefix above 32 is refused. */
  lemma LongPrefixIsRefused(addr: Ipv4Addr, n: nat)
    requires n > 32
    ensures ParseSubnet(Ipv4Text(addr) + "/" + Decimal(n)) == None
  {
    hide Decimal, Ipv4Text, Split;
    Ipv4TextChars(addr);
    SplitAt(Ipv4Text(addr), Decimal(n), '/');
    SplitNone(Decimal(n), '/');
    DecimalRoundTrip(n);
    assert Decimal(n)[0] in Decimal(n);
  }

  /** A bare address is the /32 of that host: what the coordinator hands out. */
  lemma HostRoundTrip(addr: Ipv4Addr)
    ensures ParseSubnet(Ipv4Text(addr)) == Some(Ipv4Subnet(addr, 32))
  {
    Ipv4TextChars(addr);
    SplitNone(Ipv4Text(addr), '/');
    Ipv4RoundTrip(addr);
  }

  // -------------------------------------------------------------------- hex

  function HexValue(c: char): Option<nat> {
    if '0' <= c <= '9' then Some(c as int - '0' as int)
    else if 'a' <= c <= 'f' then Some(c as int - 'a' as int + 10)
    else if 'A' <= c <= 'F' then Some(c as int - 'A' as int + 10)
    else None
  }

  function HexChar(d: nat): (c: char)
    requires d < 16
    ensures HexValue(c) == Some(d) && (IsDigit(c) || 'a' <= c <= 'f')
  {
    if d < 10 then '0' + d as char else 'a' + (d - 10) as char
  }

  function HexEncode(bytes: Bytes): string {
    if bytes == [] then "" else [HexChar(bytes[0] / 16), HexChar(bytes[0] % 16)] + HexEncode(bytes[1..])
  }

  /** `hex::decode` */
  function HexDecode(s: string): Option<Bytes> {
    if s == "" then Some([])
    else if |s| == 1 then None
    else
      var hi, lo, rest := HexValue(s[0]), HexValue(s[1]), HexDecode(s[2..]);
      if hi.None? || lo.None? || rest.None? then None
      else Some([hi.value * 16 + lo.value] + rest.value)
  }

  lemma {:induction false} HexRoundTrip(bytes: Bytes)
    ensures HexDecode(HexEncode(bytes)) == Some(bytes)
    ensures forall c | c in HexEncode(bytes) :: IsDigit(c) || 'a' <= c <= 'f'
  {
    if bytes != [] {
      HexRoundTrip(bytes[1..]);
      var s := HexEncode(bytes);
      assert s[2..] == HexEncode(bytes[1..]);
      assert [bytes[0]] + bytes[1..] == bytes;
    }
  }

  /** Hex text has an even number of hex digits, in either case, and spells one byte per pair. */
  lemma {:induction false} HexDecodesIff(s: string)
    ensures HexDecode(s).Some? <==> |s| % 2 == 0 && forall c | c in s :: HexValue(c).Some?
    ensures HexDecode(s).Some? ==>
              && |HexDecode(s).value| == |s| / 2
              && forall i | 0 <= i < |s| / 2 :: Some(HexDecode(s).value[i] as nat / 16) == HexValue(s[2 * i])
                                                && Some(HexDecode(s).value[i] as nat % 16) == HexValue(s[2 * i + 1])
  {
    if |s| >= 2 {
      HexDecodesIff(s[2..]);
      forall c ensures c in s <==> c == s[0] || c == s[1] || c in s[2..] {
        assert s == [s[0], s[1]] + s[2..];
      }
      if HexDecode(s).Some? {
        forall i | 0 <= i < |s| / 2
          ensures Some(HexDecode(s).value[i] as nat / 16) == HexValue(s[2 * i])
                  && Some(HexDecode(s).value[i] as nat % 16) == HexValue(s[2 * i + 1])
        {
          if i > 0 {
            assert s[2..][2 * (i - 1)] == s[2 * i] && s[2..][2 * (i - 1) + 1] == s[2 * i + 1];
            assert HexDecode(s).value[i] == HexDecode(s[2..]).value[i - 1];
          }
        }
      }
    }
  }
}
