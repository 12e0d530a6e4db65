/** Peer descriptions as `pubkey;[endpoint];allowed_ip` strings (src/types.rs, src/config.rs). */
module Spec {
  import opened Wrappers
  import opened Packet
  import opened PeerModel
  import opened DaemonModel
  import opened Text

  /** How socket addresses are read and written. */
  datatype AddrSyntax = AddrSyntax(parse: string -> Option<Endpoint>, show: Endpoint -> string) {
    /** Printing gives non-empty text without semicolons that reads back. */
    ghost predicate Sound() {
      forall e :: parse(show(e)) == Some(e) && show(e) != "" && ';' !in show(e)
    }
  }

  /** A description as the coordinator advertises it; nothing is checked yet. */
  datatype PeerDescriptor = PeerDescriptor(publicKey: string, allowedIp: string, endpoint: Option<string>)

  datatype SpecError = WrongFieldCount | BadHex | WrongKeyLength | BadEndpoint | BadAllowedIp

  function EndpointField(d: PeerDescriptor): string {
    match d.endpoint
    case Some(text) => text
    case None => ""
  }

  /** `PeerDescriptor::to_spec` */
  function ToSpec(d: PeerDescriptor): string {
    d.publicKey + ";" + EndpointField(d) + ";" + d.allowedIp
  }

  /** Every part must parse; the first failure fails the list. */
  function ParseSubnets(parts: seq<string>): Option<seq<Subnet>> {
    if parts == [] then Some([])
    else
      var first, rest := ParseSubnet(Trim(parts[0])), ParseSubnets(parts[1..]);
      if first.None? || rest.None? then None else Some([first.value] + rest.value)
  }

  function ParseAllowedIps(field: string): Option<seq<Subnet>> {
    ParseSubnets(Split(field, ','))
  }

  function ParseEndpoint(ax: AddrSyntax, field: string): Result<Option<Endpoint>, SpecError> {
    if field == "" then Ok(None)
    else match ax.parse(field)
         case Some(e) => Ok(Some(e))
         case None => Err(BadEndpoint)
  }

  function ParseFields(ax: AddrSyntax, key: string, endpoint: string, allowed: string): Result<ParsedPeer, SpecError> {
    var pubkey := HexDecode(key);
    if pubkey.None? then Err(BadHex)
    else if |pubkey.value| != 32 then Err(WrongKeyLength)
    else match ParseEndpoint(ax, endpoint)
         case Err(e) => Err(e)
         case Ok(ep) =>
           var ips := ParseAllowedIps(allowed);
           if ips.None? then Err(BadAllowedIp) else Ok(ParsedPeer(pubkey.value, ep, ips.value))
  }

  /** `parse_peer_arg` */
  function ParsePeerArg(ax: AddrSyntax, s: string): Result<ParsedPeer, SpecError> {
    var parts := Split(s, ';');
    if |parts| != 3 then Err(WrongFieldCount) else ParseFields(ax, parts[0], parts[1], parts[2])
  }

  /** `sync_peers` skips the descriptions that do not parse. */
  function ParseAll(ax: AddrSyntax, ds: seq<PeerDescriptor>): seq<ParsedPeer> {
    if ds == [] then []
    else
      var init, last := ParseAll(ax, ds[..|ds| - 1]), ParsePeerArg(ax, ToSpec(ds[|ds| - 1]));
      if last.Ok? then init + [last.value] else init
  }

  // --------------------------------------------------------------- rendering

  function SubnetTexts(subnets: seq<Subnet>): (texts: seq<string>)
    ensures |texts| == |subnets|
  {
    if subnets == [] then [] else [SubnetText(subnets[0])] + SubnetTexts(subnets[1..])
  }

  /** The spec string an operator would write for a peer. */
  function Render(ax: AddrSyntax, p: ParsedPeer): string
    requires |p.allowedIps| >= 1
  {
    HexEncode(p.pubkey) + ";" + (if p.endpoint.Some? then ax.show(p.endpoint.value) else "") + ";"
    + JoinWith(SubnetTexts(p.allowedIps), ',')
  }

  lemma {:induction false} SubnetTextsChars(subnets: seq<Subnet>)
    ensures forall t, c | t in SubnetTexts(subnets) && c in t :: IsDigit(c) || c in {'.', '/'}
    ensures forall t | t in SubnetTexts(subnets) :: Trim(t) == t
  {
    hide SubnetText;
    if subnets != [] {
      SubnetTextChars(subnets[0]);
      TrimPlain(SubnetText(subnets[0]));
      SubnetTextsChars(subnets[1..]);
    }
  }

  lemma TrimPlain(s: string)
    requires s != "" && forall c | c in s :: IsDigit(c) || c in {'.', '/'}
    ensures Trim(s) == s
  {
    assert s[0] in s && s[|s| - 1] in s;
  }

  lemma {:induction false} ParseSubnetsRoundTrip(subnets: seq<Subnet>)
    ensures ParseSubnets(SubnetTexts(subnets)) == Some(subnets)
  {
    hide SubnetText, ParseSubnet, Trim;
    if subnets != [] {
      SubnetTextsChars(subnets);
      assert SubnetTexts(subnets)[0] in SubnetTexts(subnets);
      SubnetRoundTrip(subnets[0]);
      ParseSubnetsRoundTrip(subnets[1..]);
      assert [subnets[0]] + subnets[1..] == subnets;
    }
  }

  lemma ThreeFields(a: string, b: string, c: string)
    requires ';' !in a && ';' !in b && ';' !in c
    ensures Split(a + ";" + b + ";" + c, ';') == [a, b, c]
  {
    hide Split;
    assert a + ";" + b + ";" + c == a + [';'] + (b + [';'] + c);
    SplitAt(a, b + [';'] + c, ';');
    SplitAt(b, c, ';');
    SplitNone(c, ';');
  }

  /** Every key, endpoint and non-empty subnet list reads back from its spec string unchanged. */
  lemma SpecRoundTrip(ax: AddrSyntax, p: ParsedPeer)
    requires ax.Sound() && |p.pubkey| == 32 && |p.allowedIps| >= 1
    ensures ParsePeerArg(ax, Render(ax, p)) == Ok(p)
  {
    hide HexEncode, HexDecode, SubnetTexts, JoinWith, Split, ParseSubnets;
    var key := HexEncode(p.pubkey);
    var endpoint := if p.endpoint.Some? then ax.show(p.endpoint.value) else "";
    var texts := SubnetTexts(p.allowedIps);
    HexRoundTrip(p.pubkey);
    SubnetTextsChars(p.allowedIps);
    if ';' in JoinWith(texts, ',') {
      JoinChars(texts, ',', ';');
    }
    ThreeFields(key, endpoint, JoinWith(texts, ','));
    SplitUndoesJoin(texts, ',');
    ParseSubnetsRoundTrip(p.allowedIps);
  }

  /** A descriptor parses exactly when no field smuggles in a semicolon and each field is valid alone. */
  lemma SpecParsesFieldByField(ax: AddrSyntax, d: PeerDescriptor)
    ensures ParsePeerArg(ax, ToSpec(d)) ==
            if ';' in d.publicKey || ';' in EndpointField(d) || ';' in d.allowedIp then Err(WrongFieldCount)
            else ParseFields(ax, d.publicKey, EndpointField(d), d.allowedIp)
  {
    hide Split, ParseFields;
    var a, b, c := d.publicKey, EndpointField(d), d.allowedIp;
    if ';' !in a && ';' !in b && ';' !in c {
      ThreeFields(a, b, c);
    } else {
      assert ToSpec(d) == a + [';'] + (b + [';'] + c);
      SplitCounts(a, b + [';'] + c, ';');
      SplitCounts(b, c, ';');
      OnePartMeansNoSeparator(a, ';');
      OnePartMeansNoSeparator(b, ';');
      OnePartMeansNoSeparator(c, ';');
    }
  }

  predicate Parses(ax: AddrSyntax, d: PeerDescriptor) {
    ParsePeerArg(ax, ToSpec(d)).Ok?
  }

  /** What is parsed from a list stands in its order: the places are those of the descriptions that parse. */
  lemma {:induction false} ParsedPlaces(ax: AddrSyntax, ds: seq<PeerDescriptor>) returns (at: seq<nat>)
    ensures |at| == |ParseAll(ax, ds)|
    ensures forall k | 0 <= k < |at| ::
              at[k] < |ds| && ParsePeerArg(ax, ToSpec(ds[at[k]])) == Ok(ParseAll(ax, ds)[k])
    ensures forall k, l | 0 <= k < l < |at| :: at[k] < at[l]
    ensures forall i | 0 <= i < |ds| :: i in at <==> Parses(ax, ds[i])
  {
    hide ParsePeerArg, ToSpec;
    at := [];
    if ds != [] {
      var n := |ds| - 1;
      at := ParsedPlaces(ax, ds[..n]);
      if Parses(ax, ds[n]) {
        at := at + [n];
      }
    }
  }

  /** The key of a description that parses is what its hex digits, in either case, spell. */
  lemma ParsedKey(ax: AddrSyntax, d: PeerDescriptor)
    requires Parses(ax, d)
    ensures HexDecode(d.publicKey) == Some(ParsePeerArg(ax, ToSpec(d)).value.pubkey)
    ensures ParseAllowedIps(d.allowedIp) == Some(ParsePeerArg(ax, ToSpec(d)).value.allowedIps)
  {
    hide ParsePeerArg, ToSpec, HexDecode, ParseAllowedIps;
    SpecParsesFieldByField(ax, d);
  }

  // ---------------------------------------------------------------- refusals

  /** Every part of the address list, freed of blanks, is a subnet. */
  predicate PartsParse(allowed: string) {
    forall part | part in Split(allowed, ',') :: ParseSubnet(Trim(part)).Some?
  }

  lemma {:induction false} SubnetsParseIff(parts: seq<string>)
    ensures ParseSubnets(parts).Some? <==> forall part | part in parts :: ParseSubnet(Trim(part)).Some?
    ensures ParseSubnets(parts).Some? ==>
              && |ParseSubnets(parts).value| == |parts|
              && forall i | 0 <= i < |parts| :: ParseSubnet(Trim(parts[i])) == Some(ParseSubnets(parts).value[i])
  {
    hide ParseSubnet, Trim;
    if parts != [] {
      SubnetsParseIff(parts[1..]);
      assert parts[0] in parts;
      forall part | part in parts[1..] ensures part in parts {
        assert parts == [parts[0]] + parts[1..];
      }
      forall part | part in parts ensures part == parts[0] || part in parts[1..] {
        assert parts == [parts[0]] + parts[1..];
      }
    }
  }

  /**
   * When a description is refused, and why: the first of its faults, in this order. Otherwise its parts
   * are read one by one.
   */
  lemma DescriptionIsReadOrRefused(ax: AddrSyntax, d: PeerDescriptor)
    requires ';' !in d.publicKey && ';' !in EndpointField(d) && ';' !in d.allowedIp
    ensures var r, key, endpoint := ParsePeerArg(ax, ToSpec(d)), HexDecode(d.publicKey), EndpointField(d);
            if key.None? then r == Err(BadHex)
            else if |key.value| != 32 then r == Err(WrongKeyLength)
            else if endpoint != "" && ax.parse(endpoint).None? then r == Err(BadEndpoint)
            else if !PartsParse(d.allowedIp) then r == Err(BadAllowedIp)
            else
              && r.Ok? && r.value.pubkey == key.value
              && r.value.endpoint == (if endpoint == "" then None else ax.parse(endpoint))
              && |r.value.allowedIps| == |Split(d.allowedIp, ',')|
              && forall i | 0 <= i < |r.value.allowedIps| ::
                   ParseSubnet(Trim(Split(d.allowedIp, ',')[i])) == Some(r.value.allowedIps[i])
  {
    hide ParsePeerArg, ToSpec, HexDecode, ParseSubnets, ParseSubnet, Trim, Split;
    SpecParsesFieldByField(ax, d);
    SubnetsParseIff(Split(d.allowedIp, ','));
  }

  /** The part with blanks around it. */
  ghost predicate Padded(part: string, padded: string) {
    exists before, after :: Blank(before) && Blank(after) && padded == before + part + after
  }

  /** Blanks around the parts of an address list do not matter. */
  lemma BlanksDoNotMatter(parts: seq<string>, padded: seq<string>)
    requires |parts| == |padded| >= 1
    requires forall i | 0 <= i < |parts| :: ',' !in parts[i] && ',' !in padded[i] && Padded(parts[i], padded[i])
    ensures ParseAllowedIps(JoinWith(padded, ',')) == ParseAllowedIps(JoinWith(parts, ','))
  {
    hide ParseSubnets, Split, JoinWith, Padded;
    SplitUndoesJoin(parts, ',');
    SplitUndoesJoin(padded, ',');
    SamePartsParse(parts, padded);
  }

  lemma {:induction false} SamePartsParse(parts: seq<string>, padded: seq<string>)
    requires |parts| == |padded| && forall i | 0 <= i < |parts| :: Padded(parts[i], padded[i])
    ensures ParseSubnets(padded) == ParseSubnets(parts)
  {
    hide ParseSubnet, Trim;
    if parts != [] {
      var before, after :| Blank(before) && Blank(after) && padded[0] == before + parts[0] + after;
      TrimIgnoresBlanks(before, parts[0], after);
      SamePartsParse(parts[1..], padded[1..]);
    }
  }
}
