/** The PROXY protocol v2 header (src/protocol/proxy_protocol.go) and the server side that reads it back
    and injects it again upstream (src/agent/server.go). */
module ProxyProtocol {
  import opened Common
  import opened ByteStreams

  const MIN_HEADER_LEN := 16
  const HEADER_LEN_IPV4 := 28
  const HEADER_LEN_IPV6 := 52

  const SIGNATURE: seq<Byte> := [0x0D, 0x0A, 0x0D, 0x0A, 0x00, 0x0D, 0x0A, 0x51, 0x55, 0x49, 0x54, 0x0A]

  const V4_PREFIX: seq<Byte> := [0, 0, 0, 0, 0, 0, 0, 0, 0, 0, 0xFF, 0xFF]
  const ZERO4: seq<Byte> := [0, 0, 0, 0]
  const ZERO16: seq<Byte> := ZERO4 + ZERO4 + ZERO4 + ZERO4

  /** An address is 4 or 16 bytes; any other length is no address. */
  type IP = seq<Byte>

  /** The 4-byte form, or the empty sequence when there is none. */
  function To4(ip: IP): IP {
    if |ip| == 4 then ip
    else if |ip| == 16 && ip[..12] == V4_PREFIX then ip[12..]
    else []
  }

  /** The 16-byte form, or the empty sequence when there is none. */
  function To16(ip: IP): IP {
    if |ip| == 4 then V4_PREFIX + ip
    else if |ip| == 16 then ip
    else []
  }

  /** Address equality: an IPv4 address and its v4-mapped form are the same address. */
  predicate IpEqual(a: IP, b: IP) {
    if |a| == |b| then a == b
    else if |a| == 4 && |b| == 16 then b[..12] == V4_PREFIX && a == b[12..]
    else if |a| == 16 && |b| == 4 then a[..12] == V4_PREFIX && b == a[12..]
    else false
  }

  predicate IsAddress(ip: IP) {
    |ip| == 4 || |ip| == 16
  }

  /** An empty destination takes the address family of the source. */
  function FillDestination(src: IP, dst: IP): IP {
    if |dst| > 0 then dst
    else if To4(src) != [] then V4_PREFIX + ZERO4
    else ZERO16
  }

  predicate FitsIPv4(src: IP, dst: IP) {
    To4(src) != [] && To4(FillDestination(src, dst)) != []
  }

  function Or16(ip: IP): IP {
    if To16(ip) == [] then ZERO16 else To16(ip)
  }

  /** The layout of section 2.2 of "The PROXY protocol": signature, version 2 with command PROXY, family,
      length of what follows, both addresses, both ports. */
  function Layout(family: Byte, a: seq<Byte>, b: seq<Byte>, srcPort: nat, dstPort: nat): seq<Byte>
    requires |a| == |b| <= 16 && srcPort < U16_LIMIT && dstPort < U16_LIMIT
  {
    (SIGNATURE + [0x21, family] + Be16(2 * |a| + 4)) + (a + b + Be16(srcPort) + Be16(dstPort))
  }

  function HeaderBytes(src: IP, srcPort: nat, dst: IP, dstPort: nat): seq<Byte>
    requires srcPort < U16_LIMIT && dstPort < U16_LIMIT
  {
    var d := FillDestination(src, dst);
    if FitsIPv4(src, dst) then
      Layout(0x11, To4(src), To4(d), srcPort, dstPort)
    else
      Layout(0x21, Or16(src), Or16(d), srcPort, dstPort)
  }

  method CopyAt(buf: array<Byte>, at: nat, data: seq<Byte>)
    requires at + |data| <= buf.Length
    modifies buf
    ensures buf[..at + |data|] == old(buf[..at]) + data
    ensures buf[at + |data|..] == old(buf[at + |data|..])
  {
    for i := 0 to |data|
      invariant forall k :: 0 <= k < at ==> buf[k] == old(buf[k])
      invariant forall k :: 0 <= k < i ==> buf[at + k] == data[k]
      invariant forall k :: at + i <= k < buf.Length ==> buf[k] == old(buf[k])
    {
      buf[at + i] := data[i];
    }
  }

  /** The 16 bytes common to both families. */
  method FillFixed(buf: array<Byte>, family: Byte, addrLen: nat)
    requires buf.Length >= 16 && addrLen < U16_LIMIT
    modifies buf
    ensures buf[..16] == SIGNATURE + [0x21, family] + Be16(addrLen)
  {
    CopyAt(buf, 0, SIGNATURE);
    assert buf[..12] == SIGNATURE;
    buf[12], buf[13] := 0x21, family;
    assert buf[..14] == SIGNATURE + [0x21, family];
    CopyAt(buf, 14, Be16(addrLen));
  }

  /** Two addresses of equal length, then both ports. */
  method FillHeader(buf: array<Byte>, family: Byte, a: seq<Byte>, b: seq<Byte>, srcPort: nat, dstPort: nat)
    requires |a| == |b| <= 16 && buf.Length == 20 + 2 * |a|
    requires srcPort < U16_LIMIT && dstPort < U16_LIMIT
    modifies buf
    ensures buf[..] == Layout(family, a, b, srcPort, dstPort)
  {
    var n := |a|;
    FillFixed(buf, family, 2 * n + 4);
    ghost var fixed := buf[..16];
    CopyAt(buf, 16, a);
    assert buf[..16 + n] == fixed + a;
    CopyAt(buf, 16 + n, b);
    assert buf[..16 + 2 * n] == fixed + a + b;
    CopyAt(buf, 16 + 2 * n, Be16(srcPort));
    assert buf[..18 + 2 * n] == fixed + a + b + Be16(srcPort);
    CopyAt(buf, 18 + 2 * n, Be16(dstPort));
    assert buf[..] == buf[..20 + 2 * n];
    Regroup(fixed, a, b, Be16(srcPort), Be16(dstPort));
  }

  lemma Regroup(a: seq<Byte>, b: seq<Byte>, c: seq<Byte>, d: seq<Byte>, e: seq<Byte>)
    ensures a + b + c + d + e == a + (b + c + d + e)
  {
  }

  method BuildPPv2Header(srcIP: IP, srcPort: nat, dstIP: IP, dstPort: nat) returns (hdr: seq<Byte>)
    requires srcPort < U16_LIMIT && dstPort < U16_LIMIT
    ensures hdr == HeaderBytes(srcIP, srcPort, dstIP, dstPort)
  {
    var src4 := To4(srcIP);
    var dst := dstIP;
    if |dst| == 0 {
      dst := if src4 != [] then V4_PREFIX + ZERO4 else ZERO16;
    }
    var dst4 := To4(dst);
    if src4 != [] && dst4 != [] {
      var buf := new Byte[HEADER_LEN_IPV4];
      FillHeader(buf, 0x11, src4, dst4, srcPort, dstPort);
      return buf[..];
    }
    var buf := new Byte[HEADER_LEN_IPV6];
    FillHeader(buf, 0x21, Or16(srcIP), Or16(dst), srcPort, dstPort);
    hdr := buf[..];
  }

  datatype ParseResult =
    | Parsed(ip: IP, port: nat)
    | HeaderTooShort
    | SignatureMismatch(at: nat)
    | CommandUnsupported
    | LengthMismatch
    | FamilyUnsupported

  /** Where the signature first differs; 12 when it matches. */
  function SignatureMatch(hdr: seq<Byte>, from: nat): (at: nat)
    requires |hdr| >= 12 && from <= 12
    ensures from <= at <= 12
    ensures at < 12 ==> hdr[at] != SIGNATURE[at]
    ensures forall k :: from <= k < at ==> hdr[k] == SIGNATURE[k]
    decreases 12 - from
  {
    if from == 12 || hdr[from] != SIGNATURE[from] then from else SignatureMatch(hdr, from + 1)
  }

  function ParseHeader(hdr: seq<Byte>): ParseResult {
    if |hdr| < MIN_HEADER_LEN then HeaderTooShort
    else if SignatureMatch(hdr, 0) < 12 then SignatureMismatch(SignatureMatch(hdr, 0))
    else if hdr[12] != 0x21 then CommandUnsupported
    else if hdr[13] == 0x11 then
      if Decode16(hdr[14..16]) != 12 then LengthMismatch
      else if |hdr| < HEADER_LEN_IPV4 then HeaderTooShort
      else Parsed(hdr[16..20], Decode16(hdr[24..26]))
    else if hdr[13] == 0x21 then
      if Decode16(hdr[14..16]) != 36 then LengthMismatch
      else if |hdr| < HEADER_LEN_IPV6 then HeaderTooShort
      else Parsed(hdr[16..32], Decode16(hdr[48..50]))
    else FamilyUnsupported
  }

  method ParsePPv2Header(hdr: seq<Byte>) returns (r: ParseResult)
    ensures r == ParseHeader(hdr)
  {
    if |hdr| < MIN_HEADER_LEN {
      return HeaderTooShort;
    }
    for i := 0 to 12
      invariant SignatureMatch(hdr, 0) == SignatureMatch(hdr, i)
    {
      if hdr[i] != SIGNATURE[i] {
        return SignatureMismatch(i);
      }
    }
    if hdr[12] != 0x21 {
      return CommandUnsupported;
    }
    var addrLen := Decode16(hdr[14..16]);
    if hdr[13] == 0x11 {
      if addrLen != 12 {
        return LengthMismatch;
      }
      if |hdr| < HEADER_LEN_IPV4 {
        return HeaderTooShort;
      }
      return Parsed(hdr[16..20], Decode16(hdr[24..26]));
    }
    if hdr[13] == 0x21 {
      if addrLen != 36 {
        return LengthMismatch;
      }
      if |hdr| < HEADER_LEN_IPV6 {
        return HeaderTooShort;
      }
      return Parsed(hdr[16..32], Decode16(hdr[48..50]));
    }
    r := FamilyUnsupported;
  }

  /** The header the server takes off the stream: the fixed part, then as many bytes as its length field
      says. None when the stream ends first. */
  function TakeHeader(s: seq<Byte>): Option<seq<Byte>> {
    if |s| < MIN_HEADER_LEN then None
    else
      var total := MIN_HEADER_LEN + Decode16(s[14..16]);
      if |s| < total then None else Some(s[..total])
  }

  /** The part of the connection handler that reads the header. */
  method ReadProxyHeader(conn: Conn) returns (r: Option<ParseResult>)
    modifies conn`chunks
    ensures match TakeHeader(old(conn.Incoming()))
            case None => r == None
            case Some(h) => r == Some(ParseHeader(h)) && old(conn.Incoming()) == h + conn.Incoming()
  {
    ghost var s := conn.Incoming();
    var ok, hdr := conn.ReadFull(MIN_HEADER_LEN);
    if !ok {
      return None;
    }
    assert hdr[14..16] == s[14..16];
    var addrLen := Decode16(hdr[14..16]);
    if addrLen > 0 {
      var tail;
      ok, tail := conn.ReadFull(addrLen);
      if !ok {
        return None;
      }
      hdr := hdr + tail;
      assert s == hdr + conn.Incoming();
    }
    assert hdr == s[..MIN_HEADER_LEN + addrLen];
    var p := ParsePPv2Header(hdr);
    r := Some(p);
  }

  lemma LayoutFields(family: Byte, a: seq<Byte>, b: seq<Byte>, srcPort: nat, dstPort: nat)
    requires |a| == |b| <= 16 && srcPort < U16_LIMIT && dstPort < U16_LIMIT
    ensures var h := Layout(family, a, b, srcPort, dstPort); var n := |a|;
            && |h| == 20 + 2 * n
            && h[..12] == SIGNATURE && h[12] == 0x21 && h[13] == family
            && Decode16(h[14..16]) == 2 * n + 4
            && h[16..16 + n] == a && h[16 + n..16 + 2 * n] == b
            && Decode16(h[16 + 2 * n..18 + 2 * n]) == srcPort
            && Decode16(h[18 + 2 * n..]) == dstPort
  {
    var h := Layout(family, a, b, srcPort, dstPort);
    var n := |a|;
    var fixed := SIGNATURE + [0x21, family] + Be16(2 * n + 4);
    var tail := a + b + Be16(srcPort) + Be16(dstPort);
    assert fixed[14..16] == Be16(2 * n + 4);
    assert h[..16] == fixed && h[16..] == tail;
    assert h[14..16] == fixed[14..16];
    assert tail[..n] == a && tail[n..2 * n] == b;
    assert tail[2 * n..2 * n + 2] == Be16(srcPort) && tail[2 * n + 2..] == Be16(dstPort);
    assert h[16 + n..16 + 2 * n] == tail[n..2 * n];
    assert h[16 + 2 * n..18 + 2 * n] == tail[2 * n..2 * n + 2];
    assert h[18 + 2 * n..] == tail[2 * n + 2..];
  }

  lemma IPv4HeaderParses(src: IP, srcPort: nat, dst: IP, dstPort: nat)
    requires srcPort < U16_LIMIT && dstPort < U16_LIMIT && FitsIPv4(src, dst)
    ensures var h := HeaderBytes(src, srcPort, dst, dstPort);
            |h| == HEADER_LEN_IPV4 && Decode16(h[14..16]) == 12 && ParseHeader(h) == Parsed(To4(src), srcPort)
  {
    LayoutFields(0x11, To4(src), To4(FillDestination(src, dst)), srcPort, dstPort);
  }

  lemma IPv6HeaderParses(src: IP, srcPort: nat, dst: IP, dstPort: nat)
    requires srcPort < U16_LIMIT && dstPort < U16_LIMIT && !FitsIPv4(src, dst)
    ensures var h := HeaderBytes(src, srcPort, dst, dstPort);
            |h| == HEADER_LEN_IPV6 && Decode16(h[14..16]) == 36 && ParseHeader(h) == Parsed(Or16(src), srcPort)
  {
    LayoutFields(0x21, Or16(src), Or16(FillDestination(src, dst)), srcPort, dstPort);
  }

  /** One hop: a written header in front of any payload is consumed exactly, 28 or 52 bytes, and yields an
      equal address and the same port. The length is 28 exactly when both addresses have a 4-byte form. */
  lemma OneHop(src: IP, srcPort: nat, dst: IP, dstPort: nat, payload: seq<Byte>)
    requires srcPort < U16_LIMIT && dstPort < U16_LIMIT && IsAddress(src)
    ensures var h := HeaderBytes(src, srcPort, dst, dstPort);
            && |h| == (if FitsIPv4(src, dst) then HEADER_LEN_IPV4 else HEADER_LEN_IPV6)
            && TakeHeader(h + payload) == Some(h)
            && ParseHeader(h).Parsed?
            && IsAddress(ParseHeader(h).ip) && IpEqual(ParseHeader(h).ip, src)
            && ParseHeader(h).port == srcPort
  {
    var h := HeaderBytes(src, srcPort, dst, dstPort);
    if FitsIPv4(src, dst) {
      IPv4HeaderParses(src, srcPort, dst, dstPort);
    } else {
      IPv6HeaderParses(src, srcPort, dst, dstPort);
    }
    assert (h + payload)[14..16] == h[14..16];
    assert (h + payload)[..|h|] == h;
  }

  /** Two hops: what the server recovers, rebuilds with an empty destination and writes upstream parses to
      an address equal to the client's, with the client's port; the rebuilt header is the IPv4 one exactly
      when the client address has a 4-byte form, whatever family the first hop used. */
  lemma TwoHops(client: IP, clientPort: nat, edge: IP, edgePort: nat, payload: seq<Byte>)
    requires clientPort < U16_LIMIT && edgePort < U16_LIMIT && IsAddress(client) && IsAddress(edge)
    ensures var first := ParseHeader(HeaderBytes(client, clientPort, edge, edgePort));
            && first.Parsed? && first.port == clientPort
            && var up := HeaderBytes(first.ip, first.port, [], 0);
            && TakeHeader(up + payload) == Some(up)
            && ParseHeader(up).Parsed?
            && IpEqual(ParseHeader(up).ip, client) && ParseHeader(up).port == clientPort
            && |up| == (if To4(client) != [] then HEADER_LEN_IPV4 else HEADER_LEN_IPV6)
  {
    OneHop(client, clientPort, edge, edgePort, payload);
    var first := ParseHeader(HeaderBytes(client, clientPort, edge, edgePort));
    OneHop(first.ip, first.port, [], 0, payload);
    EqualAddressesAgree(first.ip, client);
    var up := HeaderBytes(first.ip, first.port, [], 0);
    EqualAddressesAgree(ParseHeader(up).ip, first.ip);
    EqualAddressesAgree(ParseHeader(up).ip, client);
  }

  /** Equality is agreement of the 16-byte forms, hence transitive, and equal addresses agree on having
      a 4-byte form. */
  lemma EqualAddressesAgree(a: IP, b: IP)
    requires IsAddress(a) && IsAddress(b)
    ensures IpEqual(a, b) <==> To16(a) == To16(b)
    ensures IpEqual(a, b) ==> To4(a) == To4(b)
  {
    if |a| == 4 {
      assert (V4_PREFIX + a)[..12] == V4_PREFIX && (V4_PREFIX + a)[12..] == a;
    }
    if |b| == 4 {
      assert (V4_PREFIX + b)[..12] == V4_PREFIX && (V4_PREFIX + b)[12..] == b;
    }
    if |a| == 16 && a[..12] == V4_PREFIX {
      assert a == V4_PREFIX + a[12..];
    }
    if |b| == 16 && b[..12] == V4_PREFIX {
      assert b == V4_PREFIX + b[12..];
    }
  }

  // ---------- Both ends of a header ----------

  /** An IPv4 address, in either form. */
  predicate IsIPv4(ip: IP) {
    |ip| == 4 || (|ip| == 16 && ip[..12] == [0, 0, 0, 0, 0, 0, 0, 0, 0, 0, 0xFF, 0xFF])
  }

  function Number16(s: seq<Byte>): int
    requires |s| == 2
  {
    256 * (s[0] as int) + s[1] as int
  }

  /** What a header says, byte by byte: family and length, source and destination with their ports in network order.
      An empty destination is the unspecified address of the source's family; anything else that is no address is
      written as the unspecified IPv6 address. */
  ghost predicate SaysEnds(h: seq<Byte>, n: nat, src: IP, srcPort: nat, dst: IP, dstPort: nat) {
    && |h| == 20 + 2 * n
    && h[..12] == SIGNATURE && h[12] == 0x21 && h[13] == (if n == 4 then 0x11 else 0x21) && Number16(h[14..16]) == 2 * n + 4
    && SaysAddress(h[16..16 + n], src) && SaysAddress(h[16 + n..16 + 2 * n], dst)
    && Number16(h[16 + 2 * n..18 + 2 * n]) == srcPort && Number16(h[18 + 2 * n..]) == dstPort
  }

  ghost predicate SaysAddress(said: seq<Byte>, ip: IP) {
    if IsAddress(ip) then IpEqual(said, ip) else forall i :: 0 <= i < |said| ==> said[i] == 0
  }

  lemma FormsOfAddresses(ip: IP)
    ensures To4(ip) != [] <==> IsIPv4(ip)
    ensures To4(ip) != [] ==> |To4(ip)| == 4 && IpEqual(To4(ip), ip)
    ensures |Or16(ip)| == 16 && SaysAddress(Or16(ip), ip)
  {
    assert (V4_PREFIX + ip)[..12] == V4_PREFIX && (V4_PREFIX + ip)[12..] == ip;
  }

  lemma UnspecifiedForms()
    ensures To4(V4_PREFIX + ZERO4) == ZERO4 && To4(ZERO16) == []
    ensures SaysAddress(ZERO4, []) && |Or16(ZERO16)| == 16 && SaysAddress(Or16(ZERO16), [])
  {
    assert (V4_PREFIX + ZERO4)[..12] == V4_PREFIX && (V4_PREFIX + ZERO4)[12..] == ZERO4;
    assert ZERO16[10] == 0;
  }

  lemma LayoutSaysEnds(family: Byte, a: seq<Byte>, b: seq<Byte>, src: IP, srcPort: nat, dst: IP, dstPort: nat)
    requires |a| == |b| && (if family == 0x11 then |a| == 4 else family == 0x21 && |a| == 16)
    requires srcPort < U16_LIMIT && dstPort < U16_LIMIT && SaysAddress(a, src) && SaysAddress(b, dst)
    ensures SaysEnds(Layout(family, a, b, srcPort, dstPort), |a|, src, srcPort, dst, dstPort)
  {
    LayoutFields(family, a, b, srcPort, dstPort);
    var h := Layout(family, a, b, srcPort, dstPort);
    assert forall s: seq<Byte> :: |s| == 2 ==> Number16(s) == Decode16(s);
  }

  predicate BothIPv4(src: IP, dst: IP) {
    IsIPv4(src) && (dst == [] || IsIPv4(dst))
  }

  lemma DestinationSays(src: IP, dst: IP)
    ensures var d := FillDestination(src, dst);
            && (!BothIPv4(src, dst) ==> |Or16(d)| == 16 && SaysAddress(Or16(d), dst))
            && (IsIPv4(src) ==> (To4(d) != [] <==> dst == [] || IsIPv4(dst)))
            && (BothIPv4(src, dst) ==> |To4(d)| == 4 && SaysAddress(To4(d), dst))
  {
    FormsOfAddresses(src);
    if dst == [] {
      UnspecifiedForms();
    } else {
      FormsOfAddresses(dst);
    }
  }

  lemma BytesByFamily(src: IP, srcPort: nat, dst: IP, dstPort: nat)
    requires srcPort < U16_LIMIT && dstPort < U16_LIMIT
    ensures var d := FillDestination(src, dst);
            if BothIPv4(src, dst) then
              |To4(src)| == |To4(d)| == 4 && HeaderBytes(src, srcPort, dst, dstPort) == Layout(0x11, To4(src), To4(d), srcPort, dstPort)
            else HeaderBytes(src, srcPort, dst, dstPort) == Layout(0x21, Or16(src), Or16(d), srcPort, dstPort)
  {
    FormsOfAddresses(src);
    DestinationSays(src, dst);
  }

  /** The header of a connection names both its ends. It is the IPv4 header exactly when the source is an IPv4
      address and the destination is one or is empty. */
  lemma HeaderNamesBothEnds(src: IP, srcPort: nat, dst: IP, dstPort: nat)
    requires srcPort < U16_LIMIT && dstPort < U16_LIMIT
    ensures SaysEnds(HeaderBytes(src, srcPort, dst, dstPort), if BothIPv4(src, dst) then 4 else 16, src, srcPort, dst, dstPort)
  {
    var d := FillDestination(src, dst);
    FormsOfAddresses(src);
    DestinationSays(src, dst);
    BytesByFamily(src, srcPort, dst, dstPort);
    if BothIPv4(src, dst) {
      LayoutSaysEnds(0x11, To4(src), To4(d), src, srcPort, dst, dstPort);
    } else {
      LayoutSaysEnds(0x21, Or16(src), Or16(d), src, srcPort, dst, dstPort);
    }
  }

  // ---------- What parses ----------

  /** Every header of a family with its own address length parses, whatever follows it. */
  lemma LayoutParses(family: Byte, a: seq<Byte>, b: seq<Byte>, srcPort: nat, dstPort: nat, tail: seq<Byte>)
    requires |a| == |b| && (if family == 0x11 then |a| == 4 else family == 0x21 && |a| == 16)
    requires srcPort < U16_LIMIT && dstPort < U16_LIMIT
    ensures ParseHeader(Layout(family, a, b, srcPort, dstPort) + tail) == Parsed(a, srcPort)
  {
    LayoutFields(family, a, b, srcPort, dstPort);
    var h, n := Layout(family, a, b, srcPort, dstPort), |a|;
    var s := h + tail;
    assert s[..12] == h[..12] && s[14..16] == h[14..16] && s[16..16 + n] == a;
    assert s[16 + 2 * n..18 + 2 * n] == h[16 + 2 * n..18 + 2 * n];
    assert forall k :: 0 <= k < 12 ==> s[k] == s[..12][k];
  }

  /** And nothing else does: a header that parses is one of those, with the address and port found in it. */
  lemma ParsedIsLayout(s: seq<Byte>) returns (family: Byte, b: seq<Byte>, dstPort: nat, tail: seq<Byte>)
    requires ParseHeader(s).Parsed?
    ensures var a := ParseHeader(s).ip;
            && |a| == |b| && (if family == 0x11 then |a| == 4 else family == 0x21 && |a| == 16)
            && ParseHeader(s).port < U16_LIMIT && dstPort < U16_LIMIT
            && s == Layout(family, a, b, ParseHeader(s).port, dstPort) + tail
  {
    var a := ParseHeader(s).ip;
    var n := |a|;
    family, b, tail := s[13], s[16 + n..16 + 2 * n], s[20 + 2 * n..];
    dstPort := Decode16(s[18 + 2 * n..20 + 2 * n]);
    Be16Decode16(s[14..16]);
    Be16Decode16(s[16 + 2 * n..18 + 2 * n]);
    Be16Decode16(s[18 + 2 * n..20 + 2 * n]);
    assert s[..12] == SIGNATURE;
    Pieces(s, n);
  }

  lemma Pieces(s: seq<Byte>, n: nat)
    requires |s| >= 20 + 2 * n
    ensures s == (s[..12] + [s[12], s[13]] + s[14..16])
                 + (s[16..16 + n] + s[16 + n..16 + 2 * n] + s[16 + 2 * n..18 + 2 * n] + s[18 + 2 * n..20 + 2 * n]) + s[20 + 2 * n..]
  {
  }

  /** The signature holds up to `at`, where it breaks off. */
  ghost predicate BreaksAt(s: seq<Byte>, at: nat)
    requires |s| >= 12
  {
    at < 12 && s[at] != SIGNATURE[at] && forall k :: 0 <= k < at ==> s[k] == SIGNATURE[k]
  }

  ghost predicate IsSigned(s: seq<Byte>)
    requires |s| >= 12
  {
    forall k :: 0 <= k < 12 ==> s[k] == SIGNATURE[k]
  }

  /** The errors, in the order of the checks. */
  lemma ParseErrorsExactly(s: seq<Byte>, at: nat)
    ensures ParseHeader(s) == SignatureMismatch(at) <==> |s| >= 16 && BreaksAt(s, at)
    ensures |s| < 16 ==> ParseHeader(s) == HeaderTooShort
    ensures |s| >= 16 && IsSigned(s) ==>
              var size := Number16(s[14..16]);
              && (ParseHeader(s).CommandUnsupported? <==> s[12] != 0x21)
              && (ParseHeader(s).FamilyUnsupported? <==> s[12] == 0x21 && s[13] != 0x11 && s[13] != 0x21)
              && (ParseHeader(s).LengthMismatch? <==> s[12] == 0x21 && ((s[13] == 0x11 && size != 12) || (s[13] == 0x21 && size != 36)))
              && (ParseHeader(s).HeaderTooShort? <==>
                    s[12] == 0x21 && ((s[13] == 0x11 && size == 12 && |s| < 28) || (s[13] == 0x21 && size == 36 && |s| < 52)))
  {
    if |s| >= 16 {
      assert SignatureMatch(s, 0) < 12 ==> BreaksAt(s, SignatureMatch(s, 0));
    }
  }

  /** The server takes the fixed part and as many bytes as it announces, and nothing behind them matters. */
  lemma TakeHeaderExactly(s: seq<Byte>, h: seq<Byte>)
    ensures TakeHeader(s) == Some(h) <==> h <= s && |h| >= 16 && |h| == 16 + Number16(h[14..16])
    ensures TakeHeader(s) == None <==> |s| < 16 || |s| < 16 + Number16(s[14..16])
  {
    if |s| >= 16 {
      assert Number16(s[14..16]) == Decode16(s[14..16]);
    }
    if h <= s && |h| >= 16 {
      assert h[14..16] == s[14..16] && h == s[..|h|];
    }
    if TakeHeader(s) == Some(h) {
      assert h[14..16] == s[14..16];
    }
  }
}
