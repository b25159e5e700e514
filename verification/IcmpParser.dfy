/**
 Parsing of ICMP and ICMPv6 errors down to the quoted UDP header. The wire formats are
 given as records with an encoding (section 3.1 of RFC 791, RFC 792, section 3 of RFC 4443);
 the parsers are shown to be their inverses.
 */
module IcmpParser {
  import opened Bytes

  const MAX_PAYLOAD_PREFIX_SIZE := 64

  datatype IpAddr = V4(v4: Ipv4) | V6(v6: Ipv6)

  datatype SocketAddr = SocketAddr(ip: IpAddr, port: u16)

  datatype IcmpMessageClass = Error | Ignore | TtlExpired

  datatype EmbeddedUdpInfo = EmbeddedUdpInfo(
    srcPort: u16, destAddr: SocketAddr, udpLength: u16, payloadPrefix: seq<u8>, udpChecksum: u16)

  type ParsedError = Option<(EmbeddedUdpInfo, IcmpMessageClass)>

  function Prefix(s: seq<u8>): seq<u8> {
    if |s| <= MAX_PAYLOAD_PREFIX_SIZE then s else s[..MAX_PAYLOAD_PREFIX_SIZE]
  }

  lemma PrefixIsFirst64(s: seq<u8>)
    ensures Prefix(s) <= s && |Prefix(s)| == if |s| <= 64 then |s| else 64
  {
  }

  function Word(packet: seq<u8>, at: nat): u16
    requires at + 1 < |packet|
  {
    FromBe16(packet[at], packet[at + 1])
  }

  function ClassV4(icmpType: u8): IcmpMessageClass {
    match icmpType
    case 3 => Error
    case 11 => TtlExpired
    case _ => Ignore
  }

  function ClassV6(icmpType: u8): IcmpMessageClass {
    match icmpType
    case 1 => Error
    case 2 => TtlExpired
    case _ => Ignore
  }

  /** Reads the UDP header at `at`, ports, length, checksum and payload prefix. */
  function EmbeddedAt(packet: seq<u8>, dest: IpAddr, at: nat): EmbeddedUdpInfo
    requires at + 8 <= |packet|
  {
    EmbeddedUdpInfo(Word(packet, at), SocketAddr(dest, Word(packet, at + 2)), Word(packet, at + 4),
                    Prefix(packet[at + 8..]), Word(packet, at + 6))
  }

  /** Parses a raw IPv4 ICMP packet, whose outer header is taken to be 20 bytes long. */
  function ParseIcmpError(packet: seq<u8>): ParsedError {
    if |packet| < 56 then None
    else if packet[20] !in [3, 11, 12] then None
    else
      var start := 28;
      if packet[start] / 16 != 4 then None
      else
        var headerLen := packet[start] % 16 * 4;
        if packet[start + 9] != 17 then None
        else
          var dest := V4(packet[start + 16..start + 20]);
          var udpStart := start + headerLen;
          if |packet| < udpStart + 8 then None
          else Some((EmbeddedAt(packet, dest, udpStart), ClassV4(packet[20])))
  }

  /** Parses a raw ICMPv6 packet, from which the kernel has stripped the outer header. */
  function ParseIcmpv6Error(packet: seq<u8>): ParsedError {
    if |packet| < 56 then None
    else if packet[0] !in [1, 2, 3] then None
    else
      var start := 8;
      if |packet| < start + 40 then None
      else if packet[start] / 16 != 6 then None
      else if packet[start + 6] != 17 then None
      else
        var dest := V6(packet[start + 24..start + 40]);
        var udpStart := start + 40;
        if |packet| < udpStart + 8 then None
        else Some((EmbeddedAt(packet, dest, udpStart), ClassV6(packet[0])))
  }

  // ---------------------------------------------------------------------------------------
  // Wire formats
  // ---------------------------------------------------------------------------------------

  /** An IPv4 ICMP error: outer header, ICMP header, quoted IP header, quoted UDP header, rest. */
  datatype ErrorV4 = ErrorV4(
    outer: seq<u8>, icmpType: u8, code: u8, rest: seq<u8>, ipHeader: seq<u8>, udpHeader: seq<u8>, tail: seq<u8>)
  {
    ghost predicate Valid() {
      && |outer| == 20 && |rest| == 6 && |udpHeader| == 8
      && icmpType in {3, 11, 12}
      && |ipHeader| >= 20 && ipHeader[0] / 16 == 4 && |ipHeader| == 4 * (ipHeader[0] % 16)
      && ipHeader[9] == 17
    }

    function Encode(): seq<u8> {
      outer + [icmpType, code] + rest + ipHeader + udpHeader + tail
    }
  }

  /** An ICMPv6 error: ICMPv6 header, quoted 40-byte IPv6 header, quoted UDP header, rest. */
  datatype ErrorV6 = ErrorV6(
    icmpType: u8, code: u8, rest: seq<u8>, ipHeader: seq<u8>, udpHeader: seq<u8>, tail: seq<u8>)
  {
    ghost predicate Valid() {
      && |rest| == 6 && |ipHeader| == 40 && |udpHeader| == 8
      && icmpType in {1, 2, 3}
      && ipHeader[0] / 16 == 6 && ipHeader[6] == 17
    }

    function Encode(): seq<u8> {
      [icmpType, code] + rest + ipHeader + udpHeader + tail
    }
  }

  /** What a quoted UDP header says about the datagram it came from. */
  function Quoted(dest: IpAddr, udpHeader: seq<u8>, tail: seq<u8>): EmbeddedUdpInfo
    requires |udpHeader| == 8
  {
    EmbeddedUdpInfo(Word(udpHeader, 0), SocketAddr(dest, Word(udpHeader, 2)), Word(udpHeader, 4),
                    Prefix(tail), Word(udpHeader, 6))
  }

  lemma EmbeddedAtQuoted(before: seq<u8>, dest: IpAddr, udpHeader: seq<u8>, tail: seq<u8>)
    requires |udpHeader| == 8
    ensures EmbeddedAt(before + udpHeader + tail, dest, |before|) == Quoted(dest, udpHeader, tail)
  {
    var packet := before + udpHeader + tail;
    var at := |before|;
    assert packet[at + 8..] == tail;
    assert forall i | 0 <= i < 8 :: packet[at + i] == udpHeader[i];
  }

  /** Every well-formed IPv4 error, with any quoted header length, is parsed to its class and what it quotes. */
  lemma ParsesEveryErrorV4(m: ErrorV4)
    requires m.Valid()
    ensures ParseIcmpError(m.Encode())
         == Some((Quoted(V4(m.ipHeader[16..20]), m.udpHeader, m.tail),
                  if m.icmpType == 3 then Error else if m.icmpType == 11 then TtlExpired else Ignore))
  {
    var packet := m.Encode();
    var before := m.outer + [m.icmpType, m.code] + m.rest + m.ipHeader;
    assert packet == before + m.udpHeader + m.tail;
    assert packet[20] == m.icmpType;
    assert forall i | 0 <= i < |m.ipHeader| :: packet[28 + i] == m.ipHeader[i];
    assert packet[28] == m.ipHeader[0] && packet[28 + 9] == m.ipHeader[9];
    assert packet[28 + 16..28 + 20] == m.ipHeader[16..20];
    assert |before| == 28 + m.ipHeader[0] % 16 * 4;
    EmbeddedAtQuoted(before, V4(m.ipHeader[16..20]), m.udpHeader, m.tail);
  }

  /** Whatever the IPv4 parser accepts with a legal quoted header length is a well-formed error. */
  lemma AcceptsOnlyErrorsV4(packet: seq<u8>) returns (m: ErrorV4)
    requires ParseIcmpError(packet).Some? && packet[28] % 16 >= 5
    ensures m.Valid() && m.Encode() == packet
  {
    var u := 28 + packet[28] % 16 * 4;
    m := ErrorV4(packet[..20], packet[20], packet[21], packet[22..28], packet[28..u], packet[u..u + 8], packet[u + 8..]);
    assert m.Encode() == packet;
  }

  /**
   The well-formed errors are exactly the accepted packets whose quoted header length is at
   least five words. The parser does not check that minimum: a shorter header is accepted,
   and its UDP fields are read from inside the IP header.
   */
  lemma AcceptanceV4(packet: seq<u8>)
    ensures (exists m: ErrorV4 :: m.Valid() && m.Encode() == packet)
       <==> ParseIcmpError(packet).Some? && packet[28] % 16 >= 5
  {
    if ParseIcmpError(packet).Some? && packet[28] % 16 >= 5 {
      var m := AcceptsOnlyErrorsV4(packet);
    }
    forall m: ErrorV4 | m.Valid() && m.Encode() == packet
      ensures ParseIcmpError(packet).Some? && packet[28] % 16 >= 5
    {
      ParsesEveryErrorV4(m);
      assert packet[28] == m.ipHeader[0];
    }
  }

  lemma AcceptsShortHeader()
    ensures exists packet: seq<u8> :: |packet| > 28 && packet[28] % 16 < 5 && ParseIcmpError(packet).Some?
  {
    var packet: seq<u8> := seq(56, i => if i == 20 then 3 else if i == 28 then 0x40 else if i == 37 then 17 else 0);
    assert packet[28] == 0x40 && packet[37] == 17 && packet[20] == 3;
    assert ParseIcmpError(packet).Some?;
  }

  lemma ParsesEveryErrorV6(m: ErrorV6)
    requires m.Valid()
    ensures ParseIcmpv6Error(m.Encode())
         == Some((Quoted(V6(m.ipHeader[24..40]), m.udpHeader, m.tail),
                  if m.icmpType == 1 then Error else if m.icmpType == 2 then TtlExpired else Ignore))
  {
    var packet := m.Encode();
    var before := [m.icmpType, m.code] + m.rest + m.ipHeader;
    assert packet == before + m.udpHeader + m.tail;
    assert forall i | 0 <= i < 40 :: packet[8 + i] == m.ipHeader[i];
    assert packet[8] == m.ipHeader[0] && packet[8 + 6] == m.ipHeader[6];
    assert packet[8 + 24..8 + 40] == m.ipHeader[24..40];
    EmbeddedAtQuoted(before, V6(m.ipHeader[24..40]), m.udpHeader, m.tail);
  }

  lemma AcceptsOnlyErrorsV6(packet: seq<u8>) returns (m: ErrorV6)
    requires ParseIcmpv6Error(packet).Some?
    ensures m.Valid() && m.Encode() == packet
  {
    m := ErrorV6(packet[0], packet[1], packet[2..8], packet[8..48], packet[48..56], packet[56..]);
    assert m.Encode() == packet;
  }

  lemma AcceptanceV6(packet: seq<u8>)
    ensures ParseIcmpv6Error(packet).Some? <==> exists m: ErrorV6 :: m.Valid() && m.Encode() == packet
  {
    if ParseIcmpv6Error(packet).Some? {
      var m := AcceptsOnlyErrorsV6(packet);
    }
    forall m: ErrorV6 | m.Valid() && m.Encode() == packet
      ensures ParseIcmpv6Error(packet).Some?
    {
      ParsesEveryErrorV6(m);
    }
  }
}
