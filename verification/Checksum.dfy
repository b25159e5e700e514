/**
 The UDP checksum the server computes for each outgoing probe: a deferred-carry word sum
 in a wrapping 32-bit accumulator, folded at the end. The reference it is measured against
 adds 16-bit words with an end-around carry at every step (section 2 of RFC 1071) and maps
 a zero result to 0xFFFF (RFC 768).
 */
module Checksum {
  import opened Bytes

  /** The 16-bit big-endian words of `data`; an odd last byte is padded with a zero byte. */
  function Words(data: seq<u8>): seq<u16> {
    if |data| == 0 then []
    else if |data| == 1 then [FromBe16(data[0], 0)]
    else [FromBe16(data[0], data[1])] + Words(data[2..])
  }

  function Sum(ws: seq<u16>): nat {
    if ws == [] then 0 else ws[0] + Sum(ws[1..])
  }

  /** 16-bit one's-complement addition: a carry out of bit 15 is added back at bit 0. */
  function OnesAdd(a: u16, b: u16): u16 {
    if a + b < 0x1_0000 then a + b else a + b - 0x1_0000 + 1
  }

  function OnesSum(ws: seq<u16>): u16 {
    if ws == [] then 0 else OnesAdd(ws[0], OnesSum(ws[1..]))
  }

  /** The reference checksum of a sequence of words. */
  function Rfc768(ws: seq<u16>): u16 {
    Complement(OnesSum(ws))
  }

  /** One's complement, with zero sent as 0xFFFF. */
  function Complement(sum: u16): u16 {
    if sum == 0xFFFF then 0xFFFF else 0xFFFF - sum
  }

  /** IPv4 pseudo-header: addresses, zero, protocol 17, UDP length. */
  function PseudoV4(src: Ipv4, dst: Ipv4, length: u16): seq<u8> {
    src + dst + [0, 17] + Be16(length)
  }

  /** IPv6 pseudo-header: addresses, 32-bit UDP length, three zeros, next header 17. */
  function PseudoV6(src: Ipv6, dst: Ipv6, length: u32): seq<u8> {
    src + dst + Be32(length) + [0, 0, 0, 17]
  }

  function UdpHeader(srcPort: u16, dstPort: u16, length: u16, checksum: u16): (h: seq<u8>)
    ensures |h| == 8
  {
    Be16(srcPort) + Be16(dstPort) + Be16(length) + Be16(checksum)
  }

  /** `data.len() as u16` style truncation of the UDP length. */
  function UdpLength(payload: seq<u8>): u16 {
    (8 + |payload|) % 0x1_0000
  }

  /** Everything the IPv4 checksum covers, with `checksum` in the checksum field. */
  function CoveredV4(src: Ipv4, dst: Ipv4, srcPort: u16, dstPort: u16, payload: seq<u8>, checksum: u16): seq<u8> {
    PseudoV4(src, dst, UdpLength(payload)) + UdpHeader(srcPort, dstPort, UdpLength(payload), checksum) + payload
  }

  function CoveredV6(src: Ipv6, dst: Ipv6, srcPort: u16, dstPort: u16, payload: seq<u8>, checksum: u16): seq<u8> {
    PseudoV6(src, dst, (8 + |payload|) % 0x1_0000_0000)
    + UdpHeader(srcPort, dstPort, UdpLength(payload), checksum) + payload
  }

  /** The checksum that RFC 768 puts on the wire for this datagram. */
  function WireChecksumV4(src: Ipv4, dst: Ipv4, srcPort: u16, dstPort: u16, payload: seq<u8>): u16 {
    Rfc768(Words(CoveredV4(src, dst, srcPort, dstPort, payload, 0)))
  }

  function WireChecksumV6(src: Ipv6, dst: Ipv6, srcPort: u16, dstPort: u16, payload: seq<u8>): u16 {
    Rfc768(Words(CoveredV6(src, dst, srcPort, dstPort, payload, 0)))
  }

  // ---------------------------------------------------------------------------------------
  // Word sums
  // ---------------------------------------------------------------------------------------

  lemma WordsStep(hi: u8, lo: u8, rest: seq<u8>)
    ensures Words([hi, lo] + rest) == [FromBe16(hi, lo)] + Words(rest)
  {
    assert ([hi, lo] + rest)[2..] == rest;
  }

  lemma {:induction false} WordsConcat(a: seq<u8>, b: seq<u8>)
    requires |a| % 2 == 0
    ensures Words(a + b) == Words(a) + Words(b)
  {
    if a == [] {
      assert a + b == b;
    } else {
      var hi, lo, rest := a[0], a[1], a[2..];
      WordsConcat(rest, b);
      WordsStep(hi, lo, rest);
      WordsStep(hi, lo, rest + b);
      assert a == [hi, lo] + rest;
      assert a + b == [hi, lo] + (rest + b);
      assert [FromBe16(hi, lo)] + (Words(rest) + Words(b)) == ([FromBe16(hi, lo)] + Words(rest)) + Words(b);
    }
  }

  lemma {:induction false} SumConcat(a: seq<u16>, b: seq<u16>)
    ensures Sum(a + b) == Sum(a) + Sum(b)
  {
    if a == [] {
      assert a + b == b;
    } else {
      SumConcat(a[1..], b);
      assert (a + b)[1..] == a[1..] + b;
    }
  }

  lemma ByteSumConcat(a: seq<u8>, b: seq<u8>)
    requires |a| % 2 == 0
    ensures Sum(Words(a + b)) == Sum(Words(a)) + Sum(Words(b))
  {
    WordsConcat(a, b);
    SumConcat(Words(a), Words(b));
  }

  lemma {:induction false} WordsPadded(data: seq<u8>)
    requires |data| % 2 == 1
    ensures Words(data + [0]) == Words(data)
  {
    var n := |data| - 1;
    assert data == data[..n] + [data[n]];
    assert data + [0] == data[..n] + [data[n], 0];
    WordsConcat(data[..n], [data[n]]);
    WordsConcat(data[..n], [data[n], 0]);
    assert Words([data[n], 0]) == [FromBe16(data[n], 0)] by {
      assert [data[n], 0][2..] == [];
    }
  }

  lemma WordOf(w: u16)
    ensures Sum(Words(Be16(w))) == w
  {
    assert Be16(w)[2..] == [];
    assert Words(Be16(w)) == [w];
  }

  /** Every byte counts 256-fold in an even position and once in an odd one. */
  function Weighed(data: seq<u8>): nat {
    if data == [] then 0 else
    var last := |data| - 1;
    Weighed(data[..last]) + if last % 2 == 0 then 256 * data[last] else data[last] as nat
  }

  lemma {:induction false} SumWeighsBytes(data: seq<u8>)
    ensures Sum(Words(data)) == Weighed(data)
  {
    if |data| == 1 {
      assert data[..0] == [];
    } else if data != [] {
      var n := |data| - 1;
      SumWeighsBytes(data[..n]);
      if n % 2 == 0 {
        ByteSumConcat(data[..n], [data[n]]);
        assert data == data[..n] + [data[n]];
      } else {
        SumOfPair(data[..n - 1], data[n - 1], data[n]);
        assert data == data[..n - 1] + [data[n - 1], data[n]];
        assert data[..n] == data[..n - 1] + [data[n - 1]];
      }
    }
  }

  /** The second byte of a word adds itself. */
  lemma SumOfPair(before: seq<u8>, hi: u8, lo: u8)
    requires |before| % 2 == 0
    ensures Sum(Words(before + [hi, lo])) == Sum(Words(before + [hi])) + lo
  {
    WordsPair(hi, lo);
    ByteSumConcat(before, [hi, lo]);
    ByteSumConcat(before, [hi]);
  }

  lemma WordsPair(hi: u8, lo: u8)
    ensures Sum(Words([hi, lo])) == 256 * hi + lo
  {
    assert [hi, lo][2..] == [];
    assert Words([hi, lo]) == [FromBe16(hi, lo)];
  }

  // ---------------------------------------------------------------------------------------
  // What is covered, field by field
  // ---------------------------------------------------------------------------------------

  /** Both addresses, protocol 17, the UDP length twice, both ports, and the payload. */
  function FieldsV4(src: Ipv4, dst: Ipv4, srcPort: u16, dstPort: u16, payload: seq<u8>): nat {
    Weighed(src) + Weighed(dst) + 17 + 2 * ((8 + |payload|) % 0x1_0000) + srcPort + dstPort + Weighed(payload)
  }

  /** The same, with the upper half of a 32-bit length in the pseudo-header. */
  function FieldsV6(src: Ipv6, dst: Ipv6, srcPort: u16, dstPort: u16, payload: seq<u8>): nat {
    Weighed(src) + Weighed(dst) + 17 + (8 + |payload|) / 0x1_0000 % 0x1_0000 + 2 * ((8 + |payload|) % 0x1_0000)
    + srcPort + dstPort + Weighed(payload)
  }

  lemma HeaderSum(srcPort: u16, dstPort: u16, length: u16, checksum: u16)
    ensures Sum(Words(UdpHeader(srcPort, dstPort, length, checksum))) == srcPort + dstPort + length + checksum
  {
    ByteSumConcat(Be16(srcPort) + Be16(dstPort) + Be16(length), Be16(checksum));
    ByteSumConcat(Be16(srcPort) + Be16(dstPort), Be16(length));
    ByteSumConcat(Be16(srcPort), Be16(dstPort));
    WordOf(srcPort);
    WordOf(dstPort);
    WordOf(length);
    WordOf(checksum);
  }

  lemma CoveredSumV4(src: Ipv4, dst: Ipv4, srcPort: u16, dstPort: u16, payload: seq<u8>, checksum: u16)
    ensures Sum(Words(CoveredV4(src, dst, srcPort, dstPort, payload, checksum)))
         == FieldsV4(src, dst, srcPort, dstPort, payload) + checksum
  {
    var length := UdpLength(payload);
    var pseudo, header := PseudoV4(src, dst, length), UdpHeader(srcPort, dstPort, length, checksum);
    ByteSumConcat(pseudo + header, payload);
    ByteSumConcat(pseudo, header);
    HeaderSum(srcPort, dstPort, length, checksum);
    PseudoSumV4(src, dst, length);
    SumWeighsBytes(payload);
  }

  lemma PseudoSumV4(src: Ipv4, dst: Ipv4, length: u16)
    ensures Sum(Words(PseudoV4(src, dst, length))) == Weighed(src) + Weighed(dst) + 17 + length
  {
    ByteSumConcat(src + dst + [0, 17], Be16(length));
    ByteSumConcat(src + dst, [0, 17]);
    ByteSumConcat(src, dst);
    WordOf(length);
    WordsPair(0, 17);
    SumWeighsBytes(src);
    SumWeighsBytes(dst);
  }

  lemma CoveredSumV6(src: Ipv6, dst: Ipv6, srcPort: u16, dstPort: u16, payload: seq<u8>, checksum: u16)
    ensures Sum(Words(CoveredV6(src, dst, srcPort, dstPort, payload, checksum)))
         == FieldsV6(src, dst, srcPort, dstPort, payload) + checksum
  {
    var length := UdpLength(payload);
    var pseudo := PseudoV6(src, dst, (8 + |payload|) % 0x1_0000_0000);
    var header := UdpHeader(srcPort, dstPort, length, checksum);
    ByteSumConcat(pseudo + header, payload);
    ByteSumConcat(pseudo, header);
    HeaderSum(srcPort, dstPort, length, checksum);
    PseudoSumV6(src, dst, 8 + |payload|);
    SumWeighsBytes(payload);
  }

  lemma PseudoSumV6(src: Ipv6, dst: Ipv6, n: nat)
    ensures Sum(Words(PseudoV6(src, dst, n % 0x1_0000_0000)))
         == Weighed(src) + Weighed(dst) + 17 + n / 0x1_0000 % 0x1_0000 + n % 0x1_0000
  {
    var length: u32 := n % 0x1_0000_0000;
    ByteSumConcat(src + dst + Be32(length), [0, 0, 0, 17]);
    ByteSumConcat(src + dst, Be32(length));
    ByteSumConcat(src, dst);
    ByteSumConcat(Be16(length / 0x1_0000), Be16(length % 0x1_0000));
    WordOf(length / 0x1_0000);
    WordOf(length % 0x1_0000);
    Halves(n);
    assert [0, 0, 0, 17] == [0, 0] + [0, 17];
    ByteSumConcat([0, 0], [0, 17]);
    WordsPair(0, 0);
    WordsPair(0, 17);
    SumWeighsBytes(src);
    SumWeighsBytes(dst);
  }

  lemma Halves(n: nat)
    ensures n % 0x1_0000_0000 / 0x1_0000 == n / 0x1_0000 % 0x1_0000
    ensures n % 0x1_0000_0000 % 0x1_0000 == n % 0x1_0000
  {
    var q := n / 0x1_0000_0000;
    assert n == n % 0x1_0000_0000 + 0x1_0000 * (0x1_0000 * q);
  }

  // ---------------------------------------------------------------------------------------
  // One's-complement residues
  // ---------------------------------------------------------------------------------------

  /** The 16-bit one's-complement representative of `s`: 0 only for 0, otherwise in 1..65535. */
  function Residue(s: nat): u16 {
    if s == 0 then 0 else 1 + (s - 1) % 0xFFFF
  }

  lemma ResidueShift(s: nat, k: nat)
    requires s > 0
    ensures Residue(s + 0xFFFF * k) == Residue(s)
  {
    assert (s - 1 + 0xFFFF * k) % 0xFFFF == (s - 1) % 0xFFFF;
  }

  lemma ResidueAdd(a: u16, s: nat)
    ensures OnesAdd(a, Residue(s)) == Residue(a + s)
  {
    if s > 0 {
      var k := (s - 1) / 0xFFFF;
      assert s == Residue(s) + 0xFFFF * k;
      ResidueShift(a + Residue(s), k);
    }
  }

  lemma {:induction false} OnesSumIsResidue(ws: seq<u16>)
    ensures OnesSum(ws) == Residue(Sum(ws))
  {
    if ws != [] {
      OnesSumIsResidue(ws[1..]);
      ResidueAdd(ws[0], Sum(ws[1..]));
    }
  }

  /** One round of the fold loop keeps the residue. */
  lemma FoldStep(s: nat)
    ensures Residue(s % 0x1_0000 + s / 0x1_0000) == Residue(s)
  {
    var hi := s / 0x1_0000;
    var folded := s % 0x1_0000 + hi;
    assert s == folded + 0xFFFF * hi;
    if folded > 0 {
      ResidueShift(folded, hi);
    }
  }

  // ---------------------------------------------------------------------------------------
  // The code
  // ---------------------------------------------------------------------------------------

  /** The chunk loop: adds the words of evenly long data into a wrapping 32-bit accumulator. */
  method AccumulateWords(data: seq<u8>) returns (sum: u32)
    requires |data| % 2 == 0
    ensures |data| <= 0x2_0000 ==> sum == Sum(Words(data))
  {
    sum := 0;
    for k := 0 to |data| / 2
      invariant k <= 0x1_0000 ==> sum == Sum(Words(data[..2 * k])) <= 0xFFFF * k
    {
      var word := FromBe16(data[2 * k], data[2 * k + 1]);
      AppendWord(data, k);
      sum := WrappingAdd(sum, word);
    }
    assert data[..2 * (|data| / 2)] == data;
  }

  function WrappingAdd(a: u32, b: u32): (r: u32)
    ensures a + b < 0x1_0000_0000 ==> r == a + b
  {
    if a + b < 0x1_0000_0000 then a + b else a + b - 0x1_0000_0000
  }

  lemma AppendWord(data: seq<u8>, k: nat)
    requires 2 * k + 1 < |data|
    ensures Sum(Words(data[..2 * (k + 1)])) == Sum(Words(data[..2 * k])) + FromBe16(data[2 * k], data[2 * k + 1])
  {
    var last := data[2 * k..2 * k + 2];
    assert data[..2 * (k + 1)] == data[..2 * k] + last;
    ByteSumConcat(data[..2 * k], last);
    assert last[2..] == [];
    assert Words(last) == [FromBe16(data[2 * k], data[2 * k + 1])];
  }

  /** The fold loop: adds the upper half to the lower half until the sum fits 16 bits. */
  method FoldCarries(total: u32) returns (sum: u16)
    ensures sum == Residue(total)
  {
    var acc := total;
    while acc / 0x1_0000 != 0
      invariant 0 <= acc && Residue(acc) == Residue(total)
      decreases acc
    {
      FoldStep(acc);
      acc := acc % 0x1_0000 + acc / 0x1_0000;
    }
    assert acc == Residue(acc);
    sum := acc;
  }

  /** Padding, word sum, fold, complement and zero mapping, as both checksum functions do them. */
  method FoldedChecksum(covered: seq<u8>) returns (c: u16)
    ensures c != 0
    ensures |covered| < 0x2_0000 ==> c == Rfc768(Words(covered))
  {
    var data := covered;
    if |data| % 2 != 0 {
      WordsPadded(data);
      data := data + [0];
    }
    var total := AccumulateWords(data);
    var sum := FoldCarries(total);
    OnesSumIsResidue(Words(data));
    var checksum := 0xFFFF - sum;
    c := if checksum == 0 then 0xFFFF else checksum;
  }

  /** A word sum and its checksum make up a multiple of 65535. */
  lemma CompletesTheSum(ws: seq<u16>)
    ensures (Sum(ws) + Rfc768(ws)) % 0xFFFF == 0
  {
    OnesSumIsResidue(ws);
    var s := Sum(ws);
    if s > 0 {
      var k := (s - 1) / 0xFFFF;
      assert s == Residue(s) + 0xFFFF * k;
    }
  }

  /** Apart from zero, only one 16-bit value does so. */
  lemma OnlyChecksum(sum: nat, c: u16, d: u16)
    requires c != 0 && d != 0 && (sum + c) % 0xFFFF == 0 && (sum + d) % 0xFFFF == 0
    ensures c == d
  {
    CongruentAfterShift(sum, c, d);
  }

  /** The checksum is the one non-zero value that brings the fields' sum to a multiple of 65535. */
  method CalculateUdpChecksumV4(src: Ipv4, dst: Ipv4, srcPort: u16, dstPort: u16, payload: seq<u8>) returns (c: u16)
    ensures c != 0
    ensures 8 + |payload| <= 0xFFFF ==> (FieldsV4(src, dst, srcPort, dstPort, payload) + c) % 0xFFFF == 0
    ensures 8 + |payload| <= 0xFFFF ==> c == WireChecksumV4(src, dst, srcPort, dstPort, payload)
  {
    var length := UdpLength(payload);
    var data: seq<u8> := src + dst;
    data := data + [0];
    data := data + [17];
    data := data + Be16(length);
    data := data + Be16(srcPort);
    data := data + Be16(dstPort);
    data := data + Be16(length);
    data := data + [0, 0];
    data := data + payload;
    assert data == CoveredV4(src, dst, srcPort, dstPort, payload, 0);
    CoveredSumV4(src, dst, srcPort, dstPort, payload, 0);
    CompletesTheSum(Words(data));
    c := FoldedChecksum(data);
  }

  method CalculateUdpChecksumV6(src: Ipv6, dst: Ipv6, srcPort: u16, dstPort: u16, payload: seq<u8>) returns (c: u16)
    ensures c != 0
    ensures 8 + |payload| <= 0xFFFF ==> (FieldsV6(src, dst, srcPort, dstPort, payload) + c) % 0xFFFF == 0
    ensures 8 + |payload| <= 0xFFFF ==> c == WireChecksumV6(src, dst, srcPort, dstPort, payload)
  {
    var length: u32 := (8 + |payload|) % 0x1_0000_0000;
    var data: seq<u8> := src + dst;
    data := data + Be32(length);
    data := data + [0, 0, 0];
    data := data + [17];
    data := data + Be16(srcPort);
    data := data + Be16(dstPort);
    data := data + Be16(length % 0x1_0000);
    data := data + [0, 0];
    data := data + payload;
    Halves(8 + |payload|);
    assert data == CoveredV6(src, dst, srcPort, dstPort, payload, 0);
    CoveredSumV6(src, dst, srcPort, dstPort, payload, 0);
    CompletesTheSum(Words(data));
    c := FoldedChecksum(data);
  }

  // ---------------------------------------------------------------------------------------
  // What the checksum is for
  // ---------------------------------------------------------------------------------------

  /** Putting a value into the zeroed checksum field adds exactly that value to the word sum. */
  lemma ChecksumFieldSum(pseudo: seq<u8>, srcPort: u16, dstPort: u16, length: u16, checksum: u16, payload: seq<u8>)
    requires |pseudo| % 2 == 0
    ensures Sum(Words(pseudo + UdpHeader(srcPort, dstPort, length, checksum) + payload))
         == Sum(Words(pseudo + UdpHeader(srcPort, dstPort, length, 0) + payload)) + checksum
  {
    var before := pseudo + Be16(srcPort) + Be16(dstPort) + Be16(length);
    forall c: u16
      ensures Sum(Words(pseudo + UdpHeader(srcPort, dstPort, length, c) + payload))
           == Sum(Words(before)) + c + Sum(Words(payload))
    {
      assert pseudo + UdpHeader(srcPort, dstPort, length, c) + payload == before + (Be16(c) + payload);
      ByteSumConcat(before, Be16(c) + payload);
      ByteSumConcat(Be16(c), payload);
      assert Be16(c)[2..] == [];
      assert Words(Be16(c)) == [c];
      assert Sum([c]) == c;
    }
  }

  lemma FillingTheFieldVerifies(zeroed: seq<u16>, filled: seq<u16>)
    requires Sum(filled) == Sum(zeroed) + Rfc768(zeroed)
    ensures OnesSum(filled) == 0xFFFF
  {
    OnesSumIsResidue(zeroed);
    OnesSumIsResidue(filled);
    var s := Sum(zeroed);
    if s > 0 {
      var k := (s - 1) / 0xFFFF;
      assert s == Residue(s) + 0xFFFF * k;
      var r := Residue(s);
      if r == 0xFFFF {
        assert Sum(filled) == 0xFFFF + 0xFFFF * (k + 1);
        ResidueShift(0xFFFF, k + 1);
      } else {
        assert Sum(filled) == 0xFFFF + 0xFFFF * k;
        ResidueShift(0xFFFF, k);
      }
    }
  }

  /** A receiver that sums pseudo-header and datagram, checksum included, gets 0xFFFF. */
  lemma ReceiverAcceptsV4(src: Ipv4, dst: Ipv4, srcPort: u16, dstPort: u16, payload: seq<u8>)
    ensures var c := WireChecksumV4(src, dst, srcPort, dstPort, payload);
            OnesSum(Words(CoveredV4(src, dst, srcPort, dstPort, payload, c))) == 0xFFFF
  {
    var c := WireChecksumV4(src, dst, srcPort, dstPort, payload);
    var length := UdpLength(payload);
    ChecksumFieldSum(PseudoV4(src, dst, length), srcPort, dstPort, length, c, payload);
    FillingTheFieldVerifies(Words(CoveredV4(src, dst, srcPort, dstPort, payload, 0)),
                            Words(CoveredV4(src, dst, srcPort, dstPort, payload, c)));
  }

  lemma ReceiverAcceptsV6(src: Ipv6, dst: Ipv6, srcPort: u16, dstPort: u16, payload: seq<u8>)
    ensures var c := WireChecksumV6(src, dst, srcPort, dstPort, payload);
            OnesSum(Words(CoveredV6(src, dst, srcPort, dstPort, payload, c))) == 0xFFFF
  {
    var c := WireChecksumV6(src, dst, srcPort, dstPort, payload);
    var length := UdpLength(payload);
    ChecksumFieldSum(PseudoV6(src, dst, (8 + |payload|) % 0x1_0000_0000), srcPort, dstPort, length, c, payload);
    FillingTheFieldVerifies(Words(CoveredV6(src, dst, srcPort, dstPort, payload, 0)),
                            Words(CoveredV6(src, dst, srcPort, dstPort, payload, c)));
  }

  lemma WeighLast(data: seq<u8>, x: u8)
    ensures Weighed(data + [x]) == Weighed(data) + if |data| % 2 == 0 then 256 * x else x as nat
  {
    assert (data + [x])[..|data|] == data;
  }

  lemma WeighAddress(a: u8, b: u8, c: u8, d: u8)
    ensures Weighed([a, b, c, d]) == 256 * a + b + 256 * c + d && Weighed([a]) == 256 * a
  {
    WeighLast([], a);
    WeighLast([a], b);
    WeighLast([a, b], c);
    WeighLast([a, b, c], d);
    assert [] + [a] == [a] && [a] + [b] == [a, b] && [a, b] + [c] == [a, b, c] && [a, b, c] + [d] == [a, b, c, d];
  }

  lemma ChecksumOfFieldsV4(src: Ipv4, dst: Ipv4, srcPort: u16, dstPort: u16, payload: seq<u8>)
    ensures WireChecksumV4(src, dst, srcPort, dstPort, payload)
         == Complement(Residue(FieldsV4(src, dst, srcPort, dstPort, payload)))
  {
    CoveredSumV4(src, dst, srcPort, dstPort, payload, 0);
    OnesSumIsResidue(Words(CoveredV4(src, dst, srcPort, dstPort, payload, 0)));
  }

  lemma SampleFields()
    ensures FieldsV4([10, 0, 0, 1], [10, 0, 0, 2], 1, 2, [1]) == 5417
  {
    WeighAddress(10, 0, 0, 1);
    WeighAddress(10, 0, 0, 2);
    WeighAddress(1, 0, 0, 0);
  }

  /** A datagram with one byte of payload from 10.0.0.1 port 1 to 10.0.0.2 port 2. */
  lemma SampleChecksum()
    ensures WireChecksumV4([10, 0, 0, 1], [10, 0, 0, 2], 1, 2, [1]) == 0xEAD6
  {
    SampleFields();
    ChecksumOfFieldsV4([10, 0, 0, 1], [10, 0, 0, 2], 1, 2, [1]);
  }

  // ---------------------------------------------------------------------------------------
  // Which inputs collide
  // ---------------------------------------------------------------------------------------

  lemma ResidueClass(s: nat)
    ensures Residue(s) % 0xFFFF == s % 0xFFFF
  {
  }

  lemma ComplementClass(r: u16, t: u16)
    ensures Complement(r) == Complement(t) <==> r % 0xFFFF == t % 0xFFFF
  {
  }

  /** Two inputs share a checksum exactly when their word sums agree modulo 65535. */
  lemma CollisionLaw(a: seq<u16>, b: seq<u16>)
    ensures Rfc768(a) == Rfc768(b) <==> Sum(a) % 0xFFFF == Sum(b) % 0xFFFF
  {
    OnesSumIsResidue(a);
    OnesSumIsResidue(b);
    ComplementClass(Residue(Sum(a)), Residue(Sum(b)));
    ResidueClass(Sum(a));
    ResidueClass(Sum(b));
  }

  lemma SumWithout(b: seq<u16>, i: nat)
    requires i < |b|
    ensures Sum(b) == b[i] + Sum(b[..i] + b[i + 1..])
  {
    SumConcat(b[..i], b[i + 1..]);
    SumConcat(b[..i], b[i..]);
    assert b[..i] + b[i..] == b;
    assert b[i..][1..] == b[i + 1..];
  }

  lemma BagWithout(b: seq<u16>, i: nat)
    requires i < |b|
    ensures multiset(b[..i] + b[i + 1..]) == multiset(b) - multiset{b[i]}
  {
    assert b == b[..i] + [b[i]] + b[i + 1..];
  }

  lemma {:induction false} SumOfBag(a: seq<u16>, b: seq<u16>)
    requires multiset(a) == multiset(b)
    ensures Sum(a) == Sum(b)
    decreases |a|
  {
    if a == [] {
      assert |b| == |multiset(b)| == |multiset(a)| == 0;
    } else {
      assert a[0] in multiset(b);
      var i :| 0 <= i < |b| && b[i] == a[0];
      BagWithout(a, 0);
      BagWithout(b, i);
      SumWithout(a, 0);
      SumWithout(b, i);
      SumOfBag(a[..0] + a[1..], b[..i] + b[i + 1..]);
    }
  }

  /** Reordering aligned words never changes the checksum. */
  lemma PermutationBlind(a: seq<u16>, b: seq<u16>)
    requires multiset(a) == multiset(b)
    ensures Rfc768(a) == Rfc768(b)
  {
    SumOfBag(a, b);
    CollisionLaw(a, b);
  }

  lemma CongruentAfterShift(s: nat, x: nat, y: nat)
    ensures (s + x) % 0xFFFF == (s + y) % 0xFFFF <==> x % 0xFFFF == y % 0xFFFF
  {
    var qs, qx, qy := s / 0xFFFF, x / 0xFFFF, y / 0xFFFF;
    var rs, rx, ry := s % 0xFFFF, x % 0xFFFF, y % 0xFFFF;
    assert (s + x) % 0xFFFF == (rs + rx) % 0xFFFF;
    assert (s + y) % 0xFFFF == (rs + ry) % 0xFFFF;
  }

  lemma CollisionAfterShift(a: seq<u16>, b: seq<u16>, common: nat, x: nat, y: nat)
    requires Sum(a) == common + x && Sum(b) == common + y
    ensures Rfc768(a) == Rfc768(b) <==> x % 0xFFFF == y % 0xFFFF
  {
    CollisionLaw(a, b);
    CongruentAfterShift(common, x, y);
  }

  /** Changing one aligned word always changes the checksum, except between 0x0000 and 0xFFFF. */
  lemma OneWordChange(a: seq<u16>, i: nat, w: u16)
    requires i < |a|
    ensures Rfc768(a[i := w]) == Rfc768(a) <==> w == a[i] || {w, a[i]} == {0, 0xFFFF}
  {
    var b := a[i := w];
    SumWithout(a, i);
    SumWithout(b, i);
    assert b[..i] == a[..i] && b[i + 1..] == a[i + 1..];
    CollisionAfterShift(b, a, Sum(a[..i] + a[i + 1..]), w, a[i]);
    assert w % 0xFFFF == a[i] % 0xFFFF <==> w == a[i] || (w == 0 && a[i] == 0xFFFF) || (w == 0xFFFF && a[i] == 0);
    if {w, a[i]} == {0, 0xFFFF} {
      assert 0 in {w, a[i]} && 0xFFFF in {w, a[i]};
    }
  }

  /** Two probes on one flow with equally long payloads collide exactly when their payload sums do. */
  lemma PayloadCollision(pseudo: seq<u8>, srcPort: u16, dstPort: u16, length: u16, p: seq<u8>, q: seq<u8>)
    requires |pseudo| % 2 == 0
    ensures Rfc768(Words(pseudo + UdpHeader(srcPort, dstPort, length, 0) + p))
         == Rfc768(Words(pseudo + UdpHeader(srcPort, dstPort, length, 0) + q))
       <==> Sum(Words(p)) % 0xFFFF == Sum(Words(q)) % 0xFFFF
  {
    var before := pseudo + UdpHeader(srcPort, dstPort, length, 0);
    ByteSumConcat(before, p);
    ByteSumConcat(before, q);
    CollisionAfterShift(Words(before + p), Words(before + q), Sum(Words(before)), Sum(Words(p)), Sum(Words(q)));
  }
}
