/**
 Writing captured packets as a libpcap file, and a reader of that format (24-byte file header, then
 records of a 16-byte header and data, all little-endian) that the writer is measured against.
 */
module PcapFile {
  import opened Bytes

  const U32_RANGE := 0x1_0000_0000

  /** Timestamps are signed 64-bit in the source and cut to 32 bits in the file. */
  datatype CapturedPacket = CapturedPacket(tsSec: int, tsUsec: int, origLen: u32, data: seq<u8>, session: Option<string>)

  datatype Record = Record(tsSec: u32, tsUsec: u32, origLen: u32, data: seq<u8>)

  datatype Capture = Capture(snaplen: u32, linkType: u32, records: seq<Record>)

  function AsU32(x: int): u32 {
    x % U32_RANGE
  }

  function RecordBytes(p: CapturedPacket): seq<u8> {
    Le32(AsU32(p.tsSec)) + Le32(AsU32(p.tsUsec)) + Le32(AsU32(|p.data|)) + Le32(p.origLen) + p.data
  }

  function Records(packets: seq<CapturedPacket>): seq<seq<u8>> {
    seq(|packets|, i requires 0 <= i < |packets| => RecordBytes(packets[i]))
  }

  function AllRecordBytes(packets: seq<CapturedPacket>): seq<u8> {
    Concat(Records(packets))
  }

  function HeaderBytes(linkType: int, snaplen: u32): seq<u8> {
    Le32(0xa1b2c3d4) + Le16(2) + Le16(4) + Le32(0) + Le32(0) + Le32(snaplen) + Le32(AsU32(linkType))
  }

  method PacketsToPcap(packets: seq<CapturedPacket>, linkType: int, snaplen: u32) returns (output: seq<u8>)
    ensures output == HeaderBytes(linkType, snaplen) + AllRecordBytes(packets)
  {
    output := WriteHeader(linkType, snaplen);
    for i := 0 to |packets|
      invariant output == HeaderBytes(linkType, snaplen) + AllRecordBytes(packets[..i])
    {
      var p := packets[i];
      var record := WriteRecord(p);
      OneMoreRecord(packets, i);
      output := output + record;
    }
    assert packets[..|packets|] == packets;
  }

  method WriteHeader(linkType: int, snaplen: u32) returns (output: seq<u8>)
    ensures output == HeaderBytes(linkType, snaplen)
  {
    output := Le32(0xa1b2c3d4);
    output := output + Le16(2);
    output := output + Le16(4);
    output := output + Le32(0);
    output := output + Le32(0);
    output := output + Le32(snaplen);
    output := output + Le32(AsU32(linkType));
  }

  method WriteRecord(p: CapturedPacket) returns (record: seq<u8>)
    ensures record == RecordBytes(p)
  {
    record := Le32(AsU32(p.tsSec));
    record := record + Le32(AsU32(p.tsUsec));
    record := record + Le32(AsU32(|p.data|));
    record := record + Le32(p.origLen);
    record := record + p.data;
  }

  lemma OneMoreRecord(packets: seq<CapturedPacket>, i: nat)
    requires i < |packets|
    ensures AllRecordBytes(packets[..i + 1]) == AllRecordBytes(packets[..i]) + RecordBytes(packets[i])
  {
    assert Records(packets[..i + 1]) == Records(packets[..i]) + [RecordBytes(packets[i])];
    ConcatAppend(Records(packets[..i]), RecordBytes(packets[i]));
  }

  lemma {:induction false} ConcatAppend(parts: seq<seq<u8>>, last: seq<u8>)
    ensures Concat(parts + [last]) == Concat(parts) + last
  {
    if parts == [] {
      assert parts + [last] == [last];
      assert [last][1..] == [];
    } else {
      ConcatAppend(parts[1..], last);
      assert (parts + [last])[1..] == parts[1..] + [last];
    }
  }

  // ---------------------------------------------------------------------------------------
  // The reader
  // ---------------------------------------------------------------------------------------

  function ReadLe32(s: seq<u8>, at: nat): u32
    requires at + 4 <= |s|
  {
    var a: int, b: int, c: int, d: int := s[at], s[at + 1], s[at + 2], s[at + 3];
    a + 0x100 * b + 0x1_0000 * c + 0x100_0000 * d
  }

  function ReadRecords(s: seq<u8>): Option<seq<Record>>
    decreases |s|
  {
    if s == [] then Some([])
    else if |s| < 16 then None
    else
      var length := ReadLe32(s, 8);
      if |s| < 16 + length then None
      else
        match ReadRecords(s[16 + length..])
        case None => None
        case Some(rest) =>
          Some([Record(ReadLe32(s, 0), ReadLe32(s, 4), ReadLe32(s, 12), s[16..16 + length])] + rest)
  }

  function ReadCapture(s: seq<u8>): Option<Capture> {
    if |s| < 24 || ReadLe32(s, 0) != 0xa1b2c3d4 || s[4..8] != [2, 0, 4, 0] then None
    else
      match ReadRecords(s[24..])
      case None => None
      case Some(records) => Some(Capture(ReadLe32(s, 16), ReadLe32(s, 20), records))
  }

  function RecordOf(p: CapturedPacket): Record {
    Record(AsU32(p.tsSec), AsU32(p.tsUsec), p.origLen, p.data)
  }

  function RecordsOf(packets: seq<CapturedPacket>): seq<Record> {
    seq(|packets|, i requires 0 <= i < |packets| => RecordOf(packets[i]))
  }

  lemma ReadHead(x: u32, rest: seq<u8>)
    ensures ReadLe32(Le32(x) + rest, 0) == x && (Le32(x) + rest)[4..] == rest
  {
  }

  lemma ReadPast(s: seq<u8>, at: nat)
    requires at + 8 <= |s|
    ensures ReadLe32(s, at + 4) == ReadLe32(s[4..], at)
  {
  }

  /** Four words at the start of a sequence, and what follows them. */
  lemma FourWords(a: u32, b: u32, c: u32, d: u32, rest: seq<u8>)
    ensures var s := Le32(a) + (Le32(b) + (Le32(c) + (Le32(d) + rest)));
            && ReadLe32(s, 0) == a && ReadLe32(s, 4) == b && ReadLe32(s, 8) == c && ReadLe32(s, 12) == d
            && s[16..] == rest
  {
    var s3 := Le32(d) + rest;
    var s2 := Le32(c) + s3;
    var s1 := Le32(b) + s2;
    var s := Le32(a) + s1;
    ReadHead(d, rest);
    ReadHead(c, s3);
    ReadHead(b, s2);
    ReadHead(a, s1);
    ReadPast(s, 0);
    ReadPast(s, 4);
    ReadPast(s1, 0);
    ReadPast(s, 8);
    ReadPast(s1, 4);
    ReadPast(s2, 0);
  }

  lemma RecordFields(p: CapturedPacket, rest: seq<u8>)
    requires |p.data| < U32_RANGE
    ensures var s := RecordBytes(p) + rest;
            && |s| == 16 + |p.data| + |rest|
            && ReadLe32(s, 0) == AsU32(p.tsSec) && ReadLe32(s, 4) == AsU32(p.tsUsec)
            && ReadLe32(s, 8) == |p.data| && ReadLe32(s, 12) == p.origLen
            && s[16..] == p.data + rest
  {
    var a, b, c, d := AsU32(p.tsSec), AsU32(p.tsUsec), AsU32(|p.data|), p.origLen;
    FourWords(a, b, c, d, p.data + rest);
    assert RecordBytes(p) + rest == Le32(a) + (Le32(b) + (Le32(c) + (Le32(d) + (p.data + rest))));
  }

  lemma ReadsOneRecord(p: CapturedPacket, rest: seq<u8>, records: seq<Record>)
    requires |p.data| < U32_RANGE && ReadRecords(rest) == Some(records)
    ensures ReadRecords(RecordBytes(p) + rest) == Some([RecordOf(p)] + records)
  {
    var s, n := RecordBytes(p) + rest, |p.data|;
    RecordFields(p, rest);
    SplitData(s, p.data, rest);
  }

  lemma SplitData(s: seq<u8>, data: seq<u8>, rest: seq<u8>)
    requires |s| >= 16 && s[16..] == data + rest
    ensures s[16..16 + |data|] == data && s[16 + |data|..] == rest
  {
    assert s[16..16 + |data|] == s[16..][..|data|];
    assert s[16 + |data|..] == s[16..][|data|..];
  }

  lemma UnfoldRecords(packets: seq<CapturedPacket>)
    requires packets != []
    ensures AllRecordBytes(packets) == RecordBytes(packets[0]) + AllRecordBytes(packets[1..])
    ensures RecordsOf(packets) == [RecordOf(packets[0])] + RecordsOf(packets[1..])
  {
    assert Records(packets)[1..] == Records(packets[1..]);
  }

  lemma {:induction false} ReadsAllRecords(packets: seq<CapturedPacket>)
    requires forall i | 0 <= i < |packets| :: |packets[i].data| < U32_RANGE
    ensures ReadRecords(AllRecordBytes(packets)) == Some(RecordsOf(packets))
  {
    if packets == [] {
      assert RecordsOf(packets) == [] && AllRecordBytes(packets) == [];
    } else {
      ReadsAllRecords(packets[1..]);
      UnfoldRecords(packets);
      ReadsOneRecord(packets[0], AllRecordBytes(packets[1..]), RecordsOf(packets[1..]));
    }
  }

  lemma HeaderFields(linkType: int, snaplen: u32, rest: seq<u8>)
    ensures var s := HeaderBytes(linkType, snaplen) + rest;
            && |HeaderBytes(linkType, snaplen)| == 24
            && ReadLe32(s, 0) == 0xa1b2c3d4 && s[4..8] == [2, 0, 4, 0]
            && ReadLe32(s, 16) == snaplen && ReadLe32(s, 20) == AsU32(linkType) && s[24..] == rest
  {
    var s := HeaderBytes(linkType, snaplen) + rest;
    var fields := Le32(snaplen) + (Le32(AsU32(linkType)) + rest);
    HeaderStart(linkType, snaplen, rest);
    FourWords(0xa1b2c3d4, 0x4_0002, 0, 0, fields);
    assert s[4..8] == Le32(0x4_0002);
    ReadHead(snaplen, Le32(AsU32(linkType)) + rest);
    ReadHead(AsU32(linkType), rest);
    ReadPast(fields, 0);
    ReadFrom16(s, 0);
    ReadFrom16(s, 4);
    assert s[24..] == s[16..][8..] == rest;
  }

  /** The first four words of the header: magic number, versions, and two zeros. */
  lemma HeaderStart(linkType: int, snaplen: u32, rest: seq<u8>)
    ensures |HeaderBytes(linkType, snaplen)| == 24
    ensures HeaderBytes(linkType, snaplen) + rest
         == Le32(0xa1b2c3d4) + (Le32(0x4_0002) + (Le32(0) + (Le32(0) + (Le32(snaplen) + (Le32(AsU32(linkType)) + rest)))))
  {
    assert Le32(0x4_0002) == [2, 0, 4, 0] == Le16(2) + Le16(4);
    Regroup(Le32(0xa1b2c3d4), Le16(2), Le16(4), Le32(0), Le32(0), Le32(snaplen), Le32(AsU32(linkType)), rest);
  }

  lemma Regroup(a: seq<u8>, b: seq<u8>, c: seq<u8>, d: seq<u8>, e: seq<u8>, f: seq<u8>, g: seq<u8>, rest: seq<u8>)
    ensures a + b + c + d + e + f + g + rest == a + ((b + c) + (d + (e + (f + (g + rest)))))
  {
    assert d + e + f + g + rest == d + (e + (f + (g + rest)));
    assert a + b + c + d + e + f + g + rest == (a + (b + c)) + (d + e + f + g + rest);
  }

  lemma ReadFrom16(s: seq<u8>, at: nat)
    requires 16 + at + 4 <= |s|
    ensures ReadLe32(s, 16 + at) == ReadLe32(s[16..], at)
  {
  }

  predicate FitsU32(x: int) {
    0 <= x < U32_RANGE
  }

  /** The records hold the packets' data in order, and their timestamps exactly when those all fit 32 bits. */
  ghost predicate Recovered(records: seq<Record>, packets: seq<CapturedPacket>) {
    && |records| == |packets|
    && (forall i | 0 <= i < |packets| ::
          records[i].data == packets[i].data && records[i].origLen == packets[i].origLen)
    && ((forall i | 0 <= i < |packets| :: records[i].tsSec == packets[i].tsSec && records[i].tsUsec == packets[i].tsUsec)
        <==> forall i | 0 <= i < |packets| :: FitsU32(packets[i].tsSec) && FitsU32(packets[i].tsUsec))
  }

  lemma RecordsRecover(packets: seq<CapturedPacket>)
    ensures Recovered(RecordsOf(packets), packets)
  {
    assert forall i | 0 <= i < |packets| :: RecordsOf(packets)[i] == RecordOf(packets[i]);
    assert forall x: int :: AsU32(x) == x <==> FitsU32(x);
  }

  /** A libpcap reader recovers the packets from what the writer wrote. */
  lemma ReaderRecoversPackets(packets: seq<CapturedPacket>, linkType: int, snaplen: u32)
    requires forall i | 0 <= i < |packets| :: |packets[i].data| < U32_RANGE
    ensures var read := ReadCapture(HeaderBytes(linkType, snaplen) + AllRecordBytes(packets));
            && read.Some?
            && read.value.snaplen == snaplen && read.value.linkType == AsU32(linkType)
            && Recovered(read.value.records, packets)
  {
    HeaderFields(linkType, snaplen, AllRecordBytes(packets));
    ReadsAllRecords(packets);
    RecordsRecover(packets);
  }

  function TotalSize(packets: seq<CapturedPacket>): nat {
    if packets == [] then 0 else 16 + |packets[0].data| + TotalSize(packets[1..])
  }

  lemma {:induction false} FileSize(packets: seq<CapturedPacket>, linkType: int, snaplen: u32)
    ensures |HeaderBytes(linkType, snaplen) + AllRecordBytes(packets)| == 24 + TotalSize(packets)
  {
    if packets != [] {
      FileSize(packets[1..], linkType, snaplen);
      assert Records(packets)[1..] == Records(packets[1..]);
    }
  }
}
