/** RTP headers and packets (rtp.h), how they are built, laid out and checked. */
module Rtp {
  import opened Words
  import Crc32

  /** Cumulative ACKs with restart, or selective ACKs with selective retransmission. */
  datatype Mode = Basic | Opt

  const END: bv8 := 1
  const DATA: bv8 := 2
  const ACK: bv8 := 3

  const HEADER_SIZE: nat := 11
  const PAYLOAD_SIZE: nat := 1461
  const PACKET_SIZE: nat := 1472

  /** What travels in one UDP message. */
  type Datagram = seq<bv8>

  datatype Header = Header(typ: bv8, length: nat, seqNum: nat, checksum: bv32)

  /** A packet structure: the payload array is always PAYLOAD_SIZE long. */
  datatype Packet = Packet(rtp: Header, payload: seq<bv8>)

  function Zeros(n: nat): (s: seq<bv8>)
    ensures |s| == n
  {
    seq(n, _ => 0)
  }

  // ----- layout -----

  /** The packed, little-endian header structure. */
  function HeaderBytes(h: Header): (s: Datagram)
    ensures |s| == HEADER_SIZE
  {
    [h.typ] + Bytes(h.length, 2) + Bytes(h.seqNum, 4) + WordBytes(h.checksum)
  }

  function ReadHeader(s: Datagram): Header
    requires |s| == HEADER_SIZE
  {
    Header(s[0], Value(s[1..3]), Value(s[3..7]), WordValue(s[7..11]))
  }

  /** The datagram that carries the header and `length` payload bytes. */
  function Wire(p: Packet): Datagram {
    HeaderBytes(p.rtp) + p.payload[..Min(p.rtp.length, |p.payload|)]
  }

  /** The receive buffer: cleared, then filled by the datagram, then read as a packet. */
  function ReadPacket(d: Datagram): (p: Packet)
    requires |d| <= PACKET_SIZE
    ensures |p.payload| == PAYLOAD_SIZE
  {
    var buffer := d + Zeros(PACKET_SIZE - |d|);
    Packet(ReadHeader(buffer[..HEADER_SIZE]), buffer[HEADER_SIZE..])
  }

  // ----- construction and acceptance -----

  function HeaderSum(h: Header): bv32 {
    Crc32.Checksum(HeaderBytes(h.(checksum := 0)))
  }

  function PacketSum(p: Packet): bv32 {
    Crc32.Checksum(Wire(p.(rtp := p.rtp.(checksum := 0))))
  }

  /** make_rtp_header with the checksum flag set. */
  function MakeHeader(typ: bv8, length: nat, seqNum: nat): Header {
    var h := Header(typ, length, seqNum, 0);
    h.(checksum := HeaderSum(h))
  }

  /** make_rtp_packet, given the bytes fread delivered. */
  function MakePacket(typ: bv8, seqNum: nat, data: seq<bv8>): (p: Packet)
    requires |data| <= PAYLOAD_SIZE
  {
    var p := Packet(Header(typ, |data|, seqNum, 0), data + Zeros(PAYLOAD_SIZE - |data|));
    p.(rtp := p.rtp.(checksum := PacketSum(p)))
  }

  predicate HeaderIntact(h: Header) {
    h.checksum == HeaderSum(h)
  }

  predicate PacketIntact(p: Packet) {
    p.rtp.checksum == PacketSum(p)
  }

  /** The payload bytes that the length field covers. */
  function Content(p: Packet): seq<bv8> {
    p.payload[..Min(p.rtp.length, |p.payload|)]
  }

  // ----- round trips -----

  predicate Encodable(h: Header) {
    h.length < Range(2) && h.seqNum < Range(4)
  }

  lemma HeaderRoundTrip(h: Header)
    requires Encodable(h)
    ensures ReadHeader(HeaderBytes(h)) == h
  {
    hide Bytes, Value, WordBytes, WordValue;
    var s := HeaderBytes(h);
    assert s[1..3] == Bytes(h.length, 2) && s[3..7] == Bytes(h.seqNum, 4) && s[7..11] == WordBytes(h.checksum);
    ValueOfBytes(h.length, 2);
    ValueOfBytes(h.seqNum, 4);
    WordRoundTrip(h.checksum);
  }

  /** Byte for byte: type, length, sequence number and checksum, least significant bytes first. */
  lemma HeaderLayout(h: Header)
    requires h.length < 0x1_0000 && h.seqNum < 0x1_0000_0000
    ensures var s := HeaderBytes(h);
      && |s| == 11 && s[0] == h.typ
      && s[1] as nat == h.length % 256 && s[2] as nat == h.length / 256
      && s[3] as nat == h.seqNum % 256 && s[4] as nat == h.seqNum / 0x100 % 256
      && s[5] as nat == h.seqNum / 0x1_0000 % 256 && s[6] as nat == h.seqNum / 0x100_0000 % 256
      && s[7] == (h.checksum & 0xFF) as bv8 && s[8] == ((h.checksum >> 8) & 0xFF) as bv8
      && s[9] == ((h.checksum >> 16) & 0xFF) as bv8 && s[10] == ((h.checksum >> 24) & 0xFF) as bv8
  {
    hide Bytes;
    TwoBytes(h.length);
    FourBytes(h.seqNum);
  }

  lemma HeaderBytesRoundTrip(s: Datagram)
    requires |s| == HEADER_SIZE
    ensures Encodable(ReadHeader(s)) && HeaderBytes(ReadHeader(s)) == s
  {
    hide Bytes, Value, WordBytes, WordValue;
    BytesOfValue(s[1..3]);
    BytesOfValue(s[3..7]);
    WordBytesRoundTrip(s[7..11]);
    assert s == [s[0]] + s[1..3] + s[3..7] + s[7..11];
  }

  /** A sent packet is received with every field unchanged and passes the checksum test. */
  lemma PacketRoundTrip(typ: bv8, seqNum: nat, data: seq<bv8>)
    requires |data| <= PAYLOAD_SIZE && seqNum < U32
    ensures |Wire(MakePacket(typ, seqNum, data))| == HEADER_SIZE + |data|
    ensures ReadPacket(Wire(MakePacket(typ, seqNum, data))) == MakePacket(typ, seqNum, data)
    ensures PacketIntact(MakePacket(typ, seqNum, data)) && Content(MakePacket(typ, seqNum, data)) == data
  {
    hide HeaderBytes, ReadHeader, Crc32.Checksum, Range;
    var p := MakePacket(typ, seqNum, data);
    var d := Wire(p);
    Ranges();
    HeaderRoundTrip(p.rtp);
    assert p.payload[..|data|] == data;
    var buffer := d + Zeros(PACKET_SIZE - |d|);
    assert buffer[..HEADER_SIZE] == HeaderBytes(p.rtp);
    assert buffer[HEADER_SIZE..] == data + Zeros(PAYLOAD_SIZE - |data|);
    assert PacketSum(p) == PacketSum(p.(rtp := p.rtp.(checksum := 0)));
  }

  /** A header sent on its own, as START, END and ACK are, is also a packet without content. */
  lemma HeaderAsPacket(typ: bv8, seqNum: nat)
    requires seqNum < U32
    ensures HeaderBytes(MakeHeader(typ, 0, seqNum)) == Wire(MakePacket(typ, seqNum, []))
    ensures ReadHeader(HeaderBytes(MakeHeader(typ, 0, seqNum))) == MakeHeader(typ, 0, seqNum)
    ensures HeaderIntact(MakeHeader(typ, 0, seqNum))
  {
    hide HeaderBytes, ReadHeader, Crc32.Checksum, Range;
    var h := MakeHeader(typ, 0, seqNum);
    Ranges();
    HeaderRoundTrip(h);
    var p := Packet(Header(typ, 0, seqNum, 0), [] + Zeros(PAYLOAD_SIZE));
    assert Wire(p) == HeaderBytes(p.rtp);
    assert h.(checksum := 0) == p.rtp;
  }

  lemma SentLength(typ: bv8, seqNum: nat, data: seq<bv8>)
    requires |data| <= PAYLOAD_SIZE
    ensures var h := MakePacket(typ, seqNum, data).rtp; h.typ == typ && h.length == |data| && h.seqNum == seqNum
  {
  }

  // ----- damaged datagrams -----

  /** `d'` is `d` with some bytes of positions `lo` to `hi - 1` changed. */
  predicate ChangedWithin(d: Datagram, d': Datagram, lo: nat, hi: nat) {
    lo <= hi <= |d| == |d'| && d != d' && d[..lo] == d'[..lo] && d[hi..] == d'[hi..]
  }

  /** The bytes a checksum is computed over: the datagram with its checksum field cleared. */
  function Summed(d: Datagram): Datagram
    requires |d| >= HEADER_SIZE
  {
    d[..7] + WordBytes(0) + d[HEADER_SIZE..]
  }

  /** What the checksum field should hold. */
  function SumField(d: Datagram): seq<bv8>
    requires |d| >= HEADER_SIZE
  {
    WordBytes(Crc32.Checksum(Summed(d)))
  }

  lemma WordBytesInjective(a: bv32, b: bv32)
    requires WordBytes(a) == WordBytes(b)
    ensures a == b
  {
    hide *;
    WordRoundTrip(a);
    WordRoundTrip(b);
  }

  lemma HeaderSummed(s: Datagram)
    requires |s| == HEADER_SIZE
    ensures HeaderBytes(ReadHeader(s).(checksum := 0)) == Summed(s)
    ensures WordBytes(ReadHeader(s).checksum) == s[7..11]
  {
    hide Bytes, Value, WordBytes, WordValue;
    BytesOfValue(s[1..3]);
    BytesOfValue(s[3..7]);
    WordBytesRoundTrip(s[7..11]);
    assert s[..7] == [s[0]] + s[1..3] + s[3..7];
  }

  lemma PacketSummed(d: Datagram)
    requires HEADER_SIZE <= |d| <= PACKET_SIZE && ReadPacket(d).rtp.length == |d| - HEADER_SIZE
    ensures PacketSum(ReadPacket(d)) == Crc32.Checksum(Summed(d))
    ensures WordBytes(ReadPacket(d).rtp.checksum) == d[7..11]
  {
    hide HeaderBytes, ReadHeader, WordBytes, Crc32.Checksum;
    var p := ReadPacket(d);
    var buffer := d + Zeros(PACKET_SIZE - |d|);
    var s := buffer[..HEADER_SIZE];
    assert s == d[..HEADER_SIZE];
    HeaderSummed(s);
    assert p.payload[..|d| - HEADER_SIZE] == d[HEADER_SIZE..];
    assert Summed(s) + d[HEADER_SIZE..] == Summed(d);
  }

  lemma CutBefore<T>(d: seq<T>, w: seq<T>, lo: nat, hi: nat)
    requires lo <= hi <= 7 && HEADER_SIZE <= |d|
    ensures d[..7] + w + d[HEADER_SIZE..] == d[..lo] + d[lo..hi] + (d[hi..7] + w + d[HEADER_SIZE..])
  {
  }

  lemma CutAfter<T>(d: seq<T>, w: seq<T>, lo: nat, hi: nat)
    requires HEADER_SIZE <= lo <= hi <= |d|
    ensures d[..7] + w + d[HEADER_SIZE..] == (d[..7] + w + d[HEADER_SIZE..lo]) + d[lo..hi] + d[hi..]
  {
  }

  lemma Outside<T>(d: seq<T>, d': seq<T>, lo: nat, hi: nat)
    requires lo <= hi <= |d| == |d'| && d != d' && d[..lo] == d'[..lo] && d[hi..] == d'[hi..]
    ensures forall i :: 0 <= i < |d| && (i < lo || hi <= i) ==> d[i] == d'[i]
    ensures d[lo..hi] != d'[lo..hi]
  {
    forall i | 0 <= i < |d| && (i < lo || hi <= i)
      ensures d[i] == d'[i]
    {
      if i < lo {
        assert d[i] == d[..lo][i] && d'[i] == d'[..lo][i];
      } else {
        assert d[i] == d[hi..][i - hi] && d'[i] == d'[hi..][i - hi];
      }
    }
    assert d == d[..lo] + d[lo..hi] + d[hi..];
    assert d' == d'[..lo] + d'[lo..hi] + d'[hi..];
  }

  /** A change of at most four bytes outside the checksum field changes the computed checksum. */
  lemma BurstChangesSum(d: Datagram, d': Datagram, lo: nat, hi: nat)
    requires |d| >= HEADER_SIZE && ChangedWithin(d, d', lo, hi) && hi <= lo + 4
    requires hi <= 7 || HEADER_SIZE <= lo
    ensures SumField(d) != SumField(d')
  {
    hide WordBytes, Crc32.Checksum;
    if SumField(d) == SumField(d') {
      WordBytesInjective(Crc32.Checksum(Summed(d)), Crc32.Checksum(Summed(d')));
    }
    var w := WordBytes(0);
    Outside(d, d', lo, hi);
    if hi <= 7 {
      CutBefore(d, w, lo, hi);
      CutBefore(d', w, lo, hi);
      assert d[hi..7] == d'[hi..7] && d[HEADER_SIZE..] == d'[HEADER_SIZE..];
      Crc32.BurstDetected(d[..lo], d[lo..hi], d'[lo..hi], d[hi..7] + w + d[HEADER_SIZE..]);
    } else {
      CutAfter(d, w, lo, hi);
      CutAfter(d', w, lo, hi);
      assert d[..7] == d'[..7] && d[HEADER_SIZE..lo] == d'[HEADER_SIZE..lo];
      Crc32.BurstDetected(d[..7] + w + d[HEADER_SIZE..lo], d[lo..hi], d'[lo..hi], d[hi..]);
    }
  }

  /** A damaged datagram does not carry the checksum it should. */
  lemma BurstRejected(d: Datagram, d': Datagram, lo: nat, hi: nat)
    requires |d| >= HEADER_SIZE && ChangedWithin(d, d', lo, hi) && hi <= lo + 4
    requires hi <= 7 || (7 <= lo && hi <= HEADER_SIZE) || HEADER_SIZE <= lo
    requires d[7..11] == SumField(d)
    ensures d'[7..11] != SumField(d')
  {
    hide WordBytes, Crc32.Checksum;
    Outside(d, d', lo, hi);
    if 7 <= lo && hi <= HEADER_SIZE {
      assert d[..7] == d'[..7] && d[HEADER_SIZE..] == d'[HEADER_SIZE..];
      assert d == d[..7] + d[7..11] + d[11..] && d' == d'[..7] + d'[7..11] + d'[11..];
    } else {
      assert d[7..11] == d'[7..11];
      BurstChangesSum(d, d', lo, hi);
    }
  }

  lemma PacketIntactIsSumField(d: Datagram)
    requires HEADER_SIZE <= |d| <= PACKET_SIZE && ReadPacket(d).rtp.length == |d| - HEADER_SIZE
    ensures PacketIntact(ReadPacket(d)) <==> d[7..11] == SumField(d)
  {
    hide ReadPacket, WordBytes, Crc32.Checksum, PacketSum;
    PacketSummed(d);
    if d[7..11] == SumField(d) {
      WordBytesInjective(ReadPacket(d).rtp.checksum, Crc32.Checksum(Summed(d)));
    }
  }

  lemma HeaderIntactIsSumField(d: Datagram)
    requires |d| == HEADER_SIZE
    ensures HeaderIntact(ReadHeader(d)) <==> d[7..11] == SumField(d)
  {
    hide ReadHeader, WordBytes, Crc32.Checksum;
    HeaderSummed(d);
    if d[7..11] == SumField(d) {
      WordBytesInjective(ReadHeader(d).checksum, Crc32.Checksum(Summed(d)));
    }
  }

  lemma LengthField(d: Datagram)
    requires HEADER_SIZE <= |d| <= PACKET_SIZE
    ensures ReadPacket(d).rtp.length == Value(d[1..3])
  {
    assert (d + Zeros(PACKET_SIZE - |d|))[..HEADER_SIZE][1..3] == d[1..3];
  }

  /** A change confined to the type, the sequence number, the checksum or the payload. */
  predicate WithinOneField(lo: nat, hi: nat) {
    hi <= 1 || (3 <= lo && hi <= 7) || (7 <= lo && hi <= HEADER_SIZE) || HEADER_SIZE <= lo
  }

  /** The receiver rejects every sent packet damaged within four consecutive bytes of one field. */
  lemma DamagedPacketRejected(typ: bv8, seqNum: nat, data: seq<bv8>, d': Datagram, lo: nat, hi: nat)
    requires |data| <= PAYLOAD_SIZE && seqNum < U32
    requires ChangedWithin(Wire(MakePacket(typ, seqNum, data)), d', lo, hi)
    requires hi <= lo + 4 && WithinOneField(lo, hi)
    ensures |d'| <= PACKET_SIZE && ReadPacket(d').rtp.length == |data|
    ensures !PacketIntact(ReadPacket(d'))
  {
    hide Wire, MakePacket, ReadPacket, SumField, PacketIntact, Value;
    var d := Wire(MakePacket(typ, seqNum, data));
    PacketRoundTrip(typ, seqNum, data);
    SentLength(typ, seqNum, data);
    LengthField(d);
    LengthField(d');
    Outside(d, d', lo, hi);
    assert d[1..3] == d'[1..3];
    PacketIntactIsSumField(d);
    PacketIntactIsSumField(d');
    BurstRejected(d, d', lo, hi);
  }

  /** The sender rejects every ACK damaged within four consecutive bytes before or inside the checksum. */
  lemma DamagedHeaderRejected(typ: bv8, seqNum: nat, d': Datagram, lo: nat, hi: nat)
    requires seqNum < U32
    requires ChangedWithin(HeaderBytes(MakeHeader(typ, 0, seqNum)), d', lo, hi)
    requires hi <= lo + 4 && (hi <= 7 || 7 <= lo)
    ensures !HeaderIntact(ReadHeader(d'))
  {
    var d := HeaderBytes(MakeHeader(typ, 0, seqNum));
    HeaderAsPacket(typ, seqNum);
    hide HeaderBytes, MakeHeader, ReadHeader, SumField, HeaderIntact;
    HeaderIntactIsSumField(d);
    HeaderIntactIsSumField(d');
    BurstRejected(d, d', lo, hi);
  }
}
