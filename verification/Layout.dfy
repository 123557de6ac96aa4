/** Every datagram of the protocol, byte by byte, and what either side reads from any bytes. */
module Layout {
  import opened Words
  import opened Rtp
  import opened Sender
  import Crc32
  import Receiver
  import Segments

  /** A message of the given type and number with the given content: eleven header bytes, numbers with
      the least significant byte first, and a checksum over the message with its own field cleared. */
  predicate OnWire(d: seq<bv8>, typ: bv8, n: nat, content: seq<bv8>) {
    && |d| == 11 + |content| && d[11..] == content
    && d[0] == typ
    && d[1] as nat == |content| % 256 && d[2] as nat == |content| / 256
    && d[3] as nat == n % 256 && d[4] as nat == n / 0x100 % 256
    && d[5] as nat == n / 0x1_0000 % 256 && d[6] as nat == n / 0x100_0000 % 256
    && var sum := Crc32.Checksum(d[..7] + [0, 0, 0, 0] + content);
       && d[7] == (sum & 0xFF) as bv8 && d[8] == ((sum >> 8) & 0xFF) as bv8
       && d[9] == ((sum >> 16) & 0xFF) as bv8 && d[10] == ((sum >> 24) & 0xFF) as bv8
  }

  lemma NoSum()
    ensures WordBytes(0) == [0, 0, 0, 0]
  {
  }

  lemma PacketOnWire(typ: bv8, n: nat, content: seq<bv8>)
    requires |content| <= 1461 && n < 0x1_0000_0000
    ensures OnWire(Wire(MakePacket(typ, n, content)), typ, n, content)
  {
    hide HeaderBytes, WordBytes, Crc32.Checksum;
    var p := MakePacket(typ, n, content);
    var cleared := p.rtp.(checksum := 0);
    HeaderLayout(p.rtp);
    SumInPlace(p.rtp);
    NoSum();
    assert p.payload[..|content|] == content;
    assert Wire(p) == HeaderBytes(p.rtp) + content;
    assert Wire(p)[..7] == HeaderBytes(p.rtp)[..7];
    assert PacketSum(p.(rtp := cleared)) == Crc32.Checksum(HeaderBytes(cleared) + content);
    assert p.rtp.checksum == Crc32.Checksum(Wire(p)[..7] + [0, 0, 0, 0] + content);
  }

  lemma SumInPlace(h: Header)
    ensures HeaderBytes(h.(checksum := 0)) == HeaderBytes(h)[..7] + WordBytes(0)
  {
    hide Bytes, WordBytes;
  }

  /** A DATA message has type 2 and carries the bytes of its segment. */
  lemma DataOnWire(file: seq<bv8>, s: nat)
    requires s < 0x1_0000_0000
    ensures OnWire(DataMessage(file, s), 2, s, Segments.Read(file, s))
    ensures DataMessage(file, s)[0] == 2 && |DataMessage(file, s)| == 11 + |Segments.Read(file, s)|
  {
    hide Wire, MakePacket, Segments.Read;
    PacketOnWire(2, s, Segments.Read(file, s));
  }

  /** An END has type 1, and an ACK type 3. */
  lemma EndAndAckOnWire(n: nat)
    requires n < 0x1_0000_0000
    ensures OnWire(EndMessage(n), 1, n, []) && EndMessage(n)[0] == 1
    ensures OnWire(Receiver.AckMessage(n), 3, n, []) && Receiver.AckMessage(n)[0] == 3
  {
    hide Wire, MakePacket, HeaderBytes, MakeHeader, HeaderIntact, ReadHeader;
    HeaderAsPacket(1, n);
    HeaderAsPacket(3, n);
    PacketOnWire(1, n, []);
    PacketOnWire(3, n, []);
  }

  // ----- reading -----

  /** A number of four bytes, least significant first. */
  function Number(s: seq<bv8>): nat
    requires |s| == 4
  {
    s[0] as nat + 0x100 * (s[1] as nat) + 0x1_0000 * (s[2] as nat) + 0x100_0000 * (s[3] as nat)
  }

  lemma ValueIsNumber(s: seq<bv8>)
    requires |s| == 4
    ensures Value(s) == Number(s)
  {
    hide NatOf;
    var a, b, c := s[1..], s[2..], s[3..];
    assert s[1..][1..] == b && s[2..][1..] == c && c[1..] == [];
    assert Value(c) == NatOf(s[3]) && Value(b) == NatOf(s[2]) + 256 * Value(c);
    assert Value(a) == NatOf(s[1]) + 256 * Value(b) && Value(s) == NatOf(s[0]) + 256 * Value(a);
    NumberIs(s);
  }

  lemma NumberIs(s: seq<bv8>)
    requires |s| == 4
    ensures Number(s)
         == NatOf(s[0]) + 0x100 * NatOf(s[1]) + 0x1_0000 * NatOf(s[2]) + 0x100_0000 * NatOf(s[3])
  {
  }

  lemma TwoByteValue(s: seq<bv8>)
    requires |s| == 2
    ensures Value(s) == s[0] as nat + 256 * (s[1] as nat)
  {
    assert s[1..][1..] == [] && s[1..][0] == s[1];
    assert Value(s[1..]) == NatOf(s[1]) + 256 * Value([]);
  }

  /** The receive buffer after the datagram `d`. */
  predicate Buffer(d: Datagram, b: seq<bv8>) {
    |d| <= 1472 && |b| == 1472 && b[..|d|] == d && forall i :: |d| <= i < 1472 ==> b[i] == 0
  }

  lemma BufferIs(d: Datagram, b: seq<bv8>)
    requires Buffer(d, b)
    ensures b == d + Zeros(PACKET_SIZE - |d|)
  {
  }

  lemma BufferAsPacket(d: Datagram, h: seq<bv8>, payload: seq<bv8>)
    requires |h| == 11 && Buffer(d, h + payload)
    ensures |d| <= PACKET_SIZE && ReadPacket(d) == Packet(ReadHeader(h), payload) && |payload| == 1461
  {
    hide ReadHeader;
    BufferIs(d, h + payload);
    assert (h + payload)[..11] == h && (h + payload)[11..] == payload;
  }

  lemma HeaderFieldsRead(s: seq<bv8>)
    requires |s| == 11
    ensures var h := ReadHeader(s);
      h.typ == s[0] && h.length == s[1] as nat + 256 * (s[2] as nat) && h.seqNum == Number(s[3..7])
  {
    hide Value, Number, WordValue;
    TwoByteValue(s[1..3]);
    ValueIsNumber(s[3..7]);
  }

  lemma SumIsOver(s: seq<bv8>, content: seq<bv8>)
    requires |s| == 11
    ensures HeaderBytes(ReadHeader(s).(checksum := 0)) + content == s[..7] + [0, 0, 0, 0] + content
    ensures WordBytes(ReadHeader(s).checksum) == s[7..11]
  {
    hide HeaderBytes, ReadHeader, WordBytes;
    HeaderSummed(s);
    NoSum();
    assert Summed(s) == s[..7] + [0, 0, 0, 0];
  }

  lemma SameWord(s: seq<bv8>, a: bv32, b: bv32)
    requires WordBytes(a) == s
    ensures a == b <==> s == WordBytes(b)
  {
    hide WordBytes;
    if s == WordBytes(b) {
      WordBytesInjective(a, b);
    }
  }

  /** What the receiver reads from any datagram, given its first eleven bytes and the others, followed by
      zeros: the header's fields, and the checksum test over as many bytes as the length field says. */
  lemma ReceivedPacket(d: Datagram, h: seq<bv8>, payload: seq<bv8>)
    requires |h| == 11 && Buffer(d, h + payload)
    ensures |d| <= 1472 && |payload| == 1461
    ensures var p := ReadPacket(d);
      && p.rtp.typ == h[0] && p.rtp.length == h[1] as nat + 256 * (h[2] as nat) && p.rtp.seqNum == Number(h[3..7])
      && p.payload == payload
      && (p.rtp.length <= 1461 ==>
            && Content(p) == payload[..p.rtp.length]
            && (PacketIntact(p) <==>
                  h[7..11] == WordBytes(Crc32.Checksum(h[..7] + [0, 0, 0, 0] + payload[..p.rtp.length]))))
  {
    hide WordBytes, Crc32.Checksum, HeaderBytes, Number, ReadHeader, ReadPacket, Buffer;
    BufferAsPacket(d, h, payload);
    HeaderFieldsRead(h);
    var p := ReadPacket(d);
    if p.rtp.length <= 1461 {
      SumIsOver(h, payload[..p.rtp.length]);
      SameWord(h[7..11], p.rtp.checksum, PacketSum(p));
    }
  }

  /** The header at position `k` of a message is an intact ACK with number `n`. */
  predicate AckAt(message: Datagram, k: nat, n: nat)
    requires 11 * (k + 1) <= |message|
  {
    var s := message[11 * k..11 * k + 11];
    s[0] == 3 && Number(s[3..7]) == n && s[7..11] == WordBytes(Crc32.Checksum(s[..7] + [0, 0, 0, 0]))
  }

  lemma AcceptedIsAckAt(message: Datagram, k: nat, n: nat)
    requires 11 * (k + 1) <= |message|
    ensures AckAt(message, k, n) <==> Accepted(HeaderAt(message, k)) && HeaderAt(message, k).seqNum == n
  {
    hide Value, WordBytes, WordValue, Crc32.Checksum, HeaderBytes, Number;
    var s := message[11 * k..11 * k + 11];
    var h := HeaderAt(message, k);
    assert h == ReadHeader(s);
    HeaderSummed(s);
    ValueIsNumber(s[3..7]);
    NoSum();
    assert Summed(s) == s[..7] + [0, 0, 0, 0];
    if WordBytes(h.checksum) == WordBytes(HeaderSum(h)) {
      WordBytesInjective(h.checksum, HeaderSum(h));
    }
  }

  lemma {:induction false} AckNumbersAre(message: Datagram, k: nat, n: nat)
    requires 11 * k <= |message|
    ensures n in AckNumbers(message, k) <==> exists i :: 0 <= i < k && AckAt(message, i, n)
    decreases k
  {
    hide Accepted, HeaderAt, AckAt;
    if k > 0 {
      AckNumbersAre(message, k - 1, n);
      AcceptedIsAckAt(message, k - 1, n);
      var h := HeaderAt(message, k - 1);
      assert Accepted(h) ==> AckNumbers(message, k) == AckNumbers(message, k - 1) + [h.seqNum];
    }
  }

  /** The sender reads a number from a message exactly if one of its consecutive eleven-byte headers
      is an intact ACK with it. */
  lemma AcksAre(message: Datagram, n: nat)
    ensures n in Acks(message) <==> exists k :: 0 <= k < |message| / 11 && AckAt(message, k, n)
  {
    hide AckAt, AckNumbers;
    AckNumbersAre(message, |message| / 11, n);
  }
}
