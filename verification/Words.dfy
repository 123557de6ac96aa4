/** Fixed-width unsigned arithmetic and little-endian fields. */
module Words {

  const U32: nat := 0x1_0000_0000

  /** uint32_t addition, which wraps. */
  function Add32(a: nat, b: nat): (r: nat)
    ensures a + b < U32 ==> r == a + b
  {
    (a + b) % U32
  }

  /** uint32_t multiplication, which wraps. */
  function Mul32(a: nat, b: nat): (r: nat)
    ensures a * b < U32 ==> r == a * b
  {
    (a * b) % U32
  }

  function Min(a: nat, b: nat): nat {
    if a <= b then a else b
  }

  /** The number of values of `width` bytes. */
  function Range(width: nat): (r: nat)
    ensures r > 0
  {
    if width == 0 then 1 else 256 * Range(width - 1)
  }

  /** The low `width` bytes of `n`, least significant first. */
  function Bytes(n: nat, width: nat): (s: seq<bv8>)
    ensures |s| == width
    decreases width
  {
    if width == 0 then [] else [ByteOf(n % 256)] + Bytes(n / 256, width - 1)
  }

  function Value(s: seq<bv8>): nat {
    if s == [] then 0 else NatOf(s[0]) + 256 * Value(s[1..])
  }

  function ByteOf(n: nat): bv8
    requires n < 256
  {
    n as bv8
  }

  function NatOf(b: bv8): (n: nat)
    ensures n < 256
  {
    b as nat
  }

  lemma NextByte(b: bv8)
    requires b < 255
    ensures NatOf(b + 1) == NatOf(b) + 1
  {
  }

  /** Every value below 256 is the value of some byte. */
  lemma {:induction false} ByteWithValue(n: nat) returns (b: bv8)
    requires n < 256
    ensures NatOf(b) == n
  {
    if n == 0 {
      b := 0;
    } else {
      b := ByteWithValue(n - 1);
      NextByte(b);
      b := b + 1;
    }
  }

  lemma NatRoundTrip(b: bv8)
    ensures ByteOf(NatOf(b)) == b
  {
  }

  lemma ByteRoundTrip(n: nat)
    requires n < 256
    ensures NatOf(ByteOf(n)) == n
  {
    hide NatOf, ByteOf;
    var b := ByteWithValue(n);
    NatRoundTrip(b);
  }

  lemma {:induction false} ValueOfBytes(n: nat, width: nat)
    requires n < Range(width)
    ensures Value(Bytes(n, width)) == n
    decreases width
  {
    hide NatOf, ByteOf;
    if width > 0 {
      assert n / 256 < Range(width - 1);
      ValueOfBytes(n / 256, width - 1);
      ByteRoundTrip(n % 256);
      assert Bytes(n, width)[1..] == Bytes(n / 256, width - 1);
    }
  }

  lemma LowDigit(low: nat, high: nat)
    requires low < 256
    ensures (low + 256 * high) % 256 == low && (low + 256 * high) / 256 == high
  {
  }

  lemma InRange(low: nat, high: nat, width: nat)
    requires low < 256 && high < Range(width)
    ensures low + 256 * high < Range(width + 1)
  {
  }

  lemma {:induction false} BytesOfValue(s: seq<bv8>)
    ensures Value(s) < Range(|s|)
    ensures Bytes(Value(s), |s|) == s
  {
    hide NatOf, ByteOf;
    if s != [] {
      BytesOfValue(s[1..]);
      NatRoundTrip(s[0]);
      LowDigit(NatOf(s[0]), Value(s[1..]));
      InRange(NatOf(s[0]), Value(s[1..]), |s| - 1);
      assert [s[0]] + s[1..] == s;
    }
  }

  /** The first byte is the least significant one. */
  lemma TwoBytes(n: nat)
    requires n < 0x1_0000
    ensures var s := Bytes(n, 2); |s| == 2 && s[0] as nat == n % 256 && s[1] as nat == n / 256
  {
    hide ByteOf;
    ByteRoundTrip(n % 256);
    ByteRoundTrip(n / 256);
    assert Bytes(n / 256, 1) == [ByteOf(n / 256 % 256)] + Bytes(n / 256 / 256, 0);
    assert Bytes(n, 2) == [ByteOf(n % 256)] + Bytes(n / 256, 1);
  }

  lemma FourBytes(n: nat)
    requires n < 0x1_0000_0000
    ensures var s := Bytes(n, 4);
      && |s| == 4 && s[0] as nat == n % 256 && s[1] as nat == n / 0x100 % 256
      && s[2] as nat == n / 0x1_0000 % 256 && s[3] as nat == n / 0x100_0000 % 256
  {
    hide ByteOf;
    var a, b, c := n / 0x100, n / 0x1_0000, n / 0x100_0000;
    assert n / 256 == a && a / 256 == b && b / 256 == c;
    ByteRoundTrip(n % 256);
    ByteRoundTrip(a % 256);
    ByteRoundTrip(b % 256);
    ByteRoundTrip(c % 256);
    assert Bytes(c, 1) == [ByteOf(c % 256)] + Bytes(c / 256, 0);
    assert Bytes(b, 2) == [ByteOf(b % 256)] + Bytes(c, 1);
    assert Bytes(a, 3) == [ByteOf(a % 256)] + Bytes(b, 2);
    assert Bytes(n, 4) == [ByteOf(n % 256)] + Bytes(a, 3);
  }

  /** 32-bit sums wrap at most once. */
  lemma Add32Wraps(a: nat, b: nat)
    requires a < 0x1_0000_0000 && b < 0x1_0000_0000
    ensures Add32(a, b) == if a + b < 0x1_0000_0000 then a + b else a + b - 0x1_0000_0000
  {
  }

  lemma Ranges()
    ensures Range(2) == 0x1_0000 && Range(4) == U32
  {
  }

  /** A 32-bit word, least significant byte first. */
  function WordBytes(w: bv32): (s: seq<bv8>)
    ensures |s| == 4
  {
    [(w & 0xFF) as bv8, ((w >> 8) & 0xFF) as bv8, ((w >> 16) & 0xFF) as bv8, ((w >> 24) & 0xFF) as bv8]
  }

  function WordValue(s: seq<bv8>): bv32
    requires |s| == 4
  {
    Join(s[0], s[1], s[2], s[3])
  }

  function Join(a: bv8, b: bv8, c: bv8, d: bv8): bv32 {
    (a as bv32) | ((b as bv32) << 8) | ((c as bv32) << 16) | ((d as bv32) << 24)
  }

  lemma JoinSplit(w: bv32)
    ensures Join((w & 0xFF) as bv8, ((w >> 8) & 0xFF) as bv8, ((w >> 16) & 0xFF) as bv8, ((w >> 24) & 0xFF) as bv8) == w
  {
  }

  lemma SplitJoin(a: bv8, b: bv8, c: bv8, d: bv8)
    ensures (Join(a, b, c, d) & 0xFF) as bv8 == a
    ensures ((Join(a, b, c, d) >> 8) & 0xFF) as bv8 == b
    ensures ((Join(a, b, c, d) >> 16) & 0xFF) as bv8 == c
    ensures ((Join(a, b, c, d) >> 24) & 0xFF) as bv8 == d
  {
  }

  lemma WordRoundTrip(w: bv32)
    ensures WordValue(WordBytes(w)) == w
  {
    hide Join;
    JoinSplit(w);
  }

  lemma WordBytesRoundTrip(s: seq<bv8>)
    requires |s| == 4
    ensures WordBytes(WordValue(s)) == s
  {
    hide Join;
    SplitJoin(s[0], s[1], s[2], s[3]);
  }
}
