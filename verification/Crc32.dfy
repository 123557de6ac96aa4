/** The 32-bit CRC of util.c: the standard bit-serial definition, the complemented
    table-driven code that is proved to compute it, and the errors it detects.

    Word operations have names so that a proof can hide what they do: the facts about
    single words are proved on the bits, everything else by equational reasoning. */
module Crc32 {

  const POLY: bv32 := 0xEDB8_8320
  const TABLE_SIZE: nat := 0x100

  function Xor(a: bv32, b: bv32): bv32 { a ^ b }
  function Not(a: bv32): bv32 { !a }
  function LowBit(a: bv32): bv32 { a & 1 }
  function Half(a: bv32): bv32 { a >> 1 }
  function LowByte(a: bv32): bv32 { a & 0xFF }
  function Rest(a: bv32): bv32 { a >> 8 }
  function Word(b: bv8): bv32 { b as bv32 }

  // ----- the standard definition (IEEE 802.3, section 3.2.9): one message bit at a time -----

  /** What a step adds when the bit shifted out is set. */
  function Reduction(r: bv32): bv32 {
    if LowBit(r) == 1 then POLY else 0
  }

  /** One step of the reflected shift register. */
  function Shift(r: bv32): bv32 {
    Xor(Reduction(r), Half(r))
  }

  /** Feeds the low `k` bits of `b` to the register, least significant bit first. */
  function FeedBits(r: bv32, b: bv32, k: nat): bv32
    decreases k
  {
    if k == 0 then r else FeedBits(Shift(Xor(r, LowBit(b))), Half(b), k - 1)
  }

  function FeedByte(r: bv32, b: bv8): bv32 {
    FeedBits(r, Word(b), 8)
  }

  /** The register after the message `data`, started from `r`. */
  function Register(r: bv32, data: seq<bv8>): bv32 {
    if data == [] then r else FeedByte(Register(r, data[..|data| - 1]), data[|data| - 1])
  }

  /** The checksum: initial register all ones, complemented at the end. */
  function Checksum(data: seq<bv8>): bv32 {
    Not(Register(0xFFFF_FFFF, data))
  }

  // ----- eight bit steps at once -----

  function Shifts(r: bv32, k: nat): bv32
    decreases k
  {
    if k == 0 then r else Shifts(Shift(r), k - 1)
  }

  function Halves(b: bv32, k: nat): bv32
    decreases k
  {
    if k == 0 then b else Halves(Half(b), k - 1)
  }

  lemma XorAssociative(a: bv32, b: bv32, c: bv32)
    ensures Xor(Xor(a, b), c) == Xor(a, Xor(b, c))
  {
  }

  lemma HalfOfXor(a: bv32, b: bv32)
    ensures Half(Xor(a, b)) == Xor(Half(a), Half(b))
  {
  }

  lemma LowBitAlone(r: bv32, b: bv32)
    ensures LowBit(Xor(r, LowBit(b))) == LowBit(Xor(r, b))
    ensures Half(Xor(r, LowBit(b))) == Half(r)
  {
  }

  lemma FeedAligned(r: bv32, b: bv32)
    ensures Xor(Shift(Xor(r, LowBit(b))), Half(b)) == Shift(Xor(r, b))
  {
    hide Xor, Half, LowBit;
    LowBitAlone(r, b);
    HalfOfXor(r, b);
    XorAssociative(Reduction(Xor(r, b)), Half(r), Half(b));
  }

  /** Feeding bits one at a time is xoring all of them in first, up to the bits not reached. */
  lemma {:induction false} FeedBitsIsShifts(r: bv32, b: bv32, k: nat)
    ensures Shifts(Xor(r, b), k) == Xor(FeedBits(r, b, k), Halves(b, k))
    decreases k
  {
    hide Xor, Shift, LowBit, Half;
    if k > 0 {
      FeedBitsIsShifts(Shift(Xor(r, LowBit(b))), Half(b), k - 1);
      FeedAligned(r, b);
    }
  }

  lemma HalvesOfByte(b: bv8)
    ensures Halves(Word(b), 8) == 0
  {
  }

  lemma XorZero(a: bv32)
    ensures Xor(a, 0) == a
  {
  }

  /** A message byte is xored into the register, which then shifts eight times. */
  lemma FeedByteIsShifts(r: bv32, b: bv8)
    ensures FeedByte(r, b) == Shifts(Xor(r, Word(b)), 8)
  {
    hide Xor, Shift, LowBit, Half, Word, FeedBits, Shifts, Halves;
    FeedBitsIsShifts(r, Word(b), 8);
    HalvesOfByte(b);
    XorZero(FeedByte(r, b));
  }

  lemma FirstByteFed()
    ensures FeedByte(0xFFFF_FFFF, 0x61) == 0x1748_41BC
  {
  }

  lemma SecondByteFed()
    ensures FeedByte(0x1748_41BC, 0x62) == 0x617C_B792
  {
  }

  lemma Complements()
    ensures Not(0x1748_41BC) == 0xE8B7_BE43 && Not(0x617C_B792) == 0x9E83_486D
  {
  }

  /** The standard's values for the messages "a" and "ab". */
  lemma KnownChecksum()
    ensures Checksum([0x61]) == 0xE8B7_BE43
    ensures Checksum([0x61, 0x62]) == 0x9E83_486D
  {
    hide FeedByte, Not;
    FirstByteFed();
    SecondByteFed();
    Complements();
    var a: seq<bv8>, ab: seq<bv8> := [0x61], [0x61, 0x62];
    assert a[..0] == [] && ab[..1] == a;
    assert Register(0xFFFF_FFFF, a) == 0x1748_41BC;
  }

  // ----- util.c -----

  function CodeReduction(r: bv32): bv32 {
    if LowBit(r) != 0 then 0 else POLY
  }

  /** The loop body of crc32_for_byte. */
  function CodeShift(r: bv32): bv32 {
    Xor(CodeReduction(r), Half(r))
  }

  function CodeShifts(r: bv32, k: nat): bv32
    decreases k
  {
    if k == 0 then r else CodeShifts(CodeShift(r), k - 1)
  }

  function Mask(r: bv32): bv32 { r ^ 0xFF00_0000 }

  /** The table entry crc32_for_byte computes for `r`. */
  function Entry(r: bv32): bv32 {
    Mask(CodeShifts(r, 8))
  }

  lemma OddFlips(r: bv32, m: bv32)
    requires LowBit(m) == 1
    ensures LowBit(Xor(r, m)) == 1 <==> LowBit(r) == 0
  {
  }

  /** The code's step reduces when the bit is clear: it is the standard step on a flipped low bit. */
  lemma CodeShiftFlips(r: bv32, m: bv32)
    requires LowBit(m) == 1
    ensures Shift(Xor(r, m)) == Xor(CodeShift(r), Half(m))
  {
    hide Xor, Half, LowBit;
    OddFlips(r, m);
    HalfOfXor(r, m);
    XorAssociative(CodeReduction(r), Half(r), Half(m));
  }

  /** The low `k` bits of `m` are set. */
  predicate Ones(m: bv32, k: nat)
    decreases k
  {
    k == 0 || (LowBit(m) == 1 && Ones(Half(m), k - 1))
  }

  lemma {:induction false} CodeShiftsFlip(r: bv32, m: bv32, k: nat)
    requires Ones(m, k)
    ensures Shifts(Xor(r, m), k) == Xor(CodeShifts(r, k), Halves(m, k))
    decreases k
  {
    hide Xor, Half, LowBit, Shift, CodeShift;
    if k > 0 {
      CodeShiftFlips(r, m);
      CodeShiftsFlip(CodeShift(r), Half(m), k - 1);
    }
  }

  lemma EightOnes()
    ensures Ones(0xFF, 8) && Halves(0xFF, 8) == 0
  {
  }

  /** The complemented table holds the standard table, permuted and masked. */
  lemma EntryIsStandard(i: bv32)
    ensures Entry(i) == Mask(Shifts(Xor(i, 0xFF), 8))
  {
    hide Xor, Shifts, CodeShifts, Halves, Ones, Mask;
    EightOnes();
    CodeShiftsFlip(i, 0xFF, 8);
    XorZero(CodeShifts(i, 8));
  }

  /** Once filled, the table can be recognised by its first entry. */
  lemma FilledTableIsNonzero()
    ensures Entry(0) == 0xD202_EF8D
  {
  }

  lemma EvenKeeps(x: bv32, h: bv32)
    requires LowBit(h) == 0
    ensures LowBit(Xor(x, h)) == LowBit(x)
  {
  }

  /** A part with a clear low bit passes through a step unreduced. */
  lemma ShiftPass(x: bv32, h: bv32)
    requires LowBit(h) == 0
    ensures Shift(Xor(x, h)) == Xor(Shift(x), Half(h))
  {
    hide Xor, Half, LowBit;
    EvenKeeps(x, h);
    HalfOfXor(x, h);
    XorAssociative(Reduction(x), Half(x), Half(h));
  }

  /** The low `k` bits of `h` are clear. */
  predicate Clear(h: bv32, k: nat)
    decreases k
  {
    k == 0 || (LowBit(h) == 0 && Clear(Half(h), k - 1))
  }

  lemma {:induction false} ShiftsPass(x: bv32, h: bv32, k: nat)
    requires Clear(h, k)
    ensures Shifts(Xor(x, h), k) == Xor(Shifts(x, k), Halves(h, k))
    decreases k
  {
    hide Xor, Shift, LowBit, Half;
    if k > 0 {
      ShiftPass(x, h);
      ShiftsPass(Shift(x), Half(h), k - 1);
    }
  }

  /** A word without its low byte. */
  function High(a: bv32): bv32 { a & 0xFFFF_FF00 }

  lemma HighIsEven(r: bv32)
    ensures LowBit(High(r)) == 0
    ensures LowBit(High(r) >> 1) == 0
    ensures LowBit(High(r) >> 2) == 0
    ensures LowBit(High(r) >> 3) == 0
    ensures LowBit(High(r) >> 4) == 0
    ensures LowBit(High(r) >> 5) == 0
    ensures LowBit(High(r) >> 6) == 0
    ensures LowBit(High(r) >> 7) == 0
  {
  }

  lemma HighHalves(h: bv32)
    ensures Half(h) == h >> 1
    ensures Half(h >> 1) == h >> 2
    ensures Half(h >> 2) == h >> 3
    ensures Half(h >> 3) == h >> 4
    ensures Half(h >> 4) == h >> 5
    ensures Half(h >> 5) == h >> 6
    ensures Half(h >> 6) == h >> 7
    ensures Half(h >> 7) == Rest(h)
  {
  }

  lemma RestOfHigh(r: bv32)
    ensures Rest(High(r)) == Rest(r)
  {
  }

  lemma HighPasses(r: bv32)
    ensures Clear(High(r), 8) && Halves(High(r), 8) == Rest(r)
  {
    hide High, LowBit, Half, Rest;
    HighIsEven(r);
    HighHalves(High(r));
    RestOfHigh(r);
  }

  lemma Parts(r: bv32)
    ensures Xor(LowByte(r), High(r)) == r
  {
  }

  /** Only the low byte of the register is reduced by eight steps. */
  lemma LowByteReduced(r: bv32)
    ensures Shifts(r, 8) == Xor(Shifts(LowByte(r), 8), Rest(r))
  {
    hide *;
    Parts(r);
    HighPasses(r);
    ShiftsPass(LowByte(r), High(r), 8);
  }

  /** The table index used for register value `c` and message byte `b`. */
  function Index(c: bv32, b: bv8): bv8 {
    ((c & 0xFF) as bv8) ^ b
  }

  lemma ComplementIndex(c: bv32, b: bv8)
    ensures Xor(Word(Index(c, b)), 0xFF) == LowByte(Xor(Not(c), Word(b)))
  {
  }

  lemma ComplementRest(c: bv32, b: bv8)
    ensures Rest(Xor(Not(c), Word(b))) == Rest(Not(c))
  {
  }

  lemma ComplementFold(c: bv32, t: bv32)
    ensures Xor(Mask(t), Rest(c)) == Not(Xor(t, Rest(Not(c))))
  {
  }

  /** One table step on the complemented register is one byte of the standard CRC. */
  lemma TableStep(c: bv32, b: bv8)
    ensures Xor(Entry(Word(Index(c, b))), Rest(c)) == Not(FeedByte(Not(c), b))
  {
    hide *;
    var x := Xor(Not(c), Word(b));
    ComplementIndex(c, b);
    EntryIsStandard(Word(Index(c, b)));
    FeedByteIsShifts(Not(c), b);
    LowByteReduced(x);
    ComplementRest(c, b);
    ComplementFold(c, Shifts(LowByte(x), 8));
  }

  method Crc32ForByte(r: bv32) returns (t: bv32)
    ensures t == Entry(r)
  {
    hide CodeShift, Mask;
    t := r;
    for j := 0 to 8
      invariant CodeShifts(t, 8 - j) == CodeShifts(r, 8)
    {
      t := CodeShift(t);
    }
    t := Mask(t);
  }

  /** The static table of crc32 and the code that fills it on first use. */
  class Calculator {
    const table: array<bv32>

    ghost predicate Filled()
      reads table
    {
      table.Length == TABLE_SIZE && forall i :: 0 <= i < TABLE_SIZE ==> table[i] == Entry(Word(i as bv8))
    }

    ghost predicate Valid()
      reads table
    {
      table.Length == TABLE_SIZE && (table[0] == 0 || Filled())
    }

    constructor ()
      ensures Valid() && fresh(table)
    {
      table := new bv32[TABLE_SIZE](_ => 0);
    }

    method Fill()
      requires table.Length == TABLE_SIZE
      modifies table
      ensures Filled() && table[0] != 0
    {
      hide Entry, Word;
      for i := 0 to TABLE_SIZE
        invariant forall k :: 0 <= k < i ==> table[k] == Entry(Word(k as bv8))
      {
        table[i] := Crc32ForByte(Word(i as bv8));
      }
      FirstEntry();
    }

    /** crc32: `crc` is the complement of the standard register, before and after. */
    method Update(data: seq<bv8>, crc: bv32) returns (c: bv32)
      requires Valid()
      modifies table
      ensures Valid() && table[0] != 0
      ensures c == Not(Register(Not(crc), data))
    {
      hide Entry, Word, Xor, Rest, Not, FeedByte, Index;
      if table[0] == 0 {
        Fill();
      } else {
        FirstEntry();
      }
      c := crc;
      NotNot(crc);
      for i := 0 to |data|
        invariant Filled()
        invariant c == Not(Register(Not(crc), data[..i]))
      {
        TableStep(c, data[i]);
        NotNot(Register(Not(crc), data[..i]));
        assert data[..i + 1][..i] == data[..i];
        var k := Index(c, data[i]);
        c := Xor(table[k as nat], Rest(c));
      }
      assert data[..|data|] == data;
    }

    /** compute_checksum. */
    method ComputeChecksum(data: seq<bv8>) returns (c: bv32)
      requires Valid()
      modifies table
      ensures Valid()
      ensures c == Checksum(data)
    {
      c := Update(data, 0);
    }
  }

  lemma NotNot(a: bv32)
    ensures Not(Not(a)) == a
  {
  }

  lemma FirstEntry()
    ensures Entry(Word(0 as bv8)) != 0
  {
  }

  // ----- detected errors -----

  function Double(d: bv32): bv32 { d << 1 }

  function Doubles(d: bv32, k: nat): bv32
    decreases k
  {
    if k == 0 then d else Double(Doubles(d, k - 1))
  }

  lemma XorCommutes(a: bv32, b: bv32)
    ensures Xor(a, b) == Xor(b, a)
  {
  }

  lemma XorSelf(a: bv32)
    ensures Xor(a, a) == 0
  {
  }

  lemma ZeroXor(a: bv32)
    ensures Xor(0, a) == a
  {
  }

  lemma XorCancels(r: bv32, a: bv32, b: bv32)
    ensures Xor(Xor(r, a), Xor(r, b)) == Xor(a, b)
  {
    hide Xor;
    XorCommutes(r, a);
    XorAssociative(a, r, Xor(r, b));
    XorAssociative(r, r, b);
    XorSelf(r);
    ZeroXor(b);
  }

  lemma LowBits(a: bv32)
    ensures LowBit(a) == 0 || LowBit(a) == 1
  {
  }

  /** The top bit of the polynomial tells a reduced register from one that was not. */
  lemma PolyShows(a: bv32, b: bv32)
    ensures Xor(Xor(POLY, Half(a)), Xor(0, Half(b))) > 0x7FFF_FFFF
  {
  }

  lemma SameLowBit(x: bv32, y: bv32)
    requires LowBit(x) == LowBit(y)
    ensures Xor(x, y) == Double(Xor(Half(x), Half(y)))
  {
  }

  lemma ShiftBack(x: bv32, y: bv32)
    requires Xor(Shift(x), Shift(y)) <= 0x7FFF_FFFF
    ensures Xor(x, y) == Double(Xor(Shift(x), Shift(y)))
  {
    hide Xor, Half, LowBit, Double;
    LowBits(x);
    LowBits(y);
    PolyShows(x, y);
    PolyShows(y, x);
    XorCommutes(Shift(x), Shift(y));
    SameLowBit(x, y);
    XorCancels(Reduction(x), Half(x), Half(y));
  }

  /** None of the first `k` doublings of `d` loses a bit. */
  predicate Headroom(d: bv32, k: nat) {
    forall j :: 0 <= j < k ==> Doubles(d, j) <= 0x7FFF_FFFF
  }

  lemma {:induction false} ShiftsBack(x: bv32, y: bv32, k: nat)
    requires Headroom(Xor(Shifts(x, k), Shifts(y, k)), k)
    ensures Xor(x, y) == Doubles(Xor(Shifts(x, k), Shifts(y, k)), k)
    decreases k
  {
    hide Xor, Shift, Double;
    if k > 0 {
      ShiftsBack(Shift(x), Shift(y), k - 1);
      ShiftBack(x, y);
    }
  }

  function Up(d: bv32): bv32 { d << 8 }

  lemma DoublesAreShifts(d: bv32)
    ensures Doubles(d, 0) == d && Doubles(d, 1) == d << 1 && Doubles(d, 2) == d << 2 && Doubles(d, 3) == d << 3
    ensures Doubles(d, 4) == d << 4 && Doubles(d, 5) == d << 5 && Doubles(d, 6) == d << 6 && Doubles(d, 7) == d << 7
    ensures Doubles(d, 8) == Up(d)
  {
    hide Double, Up;
    DoubleIsShift(d);
    assert Doubles(d, 2) == Double(Doubles(d, 1)) && Doubles(d, 4) == Double(Doubles(d, 3));
    assert Doubles(d, 6) == Double(Doubles(d, 5)) && Doubles(d, 8) == Double(Doubles(d, 7));
  }

  lemma DoubleIsShift(d: bv32)
    ensures Double(d) == d << 1 && Double(d << 1) == d << 2 && Double(d << 2) == d << 3 && Double(d << 3) == d << 4
    ensures Double(d << 4) == d << 5 && Double(d << 5) == d << 6 && Double(d << 6) == d << 7
    ensures Double(d << 7) == Up(d)
  {
  }

  lemma SmallShifts(d: bv32)
    requires d <= 0xFF_FFFF
    ensures d << 1 <= 0x7FFF_FFFF && d << 2 <= 0x7FFF_FFFF && d << 3 <= 0x7FFF_FFFF && d << 4 <= 0x7FFF_FFFF
    ensures d << 5 <= 0x7FFF_FFFF && d << 6 <= 0x7FFF_FFFF && d << 7 <= 0x7FFF_FFFF
  {
  }

  lemma ByteHeadroom(d: bv32)
    requires d <= 0xFF_FFFF
    ensures Headroom(d, 8) && Doubles(d, 8) == Up(d)
  {
    hide Doubles, Up;
    DoublesAreShifts(d);
    SmallShifts(d);
  }

  lemma XorRearranged(r: bv32, b: bv8, r': bv32, b': bv8)
    ensures Xor(r, r') == Xor(Diff(b, b'), Xor(Xor(r, Word(b)), Xor(r', Word(b'))))
  {
  }

  /** The difference of two registers before a byte, from the difference after it. */
  lemma ByteBack(r: bv32, b: bv8, r': bv32, b': bv8)
    requires Xor(FeedByte(r, b), FeedByte(r', b')) <= 0xFF_FFFF
    ensures Xor(r, r') == Xor(Diff(b, b'), Up(Xor(FeedByte(r, b), FeedByte(r', b'))))
  {
    hide *;
    FeedByteIsShifts(r, b);
    FeedByteIsShifts(r', b');
    ByteHeadroom(Xor(FeedByte(r, b), FeedByte(r', b')));
    ShiftsBack(Xor(r, Word(b)), Xor(r', Word(b')), 8);
    XorRearranged(r, b, r', b');
  }

  lemma XorEqual(a: bv32, b: bv32)
    ensures Xor(a, b) == 0 <==> a == b
  {
    hide Xor;
    XorSelf(a);
    if Xor(a, b) == 0 {
      XorSelf(b);
      XorAssociative(a, b, b);
      XorZero(a);
      ZeroXor(b);
    }
  }

  /** The difference of two message bytes, as a word. */
  function Diff(a: bv8, b: bv8): bv32 { Word(a ^ b) }

  lemma DiffZero(a: bv8, b: bv8, d: bv32, n: nat)
    requires 0 < n && Fits(d, n) && Xor(Diff(a, b), Up(d)) == 0
    ensures a == b && d == 0
  {
  }

  /** A byte step is injective in the register. */
  lemma FeedByteInjective(r: bv32, r': bv32, b: bv8)
    requires FeedByte(r, b) == FeedByte(r', b)
    ensures r == r'
  {
    hide *;
    XorEqual(FeedByte(r, b), FeedByte(r', b));
    ByteBack(r, b, r', b);
    SameByteUp(b);
    XorEqual(r, r');
  }

  lemma SameByteUp(b: bv8)
    ensures Xor(Diff(b, b), Up(0)) == 0
  {
  }

  lemma {:induction false} RegisterInjective(r: bv32, r': bv32, data: seq<bv8>)
    requires Register(r, data) == Register(r', data)
    ensures r == r'
  {
    hide FeedByte;
    if data != [] {
      var init, b := data[..|data| - 1], data[|data| - 1];
      FeedByteInjective(Register(r, init), Register(r', init), b);
      RegisterInjective(r, r', init);
    }
  }

  lemma {:induction false} RegisterAppend(r: bv32, a: seq<bv8>, b: seq<bv8>)
    ensures Register(r, a + b) == Register(Register(r, a), b)
  {
    hide FeedByte;
    if b == [] {
      assert a + b == a;
    } else {
      var init := b[..|b| - 1];
      assert (a + b)[..|a + b| - 1] == a + init;
      RegisterAppend(r, a, init);
    }
  }

  /** The largest difference that `n` message bytes can still absorb. */
  function Room(n: nat): bv32 {
    if n == 0 then 0xFFFF_FFFF else if n == 1 then 0xFF_FFFF else if n == 2 then 0xFFFF
    else if n == 3 then 0xFF else 0
  }

  predicate Fits(d: bv32, n: nat) { d <= Room(n) }

  lemma RoomGrows(n: nat, a: bv8, b: bv8, d: bv32)
    requires 0 < n <= 4 && Fits(d, n)
    ensures d <= 0xFF_FFFF && Fits(Xor(Diff(a, b), Up(d)), n - 1)
  {
  }

  lemma ZeroFits(n: nat)
    ensures Fits(0, n)
  {
  }

  /** The register difference before the byte differences of `m` and `m'`, when it is `d` after them. */
  function Unwind(m: seq<bv8>, m': seq<bv8>, d: bv32): bv32
    requires |m| == |m'|
  {
    if m == [] then d
    else
      var n := |m| - 1;
      Unwind(m[..n], m'[..n], Xor(Diff(m[n], m'[n]), Up(d)))
  }

  lemma {:induction false} RegistersUnwind(r: bv32, r': bv32, m: seq<bv8>, m': seq<bv8>)
    requires |m| == |m'| <= 4 && Fits(Xor(Register(r, m), Register(r', m')), |m|)
    ensures Xor(r, r') == Unwind(m, m', Xor(Register(r, m), Register(r', m')))
  {
    hide Xor, Diff, Up, FeedByte, Fits;
    if m != [] {
      var n := |m| - 1;
      var s, s' := Register(r, m[..n]), Register(r', m'[..n]);
      var d := Xor(Register(r, m), Register(r', m'));
      RoomGrows(|m|, m[n], m'[n], d);
      ByteBack(s, m[n], s', m'[n]);
      RegistersUnwind(r, r', m[..n], m'[..n]);
    }
  }

  lemma {:induction false} UnwindZero(m: seq<bv8>, m': seq<bv8>, d: bv32)
    requires |m| == |m'| <= 4 && Fits(d, |m|) && Unwind(m, m', d) == 0
    ensures d == 0 && m == m'
  {
    hide Xor, Diff, Up, Fits;
    if m != [] {
      var n := |m| - 1;
      RoomGrows(|m|, m[n], m'[n], d);
      UnwindZero(m[..n], m'[..n], Xor(Diff(m[n], m'[n]), Up(d)));
      DiffZero(m[n], m'[n], d, |m|);
      assert m == m[..n] + [m[n]] && m' == m'[..n] + [m'[n]];
    }
  }

  /** Any change confined to four consecutive bytes changes the checksum. */
  lemma BurstDetected(u: seq<bv8>, m: seq<bv8>, m': seq<bv8>, v: seq<bv8>)
    requires |m| == |m'| <= 4 && m != m'
    ensures Checksum(u + m + v) != Checksum(u + m' + v)
  {
    if Checksum(u + m + v) == Checksum(u + m' + v) {
      hide *;
      SameChecksum(u + m + v, u + m' + v);
      var r := Register(0xFFFF_FFFF, u);
      RegisterAppend(0xFFFF_FFFF, u + m, v);
      RegisterAppend(0xFFFF_FFFF, u + m', v);
      RegisterInjective(Register(0xFFFF_FFFF, u + m), Register(0xFFFF_FFFF, u + m'), v);
      RegisterAppend(0xFFFF_FFFF, u, m);
      RegisterAppend(0xFFFF_FFFF, u, m');
      XorEqual(Register(r, m), Register(r, m'));
      ZeroFits(|m|);
      RegistersUnwind(r, r, m, m');
      XorEqual(r, r);
      UnwindZero(m, m', 0);
      assert false;
    }
  }

  lemma SameChecksum(a: seq<bv8>, b: seq<bv8>)
    requires Checksum(a) == Checksum(b)
    ensures Register(0xFFFF_FFFF, a) == Register(0xFFFF_FFFF, b)
  {
  }
}
