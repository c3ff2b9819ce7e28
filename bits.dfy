/** Bit counting on 32-bit unsigned words: the specification of the number
    of set bits, the divide-and-conquer `popcount` of the benchmark, the
    proof that the two agree, and the link between the set bits of the
    exclusive or of two words and the bits in which their bytes differ. */
module Bits {

  // ---------------------------------------------------------------------
  // Specification.

  /** Bit `i` of the word `x`, as a number. */
  function Bit(x: bv32, i: bv32): (r: nat)
    requires i < 32
    ensures r <= 1
  {
    if (x >> i) & 1 == 1 then 1 else 0
  }

  /** The number of set bits of `x` at positions `i` to 31. */
  function OnesFrom(x: bv32, i: bv32): nat
    requires i <= 32
    decreases 32 - i as int, x
  {
    if i == 32 then 0 else Bit(x, i) + OnesFrom(x, i + 1)
  }

  /** The number of set bits of the 32-bit word `x`. */
  function BitCount(x: bv32): nat
  {
    OnesFrom(x, 0)
  }

  /** Whether bit `j` of the byte `a` differs from bit `j` of the byte `b`,
      as a number. */
  function DiffAt(a: bv8, b: bv8, j: bv8): (r: nat)
    requires j < 8
    ensures r <= 1
  {
    if (a >> j) & 1 != (b >> j) & 1 then 1 else 0
  }

  /** The number of positions `j` to 7 at which the bytes differ. */
  function DiffFrom(a: bv8, b: bv8, j: bv8): nat
    requires j <= 8
    decreases 8 - j as int, a
  {
    if j == 8 then 0 else DiffAt(a, b, j) + DiffFrom(a, b, j + 1)
  }

  /** The number of bit positions at which the bytes `a` and `b` differ. */
  function ByteDiff(a: bv8, b: bv8): nat
  {
    DiffFrom(a, b, 0)
  }

  /** The 32-bit word whose bytes, least significant first, are `b0` to
      `b3`: four consecutive bytes of memory read as one word on a
      little-endian machine. */
  function Word(b0: bv8, b1: bv8, b2: bv8, b3: bv8): bv32
  {
    (b0 as bv32) | ((b1 as bv32) << 8) | ((b2 as bv32) << 16) | ((b3 as bv32) << 24)
  }

  // ---------------------------------------------------------------------
  // A word is counted byte by byte.

  /** The set bits of the byte of `x` at bit `i`. */
  function ByteBits(x: bv32, i: bv32): nat
    requires i <= 24
  {
    Bit(x, i) + Bit(x, i + 1) + Bit(x, i + 2) + Bit(x, i + 3) +
    Bit(x, i + 4) + Bit(x, i + 5) + Bit(x, i + 6) + Bit(x, i + 7)
  }

  lemma ByteBound(x: bv32, i: bv32)
    requires i <= 24
    ensures ByteBits(x, i) <= 8
  {
  }

  lemma CountByte(x: bv32, i: bv32)
    requires i <= 24
    ensures OnesFrom(x, i) == ByteBits(x, i) + OnesFrom(x, i + 8)
  {
    assert OnesFrom(x, i + 1) == Bit(x, i + 1) + OnesFrom(x, i + 2);
    assert OnesFrom(x, i + 2) == Bit(x, i + 2) + OnesFrom(x, i + 3);
    assert OnesFrom(x, i + 3) == Bit(x, i + 3) + OnesFrom(x, i + 4);
    assert OnesFrom(x, i + 4) == Bit(x, i + 4) + OnesFrom(x, i + 5);
    assert OnesFrom(x, i + 5) == Bit(x, i + 5) + OnesFrom(x, i + 6);
    assert OnesFrom(x, i + 6) == Bit(x, i + 6) + OnesFrom(x, i + 7);
    assert OnesFrom(x, i + 7) == Bit(x, i + 7) + OnesFrom(x, i + 8);
  }

  /** The number of set bits of a word is the sum over its four bytes. */
  lemma CountBytes(x: bv32)
    ensures BitCount(x) == ByteBits(x, 0) + ByteBits(x, 8) + ByteBits(x, 16) + ByteBits(x, 24)
  {
    CountByte(x, 0);
    CountByte(x, 8);
    CountByte(x, 16);
    CountByte(x, 24);
  }

  /** A word has between 0 and 32 set bits, none exactly when it is zero
      and 32 exactly when all its bits are set. */
  lemma BitCountRange(x: bv32)
    ensures BitCount(x) <= 32
    ensures BitCount(x) == 0 <==> x == 0
    ensures BitCount(x) == 32 <==> x == 0xFFFF_FFFF
  {
    CountBytes(x);
    ByteBound(x, 0);
    ByteBound(x, 8);
    ByteBound(x, 16);
    ByteBound(x, 24);
  }

  // ---------------------------------------------------------------------
  // The divide-and-conquer algorithm. The first three rounds add the bits
  // of each byte in pairs, then in fours, then in eights; no sum crosses a
  // byte boundary, so after them every byte holds its own number of set
  // bits. The last two rounds add up the four byte counts.

  /** After three rounds, the byte at bit `i` holds its number of set bits. */
  lemma ByteRounds(x: bv32, y1: bv32, y2: bv32, y3: bv32, i: bv32)
    requires i == 0 || i == 8 || i == 16 || i == 24
    requires y1 == (x & 0x5555_5555) + ((x >> 1) & 0x5555_5555)
    requires y2 == (y1 & 0x3333_3333) + ((y1 >> 2) & 0x3333_3333)
    requires y3 == (y2 & 0x0F0F_0F0F) + ((y2 >> 4) & 0x0F0F_0F0F)
    ensures ((y3 >> i) & 0xFF) as int == ByteBits(x, i)
  {
  }

  lemma Rounds123(x: bv32, y1: bv32, y2: bv32, y3: bv32)
    requires y1 == (x & 0x5555_5555) + ((x >> 1) & 0x5555_5555)
    requires y2 == (y1 & 0x3333_3333) + ((y1 >> 2) & 0x3333_3333)
    requires y3 == (y2 & 0x0F0F_0F0F) + ((y2 >> 4) & 0x0F0F_0F0F)
    ensures (y3 & 0xFF) as int == ByteBits(x, 0)
    ensures ((y3 >> 8) & 0xFF) as int == ByteBits(x, 8)
    ensures ((y3 >> 16) & 0xFF) as int == ByteBits(x, 16)
    ensures ((y3 >> 24) & 0xFF) as int == ByteBits(x, 24)
  {
    ByteRounds(x, y1, y2, y3, 0);
    assert y3 >> 0 == y3;
    ByteRounds(x, y1, y2, y3, 8);
    ByteRounds(x, y1, y2, y3, 16);
    ByteRounds(x, y1, y2, y3, 24);
  }

  /** The fourth round leaves the sums of two bytes in each half-word. */
  lemma Round4(y3: bv32, y4: bv32, c0: bv32, c1: bv32, c2: bv32, c3: bv32)
    requires c0 == y3 & 0xFF && c1 == (y3 >> 8) & 0xFF
    requires c2 == (y3 >> 16) & 0xFF && c3 == (y3 >> 24) & 0xFF
    requires y4 == (y3 & 0x00FF_00FF) + ((y3 >> 8) & 0x00FF_00FF)
    ensures y4 & 0xFFFF == c0 + c1
    ensures (y4 >> 16) & 0xFFFF == c2 + c3
  {
  }

  lemma Small8(a: bv32)
    requires a as int <= 8
    ensures a <= 8
  {
  }

  lemma Sum8(a: bv32, b: bv32)
    requires a <= 8 && b <= 8
    ensures a + b <= 16
    ensures (a + b) as int == a as int + b as int
  {
  }

  lemma Sum16(a: bv32, b: bv32)
    requires a <= 16 && b <= 16
    ensures (a + b) as int == a as int + b as int
  {
  }

  /** Four byte counts of at most eight add up without overflow. */
  lemma AddCounts(c0: bv32, c1: bv32, c2: bv32, c3: bv32, lo: bv32, hi: bv32, y5: bv32)
    requires c0 <= 8 && c1 <= 8 && c2 <= 8 && c3 <= 8
    requires lo == c0 + c1 && hi == c2 + c3 && y5 == lo + hi
    ensures y5 as int == c0 as int + c1 as int + c2 as int + c3 as int
  {
    Sum8(c0, c1);
    Sum8(c2, c3);
    Sum16(lo, hi);
  }

  lemma Rounds45(y3: bv32, y4: bv32, y5: bv32, c0: bv32, c1: bv32, c2: bv32, c3: bv32)
    requires c0 == y3 & 0xFF && c1 == (y3 >> 8) & 0xFF
    requires c2 == (y3 >> 16) & 0xFF && c3 == (y3 >> 24) & 0xFF
    requires c0 <= 8 && c1 <= 8 && c2 <= 8 && c3 <= 8
    requires y4 == (y3 & 0x00FF_00FF) + ((y3 >> 8) & 0x00FF_00FF)
    requires y5 == (y4 & 0x0000_FFFF) + ((y4 >> 16) & 0x0000_FFFF)
    ensures y5 as int == c0 as int + c1 as int + c2 as int + c3 as int
  {
    Round4(y3, y4, c0, c1, c2, c3);
    AddCounts(c0, c1, c2, c3, y4 & 0xFFFF, (y4 >> 16) & 0xFFFF, y5);
  }

  /** The five rounds of `popcount` compute the number of set bits. */
  lemma PopcountRounds(x: bv32, y1: bv32, y2: bv32, y3: bv32, y4: bv32, y5: bv32)
    requires y1 == (x & 0x5555_5555) + ((x >> 1) & 0x5555_5555)
    requires y2 == (y1 & 0x3333_3333) + ((y1 >> 2) & 0x3333_3333)
    requires y3 == (y2 & 0x0F0F_0F0F) + ((y2 >> 4) & 0x0F0F_0F0F)
    requires y4 == (y3 & 0x00FF_00FF) + ((y3 >> 8) & 0x00FF_00FF)
    requires y5 == (y4 & 0x0000_FFFF) + ((y4 >> 16) & 0x0000_FFFF)
    ensures y5 as int == BitCount(x)
  {
    var c0, c1, c2, c3 := y3 & 0xFF, (y3 >> 8) & 0xFF, (y3 >> 16) & 0xFF, (y3 >> 24) & 0xFF;
    Rounds123(x, y1, y2, y3);
    ByteBound(x, 0);
    ByteBound(x, 8);
    ByteBound(x, 16);
    ByteBound(x, 24);
    Small8(c0);
    Small8(c1);
    Small8(c2);
    Small8(c3);
    Rounds45(y3, y4, y5, c0, c1, c2, c3);
    CountBytes(x);
  }

  /** `popcount`: the number of set bits of `x`, by five rounds of sideways
      addition over 2-, 4-, 8-, 16- and 32-bit fields. */
  method Popcount(x: bv32) returns (r: int)
    ensures r == BitCount(x)
    ensures 0 <= r <= 32
  {
    var y := x;
    y := (y & 0x5555_5555) + ((y >> 1) & 0x5555_5555);
    ghost var y1 := y;
    y := (y & 0x3333_3333) + ((y >> 2) & 0x3333_3333);
    ghost var y2 := y;
    y := (y & 0x0F0F_0F0F) + ((y >> 4) & 0x0F0F_0F0F);
    ghost var y3 := y;
    y := (y & 0x00FF_00FF) + ((y >> 8) & 0x00FF_00FF);
    ghost var y4 := y;
    y := (y & 0x0000_FFFF) + ((y >> 16) & 0x0000_FFFF);
    PopcountRounds(x, y1, y2, y3, y4, y);
    BitCountRange(x);
    r := y as int;
  }

  // ---------------------------------------------------------------------
  // Differing bits.

  lemma DiffByte(a: bv8, b: bv8)
    ensures ByteDiff(a, b) == DiffAt(a, b, 0) + DiffAt(a, b, 1) + DiffAt(a, b, 2) + DiffAt(a, b, 3) +
                              DiffAt(a, b, 4) + DiffAt(a, b, 5) + DiffAt(a, b, 6) + DiffAt(a, b, 7)
  {
    assert DiffFrom(a, b, 1) == DiffAt(a, b, 1) + DiffFrom(a, b, 2);
    assert DiffFrom(a, b, 2) == DiffAt(a, b, 2) + DiffFrom(a, b, 3);
    assert DiffFrom(a, b, 3) == DiffAt(a, b, 3) + DiffFrom(a, b, 4);
    assert DiffFrom(a, b, 4) == DiffAt(a, b, 4) + DiffFrom(a, b, 5);
    assert DiffFrom(a, b, 5) == DiffAt(a, b, 5) + DiffFrom(a, b, 6);
    assert DiffFrom(a, b, 6) == DiffAt(a, b, 6) + DiffFrom(a, b, 7);
    assert DiffFrom(a, b, 7) == DiffAt(a, b, 7) + DiffFrom(a, b, 8);
  }

  /** Two bytes differ in between 0 and 8 bits, in none exactly when they
      are equal, and in as many bits in either order. */
  lemma ByteDiffFacts(a: bv8, b: bv8)
    ensures ByteDiff(a, b) <= 8
    ensures ByteDiff(a, b) == 0 <==> a == b
    ensures ByteDiff(a, b) == ByteDiff(b, a)
  {
    DiffByte(a, b);
    DiffByte(b, a);
  }

  /** Reading two words and taking their exclusive or is reading the
      bytewise exclusive ors as one word. */
  lemma WordXor(p0: bv8, p1: bv8, p2: bv8, p3: bv8, q0: bv8, q1: bv8, q2: bv8, q3: bv8)
    ensures Word(p0, p1, p2, p3) ^ Word(q0, q1, q2, q3) == Word(p0 ^ q0, p1 ^ q1, p2 ^ q2, p3 ^ q3)
  {
  }

  /** The set bits of the byte at bit `i` of a word are those of the byte
      it was read from, that is its differences with the zero byte. */
  lemma WordByte(c0: bv8, c1: bv8, c2: bv8, c3: bv8, i: bv32, c: bv8)
    requires (i == 0 && c == c0) || (i == 8 && c == c1) || (i == 16 && c == c2) || (i == 24 && c == c3)
    ensures ByteBits(Word(c0, c1, c2, c3), i) ==
            DiffAt(c, 0, 0) + DiffAt(c, 0, 1) + DiffAt(c, 0, 2) + DiffAt(c, 0, 3) +
            DiffAt(c, 0, 4) + DiffAt(c, 0, 5) + DiffAt(c, 0, 6) + DiffAt(c, 0, 7)
  {
  }

  lemma XorBit(a: bv8, b: bv8, j: bv8)
    requires j < 8
    ensures DiffAt(a ^ b, 0, j) == DiffAt(a, b, j)
  {
  }

  /** The bits set in `a ^ b` are those in which `a` and `b` differ. */
  lemma XorDiff(a: bv8, b: bv8)
    ensures ByteDiff(a ^ b, 0) == ByteDiff(a, b)
  {
    DiffByte(a ^ b, 0);
    DiffByte(a, b);
    XorBit(a, b, 0);
    XorBit(a, b, 1);
    XorBit(a, b, 2);
    XorBit(a, b, 3);
    XorBit(a, b, 4);
    XorBit(a, b, 5);
    XorBit(a, b, 6);
    XorBit(a, b, 7);
  }

  /** The number of set bits of the exclusive or of two words read from
      memory is the number of bits in which their bytes differ. */
  lemma XorWord(p0: bv8, p1: bv8, p2: bv8, p3: bv8, q0: bv8, q1: bv8, q2: bv8, q3: bv8)
    ensures BitCount(Word(p0, p1, p2, p3) ^ Word(q0, q1, q2, q3)) ==
            ByteDiff(p0, q0) + ByteDiff(p1, q1) + ByteDiff(p2, q2) + ByteDiff(p3, q3)
  {
    var c0, c1, c2, c3 := p0 ^ q0, p1 ^ q1, p2 ^ q2, p3 ^ q3;
    WordXor(p0, p1, p2, p3, q0, q1, q2, q3);
    CountBytes(Word(c0, c1, c2, c3));
    WordByte(c0, c1, c2, c3, 0, c0);
    WordByte(c0, c1, c2, c3, 8, c1);
    WordByte(c0, c1, c2, c3, 16, c2);
    WordByte(c0, c1, c2, c3, 24, c3);
    DiffByte(c0, 0);
    DiffByte(c1, 0);
    DiffByte(c2, 0);
    DiffByte(c3, 0);
    XorDiff(p0, q0);
    XorDiff(p1, q1);
    XorDiff(p2, q2);
    XorDiff(p3, q3);
  }
}
