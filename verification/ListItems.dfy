/** The words core_list_init writes, bit by bit (fpga/coremark/src/core_list_join.c). */
module ListItems {
  import opened ListCells
  import opened ListOps
  import opened ListInit
  import opened ListSeeds
  import opened Modulus

  /** The data of an item, by the word x of its number: bits 0 to 2 are those of x, bits 3 to 6 those of seed xor x,
      bit 7 says that nothing is cached yet, and the upper byte is the lower one again. */
  lemma ItemBits(x: bv16, seed: bv16, d: bv16)
    requires var dat := (((seed ^ x) & 0xf) << 3) | (x & 0x7); d == (dat << 8) | dat
    ensures BitSet(d, 0) == BitSet(x, 0) && BitSet(d, 1) == BitSet(x, 1) && BitSet(d, 2) == BitSet(x, 2)
    ensures BitSet(d, 3) == (BitSet(seed, 0) != BitSet(x, 0)) && BitSet(d, 4) == (BitSet(seed, 1) != BitSet(x, 1))
    ensures BitSet(d, 5) == (BitSet(seed, 2) != BitSet(x, 2)) && BitSet(d, 6) == (BitSet(seed, 3) != BitSet(x, 3))
    ensures !BitSet(d, 7) && d & 0xff == d >> 8
  {
  }

  /** Four bits behind a word. */
  lemma LowBits(y: bv16, b3: bool, b2: bool, b1: bool, b0: bool)
    ensures var x := In(In(In(In(y, b3), b2), b1), b0);
      BitSet(x, 0) == b0 && BitSet(x, 1) == b1 && BitSet(x, 2) == b2 && BitSet(x, 3) == b3
  {
  }

  lemma BuildWord(q: nat, b3: bool, b2: bool, b1: bool, b0: bool) returns (x: bv16)
    requires q < 0x1000
    ensures x as int == 2 * (2 * (2 * (2 * q + Bit(b3)) + Bit(b2)) + Bit(b1)) + Bit(b0)
    ensures BitSet(x, 0) == b0 && BitSet(x, 1) == b1 && BitSet(x, 2) == b2 && BitSet(x, 3) == b3
  {
    var y := WordOf(q);
    InValue(y, b3);
    InValue(In(y, b3), b2);
    InValue(In(In(y, b3), b2), b1);
    InValue(In(In(In(y, b3), b2), b1), b0);
    x := In(In(In(In(y, b3), b2), b1), b0);
    LowBits(y, b3, b2, b1, b0);
  }

  lemma FourBits(i: nat, i1: nat, i2: nat, i3: nat, i4: nat)
    requires i1 == i / 2 && i2 == i1 / 2 && i3 == i2 / 2 && i4 == i3 / 2
    ensures i % 0x10000 == 2 * (2 * (2 * (2 * (i4 % 0x1000) + i3 % 2) + i2 % 2) + i1 % 2) + i % 2
  {
    HalfMod(i, 0x8000);
    HalfMod(i1, 0x4000);
    HalfMod(i2, 0x2000);
    HalfMod(i3, 0x1000);
  }

  /** The lowest four bits of a number are those of its word. */
  lemma NumberBits(i: nat) returns (x: bv16)
    ensures x == Low16(i)
    ensures BitSet(x, 0) == (i % 2 == 1) && BitSet(x, 1) == (i / 2 % 2 == 1)
    ensures BitSet(x, 2) == (i / 2 / 2 % 2 == 1) && BitSet(x, 3) == (i / 2 / 2 / 2 % 2 == 1)
  {
    var i1, p := i / 2, i % 0x10000;
    var i2 := i1 / 2;
    var i3 := i2 / 2;
    FourBits(i, i1, i2, i3, i3 / 2);
    x := BuildWord(i3 / 2 % 0x1000, i3 % 2 == 1, i2 % 2 == 1, i1 % 2 == 1, i % 2 == 1);
    SameWord(p, x);
  }

  lemma Eighth(i: nat)
    ensures i % 8 == Bit(i % 2 == 1) + 2 * Bit(i / 2 % 2 == 1) + 4 * Bit(i / 2 / 2 % 2 == 1)
  {
    HalfMod(i, 4);
    HalfMod(i / 2, 2);
  }

  lemma ThreeBits(d: bv16)
    ensures (d & 7) as int == Bit(BitSet(d, 0)) + 2 * Bit(BitSet(d, 1)) + 4 * Bit(BitSet(d, 2))
  {
  }

  /** The data word of the i-th item: bits 0 to 2, which choose the algorithm, are i mod 8; bits 3 to 6 are
      (seed xor i) mod 16; bit 7 is clear; and the upper byte repeats the lower. */
  lemma ItemMeans(i: nat, seed: bv16)
    ensures var d := ItemData(i, seed);
      && (d & 7) as int == i % 8
      && BitSet(d, 3) == (BitSet(seed, 0) != (i % 2 == 1)) && BitSet(d, 4) == (BitSet(seed, 1) != (i / 2 % 2 == 1))
      && BitSet(d, 5) == (BitSet(seed, 2) != (i / 2 / 2 % 2 == 1)) && BitSet(d, 6) == (BitSet(seed, 3) != (i / 2 / 2 / 2 % 2 == 1))
      && !BitSet(d, 7) && d & 0xff == d >> 8
  {
    var x := NumberBits(i);
    var d := ItemData(i, seed);
    ItemBits(x, seed, d);
    ThreeBits(d);
    Eighth(i);
  }

  /** The pseudo-random index of an item, by the words of its position and the next: bits 14 and 15 are clear, and the
      others are those of seed xor the position, with the lowest three bits of the next position joined in at 8 to 10. */
  lemma MixedBits(x: bv16, next: bv16, seed: bv16, k: bv5)
    requires k < 16
    ensures k >= 14 ==> !BitSet(Mixed(x, next, seed), k)
    ensures k < 8 || 11 <= k < 14 ==> (BitSet(Mixed(x, next, seed), k) <==> BitSet(x, k) != BitSet(seed, k))
    ensures 8 <= k < 11 ==> (BitSet(Mixed(x, next, seed), k) <==> BitSet(next, k - 8) || BitSet(x, k) != BitSet(seed, k))
  {
  }

  /** What core_list_find compares when it looks for data: the number in bits 0 to 7. */
  lemma LowByteMeans(d: bv16)
    ensures LowByte(d) == Bit(BitSet(d, 0)) + 2 * Bit(BitSet(d, 1)) + 4 * Bit(BitSet(d, 2)) + 8 * Bit(BitSet(d, 3)) +
      16 * Bit(BitSet(d, 4)) + 32 * Bit(BitSet(d, 5)) + 64 * Bit(BitSet(d, 6)) + 128 * Bit(BitSet(d, 7))
  {
  }
}
