/** For which block sizes the seeds shipped with the benchmark give pairwise different indices. */
module ListSeeds {
  import opened ListCells
  import opened ListInit
  import opened ListRestore

  // ----- words and their values

  /** y with one bit shifted in at the low end. */
  function In(y: bv16, b: bool): bv16 { if b then (y << 1) | 1 else y << 1 }

  function Bit(b: bool): nat { if b then 1 else 0 }

  lemma InValue(y: bv16, b: bool)
    requires y as int < 0x8000
    ensures In(y, b) as int == 2 * (y as int) + Bit(b)
  {
    ShiftIn(y);
  }

  lemma ShiftIn(y: bv16)
    requires y as int < 0x8000
    ensures (y << 1) as int == 2 * (y as int) && ((y << 1) | 1) as int == 2 * (y as int) + 1
  {
    assert y < 0x8000;
  }

  /** The word with a given value, bit by bit. */
  lemma {:induction false} WordOf(p: nat) returns (x: bv16)
    requires p < 0x10000
    ensures x as int == p
  {
    if p == 0 {
      x := 0;
    } else {
      x := WordOf(p / 2);
      InValue(x, p % 2 == 1);
      x := In(x, p % 2 == 1);
    }
  }

  lemma SameWord(p: nat, x: bv16)
    requires p == x as int
    ensures Low16(p) == x
  {
    assert p % 0x10000 == x as int;
  }

  lemma ByteWord(x: bv16)
    ensures x as int < 0x100 ==> x & 0xff00 == 0
    ensures 0x100 <= x as int < 0x200 ==> x & 0xff00 == 0x100 && (x & 0xff) as int == x as int - 0x100
  {
  }

  lemma AsIntInjective(a: bv16, b: bv16)
    requires a as int == b as int
    ensures a == b
  {
    assert (a as int) as bv16 == a && (b as int) as bv16 == b;
  }

  /** The index of an inner position past the first fifth. */
  function MixedIdx(p: nat, seed: bv16): bv16 { Mixed(Low16(p), Low16(p + 1), seed) }

  lemma IdxByWords(p: nat, x: bv16, next: bv16, seed: bv16)
    requires p == x as int && p + 1 == next as int
    ensures MixedIdx(p, seed) == Mixed(x, next, seed)
  {
    SameWord(p, x);
    SameWord(p + 1, next);
  }

  // ----- large blocks collide, whatever the seed

  /** An even position with bit 8 clear and the one 256 further on get the same index. */
  lemma TwinWords(y: bv16, seed: bv16)
    requires y & 0x80 == 0
    ensures var z := y | 0x80; Mixed(In(y, false), In(y, true), seed) == Mixed(In(z, false), In(z, true), seed)
  {
  }

  lemma TwinValues(y: bv16)
    requires y & 0x80 == 0
    ensures (y | 0x80) as int == y as int + 0x80
  {
  }

  /** Position p and the one 256 further on get the same index. */
  predicate Twins(p: nat, seed: bv16) { MixedIdx(p, seed) as int == MixedIdx(p + 0x100, seed) as int }

  lemma TwinIdx(y: bv16, p: nat, seed: bv16)
    requires y & 0x80 == 0 && y as int < 0x7f00 && p == 2 * (y as int)
    ensures Twins(p, seed)
  {
    var z := y | 0x80;
    TwinValues(y);
    InValue(y, false);
    InValue(y, true);
    InValue(z, false);
    InValue(z, true);
    IdxByWords(p, In(y, false), In(y, true), seed);
    IdxByWords(p + 0x100, In(z, false), In(z, true), seed);
    TwinWords(y, seed);
  }

  /** A mixed position of the block has the mixed index. */
  lemma MixedCell(p: nat, size: nat, seed: bv16)
    requires 1 <= p < size - 2 && size / 5 <= p
    ensures InitCells(size - 1, size, seed)[p].idx == MixedIdx(p, seed) as int
  {
  }

  lemma TwinCells(p: nat, size: nat, seed: bv16)
    requires Twins(p, seed) && 1 <= p && size / 5 <= p && p + 0x100 < size - 2
    ensures !IdxDistinct(InitCells(size - 1, size, seed))
  {
    MixedCell(p, size, seed);
    MixedCell(p + 0x100, size, seed);
  }

  lemma LowTwins(p: nat, seed: bv16)
    requires p % 2 == 0 && p < 0x100
    ensures Twins(p, seed)
  {
    var y := WordOf(p / 2);
    SevenBits(y);
    TwinIdx(y, p, seed);
  }

  lemma SevenBits(y: bv16)
    requires y as int < 0x80
    ensures y & 0x80 == 0
  {
  }

  lemma HighTwins(m: nat, seed: bv16)
    requires m < 0x70
    ensures Twins(512 * m, seed)
  {
    var w := WordOf(m);
    ByteUp(w);
    TwinIdx(w << 8, 512 * m, seed);
  }

  lemma ByteUp(w: bv16)
    requires w as int < 0x80
    ensures (w << 8) & 0x80 == 0 && (w << 8) as int == 256 * (w as int)
  {
    assert w < 0x80;
  }

  /** From 323 cells on indices collide, whatever the seed. */
  lemma LargeBlocksCollide(size: nat, seed: bv16)
    requires 323 <= size && size / 5 <= 0x7fff
    ensures !IdxDistinct(InitCells(size - 1, size, seed))
  {
    if size / 5 <= 254 {
      var p := LowChoice(size);
      LowTwins(p, seed);
      TwinCells(p, size, seed);
    } else {
      var m := HighChoice(size);
      HighTwins(m, seed);
      TwinCells(512 * m, size, seed);
    }
  }

  lemma LowChoice(size: nat) returns (p: nat)
    requires 323 <= size && size / 5 <= 254
    ensures p % 2 == 0 && p < 0x100 && 1 <= p && size / 5 <= p && p + 0x100 < size - 2
  {
    p := size / 5 + size / 5 % 2;
  }

  lemma HighChoice(size: nat) returns (m: nat)
    requires 254 < size / 5 <= 0x7fff
    ensures m < 0x70 && 1 <= 512 * m && size / 5 <= 512 * m && 512 * m + 0x100 < size - 2
  {
    m := (size / 5 + 511) / 512;
  }

  // ----- up to 322 cells

  /** Two words below 512 with the same mixed index agree in their low byte. */
  lemma SameLowByte(x: bv16, n: bv16, y: bv16, m: bv16, seed: bv16)
    requires x & 0xfe00 == 0 && y & 0xfe00 == 0 && Mixed(x, n, seed) == Mixed(y, m, seed)
    ensures x & 0xff == y & 0xff
  {
  }

  lemma LowByteValue(x: bv16)
    requires x as int < 0x200
    ensures x & 0xfe00 == 0 && (x & 0xff) as int == if x as int < 0x100 then x as int else x as int - 0x100
  {
  }

  lemma WordsApart(x: bv16, n: bv16, y: bv16, m: bv16, size: nat, seed: bv16)
    requires size <= 322 && size / 5 <= x as int < y as int < size - 2
    ensures Mixed(x, n, seed) as int != Mixed(y, m, seed) as int
  {
    LowByteValue(x);
    LowByteValue(y);
    var a, b := Mixed(x, n, seed), Mixed(y, m, seed);
    if a as int == b as int {
      AsIntInjective(a, b);
      SameLowByte(x, n, y, m, seed);
    }
  }

  /** Two mixed positions of a block of at most 322 cells have different indices, whatever the seed. */
  lemma MixedApart(p: nat, q: nat, size: nat, seed: bv16)
    requires size <= 322 && size / 5 <= p < q < size - 2
    ensures MixedIdx(p, seed) as int != MixedIdx(q, seed) as int
  {
    var x := WordOf(p);
    var n := WordOf(p + 1);
    var y := WordOf(q);
    var m := WordOf(q + 1);
    IdxByWords(p, x, n, seed);
    IdxByWords(q, y, m, seed);
    WordsApart(x, n, y, m, size, seed);
  }

  /** Seeds 0 and 0x3415: a mixed index is never a position below it. */
  lemma ApartZero(x: bv16, next: bv16, p: bv16)
    requires x & 0xfe00 == 0 && p & 0xff00 == 0 && Mixed(x, next, 0) == p
    ensures x == p
  {
  }

  lemma ApartValidation(x: bv16, next: bv16, p: bv16)
    requires x & 0xfe00 == 0 && p & 0xff00 == 0
    ensures Mixed(x, next, 0x3415) != p
  {
  }

  /** Seed 8: only the position with bit 3 flipped, and only before a multiple of eight. */
  lemma ApartProfile(x: bv16, next: bv16, p: bv16)
    requires x & 0xfe00 == 0 && p & 0xff00 == 0
    ensures Mixed(x, next, 8) == p <==> x ^ 8 == p && next & 7 == 0
  {
  }

  /** Bit 3 of a number flipped. */
  function Flip8(q: nat): nat { if q % 16 >= 8 then q - 8 else q + 8 }

  lemma SmallWord(x: bv16)
    requires x as int < 0x400
    ensures x & 0xfc00 == 0
  {
  }

  lemma Nibble(x: bv16)
    requires x & 0xfc00 == 0
    ensures x as int == 16 * ((x >> 4) as int) + (x & 15) as int
  {
  }

  lemma NibbleBits(x: bv16)
    ensures x & 7 == 0 <==> (x & 15) as int == 0 || (x & 15) as int == 8
    ensures x & 8 != 0 <==> (x & 15) as int >= 8
    ensures (x & 15) as int < 16
  {
  }

  /** Divisibility by eight, on the word. */
  lemma WordEights(x: bv16)
    requires x as int < 0x400
    ensures x & 7 == 0 <==> x as int % 8 == 0
  {
    SmallWord(x);
    Nibble(x);
    NibbleBits(x);
    Remainder16(x as int, (x >> 4) as int, (x & 15) as int);
  }

  lemma ClearEight(x: bv16)
    requires x & 0xfc00 == 0 && x & 8 != 0
    ensures (x ^ 8) as int == x as int - 8
  {
  }

  lemma SetEight(x: bv16)
    requires x & 0xfc00 == 0 && x & 8 == 0
    ensures (x ^ 8) as int == x as int + 8
  {
  }

  lemma WordFlip(x: bv16)
    requires x as int < 0x400
    ensures (x ^ 8) as int == Flip8(x as int)
  {
    BitThree(x);
    SmallWord(x);
    if x & 8 != 0 {
      ClearEight(x);
    } else {
      SetEight(x);
    }
  }

  lemma BitThree(x: bv16)
    requires x as int < 0x400
    ensures x & 8 != 0 <==> x as int % 16 >= 8
  {
    SmallWord(x);
    Nibble(x);
    NibbleBits(x);
    Remainder16(x as int, (x >> 4) as int, (x & 15) as int);
  }

  lemma Remainder16(v: int, k: int, r: int)
    requires v == 16 * k + r && 0 <= r < 16
    ensures v % 16 == r && (v % 8 == 0 <==> r == 0 || r == 8)
  {
  }

  /** A sequential index p that is also the mixed index of position q. */
  predicate Clash(p: nat, q: nat, seed: bv16) { MixedIdx(q, seed) as int == p }

  /** When a mixed index of seed 8 is a given small number. */
  lemma ProfileIdx(q: nat, p: nat)
    requires q < 0x200 && p < 0x100
    ensures Clash(p, q, 8) <==> Flip8(q) == p && (q + 1) % 8 == 0
  {
    var x := WordOf(q);
    var n := WordOf(q + 1);
    var w := WordOf(p);
    WordFlip(x);
    WordEights(n);
    IdxByWords(q, x, n, 8);
    ProfileWords(x, n, w);
  }

  lemma ProfileWords(x: bv16, n: bv16, w: bv16)
    requires x as int < 0x200 && w as int < 0x100
    ensures Mixed(x, n, 8) as int == w as int <==> (x ^ 8) as int == w as int && n & 7 == 0
  {
    LowByteValue(x);
    ByteWord(w);
    ApartProfile(x, n, w);
    if Mixed(x, n, 8) as int == w as int {
      AsIntInjective(Mixed(x, n, 8), w);
    }
    if (x ^ 8) as int == w as int {
      AsIntInjective(x ^ 8, w);
    }
  }

  /** With the performance and validation seeds a mixed index is no sequential one. */
  lemma ShippedIdx(q: nat, p: nat, seed: bv16)
    requires p < q < 0x200 && p < 0x100 && (seed == 0 || seed == 0x3415)
    ensures !Clash(p, q, seed)
  {
    var x := WordOf(q);
    var n := WordOf(q + 1);
    var w := WordOf(p);
    IdxByWords(q, x, n, seed);
    ShippedWords(x, n, w, seed);
  }

  lemma ShippedWords(x: bv16, n: bv16, w: bv16, seed: bv16)
    requires x as int < 0x200 && w as int < 0x100 && w as int < x as int && (seed == 0 || seed == 0x3415)
    ensures Mixed(x, n, seed) as int != w as int
  {
    LowByteValue(x);
    ByteWord(w);
    if Mixed(x, n, seed) as int == w as int {
      AsIntInjective(Mixed(x, n, seed), w);
      if seed == 0 {
        ApartZero(x, n, w);
      } else {
        ApartValidation(x, n, w);
      }
    }
  }

  ghost predicate NoClash(size: nat, seed: bv16) {
    forall p: nat, q: nat {:trigger Clash(p, q, seed)} :: p < size / 5 <= q < size - 2 && 1 <= q ==> !Clash(p, q, seed)
  }

  lemma SequentialCell(p: nat, size: nat, seed: bv16)
    requires 4 <= size && p < size - 2 && (p == 0 || p < size / 5)
    ensures InitCells(size - 1, size, seed)[p].idx == p
  {
  }

  lemma LastCell(size: nat, seed: bv16)
    requires 4 <= size
    ensures InitCells(size - 1, size, seed)[size - 2].idx == 0x7fff
  {
  }

  lemma MixedSmall(p: nat, seed: bv16)
    ensures MixedIdx(p, seed) as int <= 0x3fff
  {
  }

  /** What the index of an inner position can be. */
  lemma InnerCell(p: nat, size: nat, seed: bv16)
    requires 4 <= size && p < size - 2 && size / 5 <= 0x7fff
    ensures InitCells(size - 1, size, seed)[p].idx < 0x7fff
  {
    if p == 0 || p < size / 5 {
      SequentialCell(p, size, seed);
    } else {
      MixedCell(p, size, seed);
      MixedSmall(p, seed);
    }
  }

  lemma SequentialMixed(p: nat, q: nat, size: nat, seed: bv16)
    requires 4 <= size && (p == 0 || p < size / 5) && p < q && size / 5 <= q < size - 2
    ensures var cells := InitCells(size - 1, size, seed); cells[p].idx == cells[q].idx <==> Clash(p, q, seed)
  {
    SequentialCell(p, size, seed);
    MixedCell(q, size, seed);
  }

  lemma BothMixed(p: nat, q: nat, size: nat, seed: bv16)
    requires 4 <= size <= 322 && 1 <= p && size / 5 <= p < q < size - 2
    ensures var cells := InitCells(size - 1, size, seed); cells[p].idx != cells[q].idx
  {
    MixedCell(p, size, seed);
    MixedCell(q, size, seed);
    MixedApart(p, q, size, seed);
  }

  lemma PairApart(i: nat, j: nat, size: nat, seed: bv16)
    requires 5 <= size <= 322 && i < j < size - 1 && NoClash(size, seed)
    ensures var cells := InitCells(size - 1, size, seed); cells[i].idx != cells[j].idx
  {
    if j == size - 2 {
      LastCell(size, seed);
      InnerCell(i, size, seed);
    } else if j < size / 5 {
      SequentialCell(i, size, seed);
      SequentialCell(j, size, seed);
    } else if i == 0 || i < size / 5 {
      SequentialMixed(i, j, size, seed);
    } else {
      BothMixed(i, j, size, seed);
    }
  }

  /** In a block of 5 to 322 cells only a sequential and a mixed index can collide. */
  lemma SmallBlocks(size: nat, seed: bv16)
    requires 5 <= size <= 322
    ensures IdxDistinct(InitCells(size - 1, size, seed)) <==> NoClash(size, seed)
  {
    var cells := InitCells(size - 1, size, seed);
    if NoClash(size, seed) {
      forall i, j | 0 <= i < j < size - 1 ensures cells[i].idx != cells[j].idx {
        PairApart(i, j, size, seed);
      }
    }
    if IdxDistinct(cells) {
      forall p: nat, q: nat | p < size / 5 <= q < size - 2 && 1 <= q ensures !Clash(p, q, seed) {
        SequentialMixed(p, q, size, seed);
        assert cells[p].idx != cells[q].idx;
      }
    }
  }

  /** Four cells: one inner item, at position 1. */
  lemma FourCells(seed: bv16)
    requires !Clash(0, 1, seed)
    ensures IdxDistinct(InitCells(3, 4, seed))
  {
    var cells := InitCells(3, 4, seed);
    assert cells[0].idx != cells[1].idx by {
      SequentialMixed(0, 1, 4, seed);
    }
    assert cells[0].idx < 0x7fff && cells[1].idx < 0x7fff by {
      InnerCell(0, 4, seed);
      InnerCell(1, 4, seed);
    }
    assert cells[2].idx == 0x7fff by {
      LastCell(4, seed);
    }
  }

  /** The shipped seeds, exactly: the performance and validation seeds never collide up to 322 cells ... */
  lemma ShippedSeedsIff(size: nat, seed: bv16)
    requires 4 <= size && size / 5 <= 0x7fff && (seed == 0 || seed == 0x3415)
    ensures IdxDistinct(InitCells(size - 1, size, seed)) <==> size <= 322
  {
    if size == 4 {
      ShippedIdx(1, 0, seed);
      FourCells(seed);
    } else if size <= 322 {
      SmallBlocks(size, seed);
      forall p: nat, q: nat | p < size / 5 <= q < size - 2 && 1 <= q ensures !Clash(p, q, seed) {
        ShippedIdx(q, p, seed);
      }
    } else {
      LargeBlocksCollide(size, seed);
    }
  }

  /** ... and the profile seed collides in every other range of 40 cells as well. */
  lemma ProfileSeedIff(size: nat)
    requires 4 <= size && size / 5 <= 0x7fff
    ensures IdxDistinct(InitCells(size - 1, size, 8)) <==> size <= 322 && size / 40 % 2 == 0
  {
    if size == 4 {
      ProfileFour();
    } else if size <= 322 {
      SmallBlocks(size, 8);
      ProfileClashes(size);
    } else {
      LargeBlocksCollide(size, 8);
    }
  }

  lemma ProfileFour()
    ensures IdxDistinct(InitCells(3, 4, 8))
  {
    ProfileIdx(1, 0);
    FourCells(8);
  }

  lemma ProfileClashes(size: nat)
    requires 5 <= size <= 322
    ensures NoClash(size, 8) <==> size / 40 % 2 == 0
  {
    if size / 40 % 2 == 0 {
      forall p: nat, q: nat | p < size / 5 <= q < size - 2 && 1 <= q ensures !Clash(p, q, 8) {
        ProfileIdx(q, p);
        Between(p, q, size);
      }
    } else {
      var q := size / 40 * 8 + 7;
      Spanned(q, size);
      ProfileIdx(q, q - 8);
      assert Clash(q - 8, q, 8);
    }
  }

  lemma FifthEighth(size: nat)
    ensures size / 40 == size / 5 / 8
  {
  }

  lemma OddEighth(f: nat, k: nat)
    requires 16 * k + 8 <= f <= 16 * k + 15
    ensures f / 8 == 2 * k + 1 && f / 8 % 2 == 1
  {
  }

  lemma FlipBefore(q: nat, p: nat)
    requires p < q
    ensures Flip8(q) == p && (q + 1) % 8 == 0 <==> q == 16 * (q / 16) + 15 && p == 16 * (q / 16) + 7
  {
    FlipSplit(q / 16, q % 16, p);
    assert q == 16 * (q / 16) + q % 16;
  }

  lemma FlipSplit(k: nat, r: nat, p: nat)
    requires r < 16 && p < 16 * k + r
    ensures var q := 16 * k + r; Flip8(q) == p && (q + 1) % 8 == 0 <==> r == 15 && p == 16 * k + 7
  {
    var q := 16 * k + r;
    assert q % 16 == r;
    assert (q + 1) % 8 == (r + 1) % 8;
  }

  /** A clash of seed 8 spans an odd multiple of 40 cells. */
  lemma Between(p: nat, q: nat, size: nat)
    requires p < size / 5 <= q
    ensures Flip8(q) == p && (q + 1) % 8 == 0 ==> size / 40 % 2 == 1
  {
    FlipBefore(q, p);
    FifthEighth(size);
    if q == 16 * (q / 16) + 15 && p == 16 * (q / 16) + 7 {
      OddEighth(size / 5, q / 16);
    }
  }

  lemma OddParts(f: nat)
    requires f / 8 % 2 == 1
    ensures var k := f / 8 / 2; 16 * k + 8 <= f <= 16 * k + 15 && f / 8 == 2 * k + 1
  {
  }

  lemma FlipAfter(k: nat)
    ensures var q := 16 * k + 15; Flip8(q) == q - 8 && (q + 1) % 8 == 0
  {
  }

  lemma Spanned(q: nat, size: nat)
    requires size / 40 % 2 == 1 && q == size / 40 * 8 + 7
    ensures q - 8 < size / 5 <= q < size - 2 && Flip8(q) == q - 8 && (q + 1) % 8 == 0
  {
    FifthEighth(size);
    var f := size / 5;
    OddParts(f);
    FlipAfter(f / 8 / 2);
    assert 5 * f <= size;
  }
}
