/** The CRC service functions of core_util.c.  Machine words are their bits, least
    significant first.  The reference is `Register`: the reflected shift register of
    x^16 + x^15 + x^2 + 1, fed one bit at a time. */
module Crc16 {

  type Word = w: seq<bool> | |w| == 16 witness seq(16, i => false)
  type Byte = b: seq<bool> | |b| == 8 witness seq(8, i => false)

  /** The low w bits of a number, least significant first. */
  function BitsOf(x: nat, w: nat): (r: seq<bool>)
    ensures |r| == w
  {
    if w == 0 then [] else [x % 2 == 1] + BitsOf(x / 2, w - 1)
  }

  // ----- the machine operations crcu8 uses

  const X4002: Word := seq(16, i => i == 1 || i == 14)
  const X8000: Word := seq(16, i => i == 15)
  const X7FFF: Word := seq(16, i => i != 15)

  function Bit(w: seq<bool>, i: int): bool { 0 <= i < |w| && w[i] }

  function Xor(a: seq<bool>, b: seq<bool>): (r: seq<bool>)
    requires |a| == |b|
    ensures |r| == |a| && forall i :: 0 <= i < |a| ==> r[i] == (a[i] != b[i])
  {
    seq(|a|, i requires 0 <= i < |a| => a[i] != b[i])
  }

  function Or(a: Word, b: Word): (r: Word)
    ensures forall i :: 0 <= i < 16 ==> r[i] == (a[i] || b[i])
  {
    seq(16, i requires 0 <= i < 16 => a[i] || b[i])
  }

  function And(a: Word, b: Word): (r: Word)
    ensures forall i :: 0 <= i < 16 ==> r[i] == (a[i] && b[i])
  {
    seq(16, i requires 0 <= i < 16 => a[i] && b[i])
  }

  /** w >> 1 */
  function Half(w: seq<bool>): (r: seq<bool>)
    ensures |r| == |w| && forall i :: 0 <= i < |w| ==> r[i] == Bit(w, i + 1)
  {
    seq(|w|, i => Bit(w, i + 1))
  }

  // ----- the reference register

  /** Coefficients x^15 (position 0), x^2 (position 13) and 1 (position 15): 0xA001. */
  predicate Tap(i: int) { i == 0 || i == 13 || i == 15 }

  function Shift(bit: bool, w: Word): (r: Word)
    ensures forall i :: 0 <= i < 16 ==> r[i] == (Bit(w, i + 1) != (Tap(i) && w[0] != bit))
  {
    seq(16, i => Bit(w, i + 1) != (Tap(i) && w[0] != bit))
  }

  /** The register after a message of bits. */
  function Register(bits: seq<bool>, w: Word): Word
    decreases |bits|
  {
    if bits == [] then w else Register(bits[1..], Shift(bits[0], w))
  }

  function Crcu8(data: Byte, crc: Word): Word { Register(data, crc) }

  function Crcu16(newval: Word, crc: Word): Word { Crcu8(newval[8..], Crcu8(newval[..8], crc)) }

  // ----- the code

  method Crcu8Loop(data0: Byte, crc0: Word) returns (crc: Word)
    ensures crc == Crcu8(data0, crc0)
  {
    var data: seq<bool> := data0;
    crc := crc0;
    for i := 0 to 8
      invariant |data| == 8 && forall j :: 0 <= j < 8 - i ==> data[j] == data0[i + j]
      invariant Register(data0[i..], crc) == Crcu8(data0, crc0)
    {
      var x16 := data[0] != crc[0];
      ghost var shifted := Shift(data0[i], crc);
      data := Half(data);
      var carry := false;
      if x16 {
        crc := Xor(crc, X4002);
        carry := true;
      }
      crc := Half(crc);
      if carry {
        crc := Or(crc, X8000);
      } else {
        crc := And(crc, X7FFF);
      }
      assert crc == shifted;
      assert data0[i..][1..] == data0[i + 1..];
    }
  }

  method Crcu16Calls(newval: Word, crc0: Word) returns (crc: Word)
    ensures crc == Crcu16(newval, crc0)
    ensures crc == Register(newval, crc0)
  {
    crc := Crcu8Loop(newval[..8], crc0);
    crc := Crcu8Loop(newval[8..], crc);
    WordIsBits(newval, crc0);
  }

  /** crcu32: two crc16 calls, low half first. */
  method Crcu32(newval: seq<bool>, crc0: Word) returns (crc: Word)
    requires |newval| == 32
    ensures crc == Register(newval, crc0)
  {
    crc := Crcu16Calls(newval[..16], crc0);
    crc := Crcu16Calls(newval[16..], crc);
    RegisterAppend(newval[..16], newval[16..], crc0);
    assert newval[..16] + newval[16..] == newval;
  }

  // ----- composition: a message of any number of bytes and words

  lemma {:induction false} RegisterAppend(a: seq<bool>, b: seq<bool>, w: Word)
    ensures Register(a + b, w) == Register(b, Register(a, w))
    decreases |a|
  {
    if a == [] {
      assert a + b == b;
    } else {
      assert (a + b)[1..] == a[1..] + b;
      RegisterAppend(a[1..], b, Shift(a[0], w));
    }
  }

  lemma WordIsBits(newval: Word, crc: Word)
    ensures Crcu16(newval, crc) == Register(newval, crc)
  {
    RegisterAppend(newval[..8], newval[8..], crc);
    assert newval[..8] + newval[8..] == newval;
  }

  function Bits(msg: seq<Byte>): (r: seq<bool>)
    ensures |r| == 8 * |msg|
  {
    if msg == [] then [] else msg[0] + Bits(msg[1..])
  }

  function Crc(msg: seq<Byte>, crc: Word): Word
    decreases |msg|
  {
    if msg == [] then crc else Crc(msg[1..], Crcu8(msg[0], crc))
  }

  /** Feeding bytes one crcu8 call at a time is feeding their bits to the register. */
  lemma {:induction false} CrcIsRegister(msg: seq<Byte>, crc: Word)
    ensures Crc(msg, crc) == Register(Bits(msg), crc)
    decreases |msg|
  {
    if msg != [] {
      RegisterAppend(msg[0], Bits(msg[1..]), crc);
      CrcIsRegister(msg[1..], Crcu8(msg[0], crc));
    }
  }

  // ----- GF(2) linearity

  lemma ShiftLinear(b: bool, b': bool, w: Word, w': Word)
    ensures Shift(b != b', Xor(w, w')) == Xor(Shift(b, w), Shift(b', w'))
  {
  }

  lemma {:induction false} RegisterLinear(a: seq<bool>, b: seq<bool>, w: Word, w': Word)
    requires |a| == |b|
    ensures Register(Xor(a, b), Xor(w, w')) == Xor(Register(a, w), Register(b, w'))
    decreases |a|
  {
    if a != [] {
      assert Xor(a, b)[1..] == Xor(a[1..], b[1..]);
      ShiftLinear(a[0], b[0], w, w');
      RegisterLinear(a[1..], b[1..], Shift(a[0], w), Shift(b[0], w'));
    }
  }

  // ----- the state can be run backwards

  /** Undoing one shift: position 15 of the shifted register is the feedback. */
  function Unshift(bit: bool, w: Word): (r: Word)
    ensures r[0] == (w[15] != bit) && forall i :: 0 < i < 16 ==> r[i] == (w[i - 1] != (Tap(i - 1) && w[15]))
  {
    seq(16, i requires 0 <= i < 16 => if i == 0 then w[15] != bit else w[i - 1] != (Tap(i - 1) && w[15]))
  }

  lemma ShiftRoundTrip(bit: bool, w: Word)
    ensures Unshift(bit, Shift(bit, w)) == w
    ensures Shift(bit, Unshift(bit, w)) == w
  {
  }

  function Rewind(bits: seq<bool>, w: Word): Word
    decreases |bits|
  {
    if bits == [] then w else Unshift(bits[0], Rewind(bits[1..], w))
  }

  /** For any fixed message the register is a bijection on its state. */
  lemma {:induction false} RegisterBijective(bits: seq<bool>, w: Word)
    ensures Rewind(bits, Register(bits, w)) == w
    ensures Register(bits, Rewind(bits, w)) == w
    decreases |bits|
  {
    if bits != [] {
      ShiftRoundTrip(bits[0], w);
      RegisterBijective(bits[1..], Shift(bits[0], w));
      RegisterBijective(bits[1..], w);
      ShiftRoundTrip(bits[0], Rewind(bits[1..], w));
    }
  }

  // ----- a word fed in is a word in the state

  function Zeros(n: nat): (r: seq<bool>)
    ensures |r| == n && forall i :: 0 <= i < n ==> !r[i]
  {
    seq(n, i => false)
  }

  lemma {:induction false} RegisterOfZeros(n: nat)
    ensures Register(Zeros(n), Zeros(16)) == Zeros(16)
  {
    if n > 0 {
      assert Zeros(n)[1..] == Zeros(n - 1);
      assert Shift(false, Zeros(16)) == Zeros(16);
      RegisterOfZeros(n - 1);
    }
  }

  /** The first 16 bits of a message, zeros past its end. */
  function Window(bits: seq<bool>): (r: Word)
    ensures forall i :: 0 <= i < 16 ==> r[i] == Bit(bits, i)
  {
    seq(16, i => Bit(bits, i))
  }

  /** Feeding at most 16 bits into state s, or zeros into state s xor bits: when the bits are
      used up, the two registers agree. */
  lemma {:induction false} FeedIsState(bits: seq<bool>, s: Word)
    requires |bits| <= 16
    ensures Register(bits, s) == Register(Zeros(|bits|), Xor(s, Window(bits)))
    decreases |bits|
  {
    if bits == [] {
      assert Xor(s, Window(bits)) == s;
    } else {
      assert Zeros(|bits|)[1..] == Zeros(|bits| - 1);
      assert Shift(false, Xor(s, Window(bits))) == Xor(Shift(bits[0], s), Window(bits[1..]));
      FeedIsState(bits[1..], Shift(bits[0], s));
    }
  }

  /** crcu16(w, c) == crcu16(0, w xor c) */
  lemma WordIntoState(w: Word, c: Word)
    ensures Crcu16(w, c) == Crcu16(Zeros(16), Xor(w, c))
  {
    WordIsBits(w, c);
    WordIsBits(Zeros(16), Xor(w, c));
    WordIntoRegister(w, c);
  }

  lemma WordIntoRegister(w: Word, c: Word)
    ensures Register(w, c) == Register(Zeros(16), Xor(w, c))
  {
    FeedIsState(w, c);
    assert Xor(c, Window(w)) == Xor(w, c);
  }

  lemma XorSelf(w: Word)
    ensures Xor(w, w) == Zeros(16)
  {
  }

  // ----- burst errors

  lemma StateStaysNonZero(n: nat, w: Word)
    requires w != Zeros(16)
    ensures Register(Zeros(n), w) != Zeros(16)
  {
    RegisterOfZeros(n);
    RegisterBijective(Zeros(n), w);
    RegisterBijective(Zeros(n), Zeros(16));
  }

  /** At most 16 error bits, not all zero, leave a non-zero register. */
  lemma ShortBurst(burst: seq<bool>, i: nat)
    requires |burst| <= 16 && i < |burst| && burst[i]
    ensures Register(burst, Zeros(16)) != Zeros(16)
  {
    FeedIsState(burst, Zeros(16));
    var w: Word := Xor(Zeros(16), Window(burst));
    assert w[i];
    StateStaysNonZero(|burst|, w);
  }

  /** An error pattern that is not zero and fits in 16 consecutive bits leaves a non-zero register. */
  lemma BurstLeavesTrace(e: seq<bool>, k: nat)
    requires exists i :: 0 <= i < |e| && e[i]
    requires forall i :: 0 <= i < |e| && e[i] ==> k <= i < k + 16
    ensures Register(e, Zeros(16)) != Zeros(16)
  {
    var i :| 0 <= i < |e| && e[i];
    if k + 16 <= |e| {
      BurstInside(e, k, k + 16, i);
    } else {
      BurstInside(e, k, |e|, i);
    }
  }

  lemma BurstInside(e: seq<bool>, k: nat, hi: nat, i: nat)
    requires k <= i < hi <= |e| && hi <= k + 16 && e[i]
    requires forall j :: 0 <= j < |e| && e[j] ==> k <= j < hi
    ensures Register(e, Zeros(16)) != Zeros(16)
  {
    var burst := Slice(e, k, hi);
    Surroundings(e, k, hi);
    ShortBurst(burst, i - k);
    ZerosAfter(burst, |e| - hi);
    ZerosBefore(burst + Zeros(|e| - hi), k);
  }

  function Slice(e: seq<bool>, k: nat, hi: nat): (r: seq<bool>)
    requires k <= hi <= |e|
    ensures |r| == hi - k && forall i :: 0 <= i < hi - k ==> r[i] == e[k + i]
  {
    e[k..hi]
  }

  lemma Surroundings(e: seq<bool>, k: nat, hi: nat)
    requires k <= hi <= |e| && forall i :: 0 <= i < |e| && e[i] ==> k <= i < hi
    ensures e == Zeros(k) + (Slice(e, k, hi) + Zeros(|e| - hi))
  {
  }

  lemma ZerosAfter(e: seq<bool>, n: nat)
    requires Register(e, Zeros(16)) != Zeros(16)
    ensures Register(e + Zeros(n), Zeros(16)) != Zeros(16)
  {
    StateStaysNonZero(n, Register(e, Zeros(16)));
    RegisterAppend(e, Zeros(n), Zeros(16));
  }

  lemma ZerosBefore(e: seq<bool>, n: nat)
    ensures Register(Zeros(n) + e, Zeros(16)) == Register(e, Zeros(16))
  {
    RegisterOfZeros(n);
    RegisterAppend(Zeros(n), e, Zeros(16));
  }

  /** Two messages of the same length that differ, and differ only inside a window of 16
      consecutive bits, never have the same CRC. */
  lemma BurstDetected(a: seq<Byte>, b: seq<Byte>, crc: Word, k: nat)
    requires |a| == |b| && a != b
    requires forall i :: 0 <= i < |Bits(a)| && Bits(a)[i] != Bits(b)[i] ==> k <= i < k + 16
    ensures Crc(a, crc) != Crc(b, crc)
  {
    assert Bits(a) != Bits(b) by {
      if Bits(a) == Bits(b) {
        BitsInjective(a, b);
      }
    }
    var e := Xor(Bits(a), Bits(b));
    CrcIsRegister(a, crc);
    CrcIsRegister(b, crc);
    RegisterLinear(Bits(a), Bits(b), crc, crc);
    XorSelf(crc);
    assert exists i :: 0 <= i < |e| && e[i];
    BurstLeavesTrace(e, k);
    XorSelf(Crc(a, crc));
  }

  /** Different messages have different bits. */
  lemma {:induction false} BitsInjective(a: seq<Byte>, b: seq<Byte>)
    requires |a| == |b| && Bits(a) == Bits(b)
    ensures a == b
    decreases |a|
  {
    if a != [] {
      assert Bits(a)[..8] == a[0] && Bits(b)[..8] == b[0];
      assert Bits(a)[8..] == Bits(a[1..]) && Bits(b)[8..] == Bits(b[1..]);
      BitsInjective(a[1..], b[1..]);
      assert a == [a[0]] + a[1..] && b == [b[0]] + b[1..];
    }
  }
}
