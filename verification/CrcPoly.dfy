/** What the checksum of core_util.c is: a remainder of polynomials over GF(2).  A polynomial is the sequence of
    its coefficients, highest power first, so a message is the polynomial of its bits in the order they are fed. */
module CrcPoly {
  import opened Crc16
  import opened Modulus

  /** x^16 + x^15 + x^2 + 1 */
  const Generator: seq<bool> := [
    true, true, false, false, false, false, false, false, false, false, false, false, false, false, true, false, true]

  /** The sum modulo 2 of p[i] * g[k - i] over all i. */
  function Convolution(p: seq<bool>, g: seq<bool>, k: int): bool
    decreases |p|
  {
    p != [] && (p[0] && Bit(g, k)) != Convolution(p[1..], g, k - 1)
  }

  /** The product of two polynomials. */
  function Times(p: seq<bool>, g: seq<bool>): (r: seq<bool>)
    requires g != []
    ensures |r| == |p| + |g| - 1 && forall k :: 0 <= k < |r| ==> r[k] == Convolution(p, g, k)
  {
    seq(|p| + |g| - 1, k => Convolution(p, g, k))
  }

  /** The feedback bits of the register, first bit first. */
  function Feedback(bits: seq<bool>, w: Word): (q: seq<bool>)
    ensures |q| == |bits|
    decreases |bits|
  {
    if bits == [] then [] else [w[0] != bits[0]] + Feedback(bits[1..], Shift(bits[0], w))
  }

  /** message * x^16 + state * x^n: what the generator divides. */
  function Dividend(bits: seq<bool>, w: Word): (r: seq<bool>)
    ensures |r| == |bits| + 16
  {
    Xor(bits + Zeros(16), w + Zeros(|bits|))
  }

  lemma {:induction false} ConvolutionBelow(p: seq<bool>, g: seq<bool>, k: int)
    requires k < 0
    ensures !Convolution(p, g, k)
    decreases |p|
  {
    if p != [] {
      ConvolutionBelow(p[1..], g, k - 1);
    }
  }

  /** One more bit in front: its feedback adds a multiple of the generator. */
  lemma TimesHead(f: bool, p: seq<bool>, k: nat)
    requires k < |p| + 17
    ensures Times([f] + p, Generator)[k] == ((f && Bit(Generator, k)) != (k > 0 && Times(p, Generator)[k - 1]))
  {
    assert ([f] + p)[1..] == p;
    if k == 0 {
      ConvolutionBelow(p, Generator, -1);
    }
  }

  lemma DividendHead(b: bool, bits: seq<bool>, w: Word, k: nat)
    requires 0 < k < |bits| + 17
    ensures Dividend([b] + bits, w)[0] == (w[0] != b)
    ensures Dividend([b] + bits, w)[k] == (Dividend(bits, Shift(b, w))[k - 1] != (w[0] != b && Bit(Generator, k)))
  {
    assert k < 17 ==> Bit(Generator, k) == Tap(k - 1);
  }

  /** quotient * g + remainder */
  function Total(q: seq<bool>, r: Word): (d: seq<bool>)
    ensures |d| == |q| + 16
    ensures forall k :: 0 <= k < |d| ==> d[k] == (Times(q, Generator)[k] != (k >= |q| && r[k - |q|]))
  {
    Xor(Times(q, Generator), Zeros(|q|) + r)
  }

  /** A division goes on with the next bit. */
  lemma DivisionHead(b: bool, bits: seq<bool>, w: Word, q: seq<bool>, r: Word)
    requires |q| == |bits| && Dividend(bits, Shift(b, w)) == Total(q, r)
    ensures Dividend([b] + bits, w) == Total([w[0] != b] + q, r)
  {
    forall k | 0 <= k < |q| + 17 ensures Dividend([b] + bits, w)[k] == Total([w[0] != b] + q, r)[k] {
      TimesHead(w[0] != b, q, k);
      DividendHead(b, bits, w, if k == 0 then 1 else k);
    }
  }

  /** Long division: for every message and every state, the feedback bits are the quotient and the register is the
      remainder. */
  lemma {:induction false} RegisterDivides(bits: seq<bool>, w: Word)
    ensures Dividend(bits, w) == Total(Feedback(bits, w), Register(bits, w))
    decreases |bits|
  {
    if bits == [] {
      assert Dividend(bits, w) == w == Total([], w);
    } else {
      RegisterDivides(bits[1..], Shift(bits[0], w));
      DivisionHead(bits[0], bits[1..], w, Feedback(bits[1..], Shift(bits[0], w)), Register(bits, w));
      assert bits == [bits[0]] + bits[1..];
    }
  }

  /** A product determines its cofactor: the generator's leading coefficient is 1. */
  lemma {:induction false} QuotientUnique(p: seq<bool>, q: seq<bool>)
    requires |p| == |q| && forall k :: 0 <= k < |p| ==> Times(p, Generator)[k] == Times(q, Generator)[k]
    ensures p == q
    decreases |p|
  {
    if p != [] {
      assert p == [p[0]] + p[1..] && q == [q[0]] + q[1..];
      TimesHead(p[0], p[1..], 0);
      TimesHead(q[0], q[1..], 0);
      assert p[0] == q[0];
      forall k | 0 <= k < |p| - 1 ensures Times(p[1..], Generator)[k] == Times(q[1..], Generator)[k] {
        TimesHead(p[0], p[1..], k + 1);
        TimesHead(q[0], q[1..], k + 1);
      }
      QuotientUnique(p[1..], q[1..]);
    }
  }

  /** The remainder theorem, both ways: for every message of any length and every initial state, the register holds
      r exactly if message * x^16 + state * x^n leaves r when divided by x^16 + x^15 + x^2 + 1. */
  lemma RegisterIsRemainder(bits: seq<bool>, w: Word, r: Word)
    ensures r == Register(bits, w) <==> exists q :: Dividend(bits, w) == Total(q, r)
  {
    RegisterDivides(bits, w);
    if q :| Dividend(bits, w) == Total(q, r) {
      SameDivision(q, r, Feedback(bits, w), Register(bits, w));
    }
  }

  lemma SameDivision(q: seq<bool>, r: Word, q': seq<bool>, r': Word)
    requires Total(q, r) == Total(q', r')
    ensures q == q' && r == r'
  {
    var d := Total(q, r);
    assert |q| == |q'|;
    forall k | 0 <= k < |q| ensures Times(q, Generator)[k] == Times(q', Generator)[k] {
      assert d[k] == Times(q, Generator)[k] && d[k] == Times(q', Generator)[k];
    }
    QuotientUnique(q, q');
    forall k | 0 <= k < 16 ensures r[k] == r'[k] {
      assert d[|q| + k] == (Times(q, Generator)[|q| + k] != r[k]) && d[|q| + k] == (Times(q, Generator)[|q| + k] != r'[k]);
    }
  }

  /** A message of bytes, one crcu8 call each, from crc 0: the remainder of message * x^16. */
  lemma CrcIsRemainder(msg: seq<Byte>, r: Word)
    ensures r == Crc(msg, Zeros(16)) <==> exists q :: Bits(msg) + Zeros(16) == Total(q, r)
  {
    CrcIsRegister(msg, Zeros(16));
    RegisterIsRemainder(Bits(msg), Zeros(16), r);
    assert Dividend(Bits(msg), Zeros(16)) == Bits(msg) + Zeros(16);
  }

  // ----- words and numbers

  /** The number whose bits these are, least significant first. */
  function Value(bits: seq<bool>): nat {
    if bits == [] then 0 else (if bits[0] then 1 else 0) + 2 * Value(bits[1..])
  }

  /** The bits of a number have its value, up to the width of the word. */
  lemma {:induction false} BitsOfValue(x: nat, w: nat)
    ensures Value(BitsOf(x, w)) == x % Pow2(w)
    decreases w
  {
    if w > 0 {
      BitsOfValue(x / 2, w - 1);
      assert BitsOf(x, w)[1..] == BitsOf(x / 2, w - 1);
      HalfMod(x, Pow2(w - 1));
    }
  }
}
