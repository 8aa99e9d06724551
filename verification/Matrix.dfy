/** core_matrix.c: matrices kept flat in row order, 16-bit entries, 32-bit results. */
module Matrix {
  import opened Modulus
  import CrcPoly
  import Crc16

  function Wrap16(x: int): int { (x + 0x8000) % 0x1_0000 - 0x8000 }

  predicate Fits16(x: int) { -0x8000 <= x < 0x8000 }

  predicate Fits32(x: int) { -0x8000_0000 <= x < 0x8000_0000 }

  /** The one 16-bit number that differs from x by a multiple of 2^16. */
  lemma Wrap16Means(x: int, r: int)
    ensures r == Wrap16(x) <==> Fits16(r) && (r - x) % 0x1_0000 == 0
  {
  }

  lemma WrapAdd(a: int, b: int)
    ensures Wrap32(Wrap32(a) + b) == Wrap32(a + b)
  {
  }

  // ----- flat indices

  lemma CellIn(i: nat, j: nat, n: nat)
    requires i < n && j < n
    ensures i * n + j < n * n && i * n <= i * n + j
  {
    Scaled(i + 1, n, n);
    assert (i + 1) * n == i * n + n;
  }

  lemma Scaled(a: nat, b: nat, n: nat)
    requires a <= b
    ensures a * n <= b * n
  {
    assert b * n == a * n + (b - a) * n;
  }

  /** The entry of a flat n by n matrix in row i and column j. */
  function Entry(m: seq<int>, n: nat, i: nat, j: nat): int
    requires |m| == n * n && i < n && j < n
  {
    CellIn(i, j, n);
    m[i * n + j]
  }

  // ----- adding a constant

  function Added(m: seq<int>, val: int): (r: seq<int>)
    ensures |r| == |m| && forall q :: 0 <= q < |m| ==> r[q] == Wrap16(m[q] + val)
  {
    seq(|m|, q requires 0 <= q < |m| => Wrap16(m[q] + val))
  }

  method AddConst(n: nat, a: array<int>, val: int)
    requires a.Length == n * n
    modifies a
    ensures a[..] == Added(old(a[..]), val)
  {
    for i := 0 to n
      invariant 0 <= i * n <= n * n
      invariant forall q :: 0 <= q < n * n ==> a[q] == if q < i * n then Wrap16(old(a[q]) + val) else old(a[q])
    {
      Scaled(i + 1, n, n);
      AddRow(n, a, val, i);
      assert (i + 1) * n == i * n + n;
    }
  }

  method AddRow(n: nat, a: array<int>, val: int, i: nat)
    requires a.Length == n * n && i < n
    modifies a
    ensures forall q :: 0 <= q < n * n ==>
      a[q] == if i * n <= q < i * n + n then Wrap16(old(a[q]) + val) else old(a[q])
  {
    for j := 0 to n
      invariant forall q :: 0 <= q < n * n ==>
        a[q] == if i * n <= q < i * n + j then Wrap16(old(a[q]) + val) else old(a[q])
    {
      CellIn(i, j, n);
      a[i * n + j] := Wrap16(a[i * n + j] + val);
    }
  }

  lemma WrapBack(x: int, val: int)
    requires Fits16(x)
    ensures Wrap16(Wrap16(x + val) + Wrap16(-val)) == x
  {
  }

  predicate All16(m: seq<int>) { forall q :: 0 <= q < |m| ==> Fits16(m[q]) }

  /** Adding val and then -val restores every matrix, whatever wraps on the way. */
  lemma AddedBack(m: seq<int>, val: int)
    requires All16(m)
    ensures Added(Added(m, val), Wrap16(-val)) == m
  {
    forall q | 0 <= q < |m| ensures Added(Added(m, val), Wrap16(-val))[q] == m[q] {
      WrapBack(m[q], val);
    }
  }

  // ----- inner products

  /** What one term contributes: the product itself, or two of its bit fields multiplied. */
  datatype Term = Plain | Extract

  /** bit_extract: an arithmetic shift and a mask. */
  function BitExtract(x: int, shift: nat, mask: nat): int
    requires shift > 0 && mask > 0
  {
    x / shift % mask
  }

  function TermOf(t: Term, x: int): int {
    match t
    case Plain => x
    case Extract => BitExtract(x, 4, 16) * BitExtract(x, 32, 128)
  }

  /** Bit k of a number in two's complement. */
  predicate IntBit(x: int, k: nat)
    decreases k
  {
    if k == 0 then x % 2 == 1 else IntBit(x / 2, k - 1)
  }

  /** The number in the n bits from bit k on. */
  function Field(x: int, k: nat, n: nat): nat
    decreases n
  {
    if n == 0 then 0 else (if IntBit(x, k) then 1 else 0) + 2 * Field(x, k + 1, n - 1)
  }

  lemma {:induction false} FieldShift(x: int, k: nat, n: nat)
    ensures Field(x, k + 1, n) == Field(x / 2, k, n)
    decreases n
  {
    if n > 0 {
      FieldShift(x, k + 1, n - 1);
    }
  }

  lemma {:induction false} LowField(x: int, n: nat)
    ensures Field(x, 0, n) == x % Pow2(n)
    decreases n
  {
    if n > 0 {
      FieldShift(x, 0, n - 1);
      LowField(x / 2, n - 1);
      HalfMod(x, Pow2(n - 1));
    }
  }

  lemma {:induction false} FieldAt(x: int, k: nat, n: nat)
    ensures Field(x, k, n) == x / Pow2(k) % Pow2(n)
    decreases k
  {
    if k == 0 {
      LowField(x, n);
    } else {
      FieldShift(x, k - 1, n);
      FieldAt(x / 2, k - 1, n);
      DivTwice(x, Pow2(k - 1));
    }
  }

  lemma DivTwice(x: int, p: nat)
    requires p > 0
    ensures x / 2 / p == x / (2 * p)
  {
    var y := x / 2;
    assert y == (y / p) * p + y % p;
    assert (y / p) * (2 * p) == 2 * ((y / p) * p);
    DivUnique(x, 2 * p, y / p, x % 2 + 2 * (y % p));
  }

  /** A term of the bit-extracting product: bits 2 to 5 of the product times its bits 5 to 11. */
  lemma ExtractMeans(x: int)
    ensures TermOf(Extract, x) == Field(x, 2, 4) * Field(x, 5, 7)
  {
    FieldAt(x, 2, 4);
    FieldAt(x, 5, 7);
    assert Pow2(2) == 4 && Pow2(4) == 16 && Pow2(5) == 32 && Pow2(7) == 128;
  }

  /** The first k terms of row i of a times column j of b. */
  function Dot(t: Term, a: seq<int>, b: seq<int>, n: nat, i: nat, j: nat, k: nat): int
    requires |a| == |b| == n * n && i < n && j < n && k <= n
  {
    if k == 0 then 0
    else Dot(t, a, b, n, i, j, k - 1) + TermOf(t, Entry(a, n, i, k - 1) * Entry(b, n, k - 1, j))
  }

  /** One cell of a product, accumulated in place. */
  method Accumulate(t: Term, n: nat, c: array<int>, a: seq<int>, b: seq<int>, i: nat, j: nat)
    requires |a| == |b| == c.Length == n * n && i < n && j < n
    modifies c
    ensures 0 <= i * n + j < n * n && c[..] == old(c[..])[i * n + j := Wrap32(Dot(t, a, b, n, i, j, n))]
  {
    CellIn(i, j, n);
    var p := i * n + j;
    c[p] := 0;
    for k := 0 to n
      invariant c[..] == old(c[..])[p := Wrap32(Dot(t, a, b, n, i, j, k))]
    {
      CellIn(i, k, n);
      CellIn(k, j, n);
      var x := a[i * n + k] * b[k * n + j];
      var tmp := if t == Plain then x else (x / 4 % 16) * (x / 32 % 128);
      WrapAdd(Dot(t, a, b, n, i, j, k), tmp);
      c[p] := Wrap32(c[p] + tmp);
    }
  }

  /** The first p cells of the product, in row order. */
  function ProductTo(t: Term, a: seq<int>, b: seq<int>, n: nat, p: nat): (r: seq<int>)
    requires |a| == |b| == n * n && p <= n * n
    ensures |r| == p
  {
    if p == 0 then []
    else
      RowIn(p - 1, n);
      ProductTo(t, a, b, n, p - 1) + [Wrap32(Dot(t, a, b, n, (p - 1) / n, (p - 1) % n, n))]
  }

  lemma RowIn(p: nat, n: nat)
    requires p < n * n
    ensures n > 0 && p / n < n && p % n < n
  {
    assert p == p / n * n + p % n;
    if p / n >= n {
      Scaled(n, p / n, n);
    }
  }

  /** matrix_mul_matrix and matrix_mul_matrix_bitextract. */
  method MulMatrix(t: Term, n: nat, c: array<int>, a: seq<int>, b: seq<int>)
    requires |a| == |b| == c.Length == n * n
    modifies c
    ensures c[..] == ProductTo(t, a, b, n, n * n)
  {
    for i := 0 to n
      invariant 0 <= i * n <= n * n && c[..i * n] == ProductTo(t, a, b, n, i * n)
    {
      MulRow(t, n, c, a, b, i);
    }
    assert c[..n * n] == c[..];
  }

  method MulRow(t: Term, n: nat, c: array<int>, a: seq<int>, b: seq<int>, i: nat)
    requires |a| == |b| == c.Length == n * n && i < n && i * n <= n * n
    requires c[..i * n] == ProductTo(t, a, b, n, i * n)
    modifies c
    ensures (i + 1) * n <= n * n && c[..(i + 1) * n] == ProductTo(t, a, b, n, (i + 1) * n)
  {
    Scaled(i + 1, n, n);
    ghost var p: nat := i * n;
    for j := 0 to n
      invariant p == i * n + j <= n * n && c[..p] == ProductTo(t, a, b, n, p)
    {
      CellIn(i, j, n);
      ModUnique(p, n, i, j);
      DivUnique(p, n, i, j);
      Accumulate(t, n, c, a, b, i, j);
      p := p + 1;
      assert c[..p] == c[..p - 1] + [c[p - 1]];
    }
    assert (i + 1) * n == p;
  }

  lemma DivUnique(x: int, n: nat, q: int, r: int)
    requires n > 0 && x == q * n + r && 0 <= r < n
    ensures x / n == q
  {
    ModUnique(x, n, q, r);
    assert x == x / n * n + x % n;
    MultipleGrows(q - x / n, n);
    assert (q - x / n) * n == q * n - x / n * n;
  }

  /** The cell in row i and column j is their inner product. */
  lemma {:induction false} ProductAt(t: Term, a: seq<int>, b: seq<int>, n: nat, p: nat, i: nat, j: nat)
    requires |a| == |b| == n * n && i < n && j < n && i * n + j < p <= n * n
    ensures ProductTo(t, a, b, n, p)[i * n + j] == Wrap32(Dot(t, a, b, n, i, j, n))
    decreases p
  {
    if i * n + j == p - 1 {
      ModUnique(p - 1, n, i, j);
      DivUnique(p - 1, n, i, j);
    } else {
      ProductAt(t, a, b, n, p - 1, i, j);
    }
  }

  // ----- a row times a vector, and a scaled matrix

  function RowDot(a: seq<int>, v: seq<int>, n: nat, i: nat, k: nat): int
    requires |a| == n * n && |v| >= n && i < n && k <= n
  {
    if k == 0 then 0 else RowDot(a, v, n, i, k - 1) + Entry(a, n, i, k - 1) * v[k - 1]
  }

  method MulVect(n: nat, c: array<int>, a: seq<int>, v: seq<int>)
    requires |a| == c.Length == n * n && |v| >= n && n <= c.Length
    modifies c
    ensures forall i :: 0 <= i < n ==> c[i] == Wrap32(RowDot(a, v, n, i, n))
    ensures c[n..] == old(c[n..])
  {
    for i := 0 to n
      invariant forall x :: 0 <= x < i ==> c[x] == Wrap32(RowDot(a, v, n, x, n))
      invariant c[n..] == old(c[n..])
    {
      VectRow(n, c, a, v, i);
    }
  }

  method VectRow(n: nat, c: array<int>, a: seq<int>, v: seq<int>, i: nat)
    requires |a| == c.Length == n * n && |v| >= n && n <= c.Length && i < n
    modifies c
    ensures c[..] == old(c[..])[i := Wrap32(RowDot(a, v, n, i, n))]
  {
    c[i] := 0;
    for j := 0 to n
      invariant c[..] == old(c[..])[i := Wrap32(RowDot(a, v, n, i, j))]
    {
      CellIn(i, j, n);
      WrapAdd(RowDot(a, v, n, i, j), a[i * n + j] * v[j]);
      c[i] := Wrap32(c[i] + a[i * n + j] * v[j]);
    }
  }

  function Times(m: seq<int>, val: int): (r: seq<int>)
    ensures |r| == |m| && forall q :: 0 <= q < |m| ==> r[q] == m[q] * val
  {
    seq(|m|, q requires 0 <= q < |m| => m[q] * val)
  }

  method MulConst(n: nat, c: array<int>, a: seq<int>, val: int)
    requires |a| == c.Length == n * n
    modifies c
    ensures c[..] == Times(a, val)
  {
    for i := 0 to n
      invariant 0 <= i * n <= n * n && forall q :: 0 <= q < i * n ==> c[q] == a[q] * val
    {
      Scaled(i + 1, n, n);
      assert (i + 1) * n == i * n + n;
      for j := 0 to n
        invariant forall q :: 0 <= q < i * n + j ==> c[q] == a[q] * val
      {
        CellIn(i, j, n);
        c[i * n + j] := a[i * n + j] * val;
      }
    }
  }

  // ----- no overflow

  predicate Small(m: seq<int>, hi: nat) { forall q :: 0 <= q < |m| ==> 0 <= m[q] <= hi }

  lemma TermBound(x: int, y: int)
    requires 0 <= x <= 510 && Fits16(y)
    ensures -510 * 0x8000 <= x * y <= 510 * 0x8000
  {
    assert -0x8000 * x <= x * y <= 0x8000 * x;
  }

  lemma {:induction false} DotBound(a: seq<int>, b: seq<int>, n: nat, i: nat, j: nat, k: nat)
    requires |a| == |b| == n * n && i < n && j < n && k <= n && Small(a, 510) && All16(b)
    ensures -510 * 0x8000 * k <= Dot(Plain, a, b, n, i, j, k) <= 510 * 0x8000 * k
  {
    if k > 0 {
      DotBound(a, b, n, i, j, k - 1);
      CellIn(i, k - 1, n);
      CellIn(k - 1, j, n);
      TermBound(Entry(a, n, i, k - 1), Entry(b, n, k - 1, j));
    }
  }

  lemma {:induction false} RowDotBound(a: seq<int>, v: seq<int>, n: nat, i: nat, k: nat)
    requires |a| == n * n && |v| >= n && i < n && k <= n && Small(a, 510) && All16(v)
    ensures -510 * 0x8000 * k <= RowDot(a, v, n, i, k) <= 510 * 0x8000 * k
  {
    if k > 0 {
      RowDotBound(a, v, n, i, k - 1);
      CellIn(i, k - 1, n);
      TermBound(Entry(a, n, i, k - 1), v[k - 1]);
    }
  }

  /** No partial sum of any product of an n by n matrix with entries up to 510 by a 16-bit matrix
      leaves the 32-bit range. */
  ghost predicate NeverOverflows(n: nat) {
    forall a: seq<int>, b: seq<int>, i: nat, j: nat, k: nat ::
      |a| == n * n && |b| == n * n && i < n && j < n && k <= n && Small(a, 510) && All16(b)
      ==> Fits32(Dot(Plain, a, b, n, i, j, k))
  }

  lemma {:induction false} ExtremeDot(a: seq<int>, b: seq<int>, n: nat, i: nat, j: nat, k: nat)
    requires |a| == |b| == n * n && i < n && j < n && k <= n
    requires forall q :: 0 <= q < n * n ==> a[q] == 510 && b[q] == -0x8000
    ensures Dot(Plain, a, b, n, i, j, k) == -510 * 0x8000 * k
  {
    if k > 0 {
      ExtremeDot(a, b, n, i, j, k - 1);
      CellIn(i, k - 1, n);
      CellIn(k - 1, j, n);
      assert Entry(a, n, i, k - 1) == 510 && Entry(b, n, k - 1, j) == -0x8000;
    }
  }

  /** 128 is the largest dimension for which the 32-bit accumulators are enough. */
  lemma OverflowFreeIff(n: nat)
    ensures NeverOverflows(n) <==> n <= 128
  {
    if n <= 128 {
      forall a: seq<int>, b: seq<int>, i: nat, j: nat, k: nat
        | |a| == n * n && |b| == n * n && i < n && j < n && k <= n && Small(a, 510) && All16(b)
        ensures Fits32(Dot(Plain, a, b, n, i, j, k))
      {
        DotBound(a, b, n, i, j, k);
      }
    } else {
      var a, b := seq(n * n, q => 510), seq(n * n, q => -0x8000);
      ExtremeDot(a, b, n, 0, 0, 129);
      assert !Fits32(Dot(Plain, a, b, n, 0, 0, 129));
    }
  }

  lemma {:induction false} ExtractBound(a: seq<int>, b: seq<int>, n: nat, i: nat, j: nat, k: nat)
    requires |a| == |b| == n * n && i < n && j < n && k <= n
    ensures 0 <= Dot(Extract, a, b, n, i, j, k) <= 1905 * k
  {
    if k > 0 {
      ExtractBound(a, b, n, i, j, k - 1);
      var x := Entry(a, n, i, k - 1) * Entry(b, n, k - 1, j);
      FieldBound(BitExtract(x, 4, 16), BitExtract(x, 32, 128));
    }
  }

  lemma FieldBound(u: int, v: int)
    requires 0 <= u < 16 && 0 <= v < 128
    ensures 0 <= u * v <= 1905
  {
    assert u * v <= 15 * v by {
      assert (15 - u) * v >= 0;
    }
  }

  /** With the ranges core_init_matrix and calc_func guarantee, every result cell is the exact sum. */
  lemma ProductsExact(a: seq<int>, b: seq<int>, n: nat, val: int, i: nat, j: nat, p: nat)
    requires |a| == |b| == n * n && n <= 128 && i < n && j < n && p == i * n + j < n * n
    requires Small(a, 255) && All16(b) && 0 <= val <= 255
    ensures var s := Added(a, val);
      && (forall q :: 0 <= q < |a| ==> s[q] == a[q] + val)
      && ProductTo(Plain, s, b, n, |a|)[p] == Dot(Plain, s, b, n, i, j, n)
      && ProductTo(Extract, s, b, n, |a|)[p] == Dot(Extract, s, b, n, i, j, n)
  {
    var s := Added(a, val);
    AddedExact(a, val);
    PlainExact(s, b, n, i, j, p);
    ExtractExact(s, b, n, i, j, p);
  }

  /** So is every cell of the matrix-vector product. */
  lemma VectExact(a: seq<int>, v: seq<int>, n: nat, val: int, i: nat)
    requires |a| == n * n && n <= 128 && i < n && n <= |v| && Small(a, 255) && All16(v) && 0 <= val <= 255
    ensures Wrap32(RowDot(Added(a, val), v, n, i, n)) == RowDot(Added(a, val), v, n, i, n)
  {
    AddedExact(a, val);
    RowDotBound(Added(a, val), v, n, i, n);
    WrapFits(RowDot(Added(a, val), v, n, i, n));
  }

  lemma WrapFits(x: int)
    requires Fits32(x)
    ensures Wrap32(x) == x
  {
  }

  lemma AddedExact(a: seq<int>, val: int)
    requires Small(a, 255) && 0 <= val <= 255
    ensures Small(Added(a, val), 510) && forall q :: 0 <= q < |a| ==> Added(a, val)[q] == a[q] + val
  {
  }

  lemma PlainExact(a: seq<int>, b: seq<int>, n: nat, i: nat, j: nat, p: nat)
    requires |a| == |b| == n * n && n <= 128 && i < n && j < n && p == i * n + j < n * n && Small(a, 510) && All16(b)
    ensures ProductTo(Plain, a, b, n, |a|)[p] == Dot(Plain, a, b, n, i, j, n)
  {
    var d := Dot(Plain, a, b, n, i, j, n);
    assert Fits32(d) by {
      DotBound(a, b, n, i, j, n);
    }
    WrapFits(d);
    ProductAt(Plain, a, b, n, |a|, i, j);
  }

  lemma ExtractExact(a: seq<int>, b: seq<int>, n: nat, i: nat, j: nat, p: nat)
    requires |a| == |b| == n * n && n <= 0x10_0000 && i < n && j < n && p == i * n + j < n * n
    ensures ProductTo(Extract, a, b, n, |a|)[p] == Dot(Extract, a, b, n, i, j, n)
  {
    ProductAt(Extract, a, b, n, |a|, i, j);
    ExtractBound(a, b, n, i, j, n);
    WrapFits(Dot(Extract, a, b, n, i, j, n));
  }

  // ----- matrix_sum

  /** The accumulator, the previous element and the 16-bit result of matrix_sum. */
  datatype Sum = Sum(tmp: int, prev: int, ret: int)

  /** One element: past the clip value the accumulator starts again and ten is added; else one if the element
      is bigger than the one before. */
  function SumStep(s: Sum, cur: int, clip: int): Sum {
    var tmp := Wrap32(s.tmp + cur);
    if tmp > clip then Sum(0, cur, Wrap16(s.ret + 10))
    else Sum(tmp, cur, Wrap16(s.ret + (if cur > s.prev then 1 else 0)))
  }

  /** The first p elements, in row order. */
  function SumTo(c: seq<int>, clip: int, p: nat): Sum
    requires p <= |c|
  {
    if p == 0 then Sum(0, 0, 0) else SumStep(SumTo(c, clip, p - 1), c[p - 1], clip)
  }

  /** The body of the inner loop. */
  method AddElement(tmp0: int, prev: int, ret0: int, cur: int, clip: int) returns (tmp: int, ret: int)
    ensures Sum(tmp, cur, ret) == SumStep(Sum(tmp0, prev, ret0), cur, clip) && Fits16(ret)
  {
    tmp := Wrap32(tmp0 + cur);
    if tmp > clip {
      ret := Wrap16(ret0 + 10);
      tmp := 0;
    } else {
      ret := Wrap16(ret0 + (if cur > prev then 1 else 0));
    }
  }

  method SumRow(n: nat, c: array<int>, clip: int, i: nat, s: Sum) returns (r: Sum)
    requires c.Length == n * n && i < n && i * n <= n * n && s == SumTo(c[..], clip, i * n) && Fits16(s.ret)
    ensures (i + 1) * n <= n * n && r == SumTo(c[..], clip, (i + 1) * n) && Fits16(r.ret)
  {
    Scaled(i + 1, n, n);
    assert (i + 1) * n == i * n + n;
    var tmp, prev, ret := s.tmp, s.prev, s.ret;
    for j := 0 to n
      invariant Sum(tmp, prev, ret) == SumTo(c[..], clip, i * n + j) && Fits16(ret)
    {
      CellIn(i, j, n);
      var cur := c[i * n + j];
      tmp, ret := AddElement(tmp, prev, ret, cur, clip);
      prev := cur;
    }
    r := Sum(tmp, prev, ret);
  }

  method MatrixSum(n: nat, c: array<int>, clip: int) returns (ret: int)
    requires c.Length == n * n
    ensures ret == SumTo(c[..], clip, n * n).ret && Fits16(ret)
  {
    var s := Sum(0, 0, 0);
    for i := 0 to n
      invariant 0 <= i * n <= n * n && s == SumTo(c[..], clip, i * n) && Fits16(s.ret)
    {
      s := SumRow(n, c, clip, i, s);
    }
    ret := s.ret;
  }

  // ----- what matrix_sum counts

  /** The accumulator of matrix_sum after p elements. */
  function Accumulator(c: seq<int>, clip: int, p: nat): int
    requires p <= |c|
    decreases p, 0
  {
    if p == 0 || Resets(c, clip, p - 1) then 0 else Wrap32(Accumulator(c, clip, p - 1) + c[p - 1])
  }

  /** Element q takes it past the clip value. */
  predicate Resets(c: seq<int>, clip: int, q: nat)
    requires q < |c|
    decreases q, 1
  {
    Wrap32(Accumulator(c, clip, q) + c[q]) > clip
  }

  /** Element q does not, and is bigger than the one before it, the first than 0. */
  predicate Rises(c: seq<int>, clip: int, q: nat)
    requires q < |c|
  {
    !Resets(c, clip, q) && c[q] > if q == 0 then 0 else c[q - 1]
  }

  ghost function ResetSet(c: seq<int>, clip: int, p: nat): set<nat>
    requires p <= |c|
  {
    set q | 0 <= q < p && Resets(c, clip, q)
  }

  ghost function RiseSet(c: seq<int>, clip: int, p: nat): set<nat>
    requires p <= |c|
  {
    set q | 0 <= q < p && Rises(c, clip, q)
  }

  lemma ResetsGrow(c: seq<int>, clip: int, p: nat)
    requires p < |c|
    ensures |ResetSet(c, clip, p + 1)| == |ResetSet(c, clip, p)| + if Resets(c, clip, p) then 1 else 0
  {
    var now := ResetSet(c, clip, p);
    assert ResetSet(c, clip, p + 1) == if Resets(c, clip, p) then now + {p} else now;
  }

  lemma RisesGrow(c: seq<int>, clip: int, p: nat)
    requires p < |c|
    ensures |RiseSet(c, clip, p + 1)| == |RiseSet(c, clip, p)| + if Rises(c, clip, p) then 1 else 0
  {
    var now := RiseSet(c, clip, p);
    assert RiseSet(c, clip, p + 1) == if Rises(c, clip, p) then now + {p} else now;
  }

  /** Ten for every reset and one for every rise. */
  ghost function Tally(c: seq<int>, clip: int, p: nat): nat
    requires p <= |c|
  {
    10 * |ResetSet(c, clip, p)| + |RiseSet(c, clip, p)|
  }

  lemma TallyGrows(c: seq<int>, clip: int, p: nat)
    requires p < |c|
    ensures Tally(c, clip, p + 1) == Tally(c, clip, p) + if Resets(c, clip, p) then 10 else if Rises(c, clip, p) then 1 else 0
  {
    ResetsGrow(c, clip, p);
    RisesGrow(c, clip, p);
  }

  lemma NoneYet(c: seq<int>, clip: int)
    ensures Tally(c, clip, 0) == 0
  {
    assert ResetSet(c, clip, 0) == {} && RiseSet(c, clip, 0) == {};
  }

  lemma {:induction false} SumState(c: seq<int>, clip: int, p: nat)
    requires p <= |c|
    ensures SumTo(c, clip, p).tmp == Accumulator(c, clip, p) && SumTo(c, clip, p).prev == if p == 0 then 0 else c[p - 1]
    decreases p
  {
    if p > 0 {
      SumState(c, clip, p - 1);
    }
  }

  lemma SumAdds(c: seq<int>, clip: int, p: nat)
    requires p < |c|
    ensures SumTo(c, clip, p + 1).ret ==
      Wrap16(SumTo(c, clip, p).ret + if Resets(c, clip, p) then 10 else if Rises(c, clip, p) then 1 else 0)
  {
    SumState(c, clip, p);
  }

  /** matrix_sum is ten for every element that takes the accumulator past the clip value and one for every other that is
      bigger than its predecessor, in 16 bits. */
  lemma {:induction false} SumCounts(c: seq<int>, clip: int, p: nat)
    requires p <= |c|
    ensures SumTo(c, clip, p).ret == Wrap16(10 * |ResetSet(c, clip, p)| + |RiseSet(c, clip, p)|)
    decreases p
  {
    if p > 0 {
      var q, was := p - 1, Tally(c, clip, p - 1);
      SumCounts(c, clip, q);
      SumAdds(c, clip, q);
      TallyGrows(c, clip, q);
      WrapAdd16(was, if Resets(c, clip, q) then 10 else if Rises(c, clip, q) then 1 else 0);
    } else {
      NoneYet(c, clip);
    }
  }

  lemma WrapAdd16(a: int, b: int)
    ensures Wrap16(Wrap16(a) + b) == Wrap16(a + b)
  {
  }

  function Total(c: seq<int>, r: nat, p: nat): int
    requires r <= p <= |c|
  {
    if r == p then 0 else Total(c, r, p - 1) + c[p - 1]
  }

  /** The accumulator is the 32-bit sum of the elements since the last of those. */
  lemma {:induction false} AccumulatorMeans(c: seq<int>, clip: int, r: nat, p: nat)
    requires r <= p <= |c| && (r == 0 || Resets(c, clip, r - 1))
    requires forall q :: r <= q < p ==> !Resets(c, clip, q)
    ensures Accumulator(c, clip, p) == Wrap32(Total(c, r, p))
    decreases p
  {
    if r < p {
      AccumulatorMeans(c, clip, r, p - 1);
      WrapAdd(Total(c, r, p - 1), c[p - 1]);
    }
  }

  /** The bits of a 16-bit value. */
  function Word16(x: int): Crc16.Word { Crc16.BitsOf(x % 0x1_0000, 16) }

  lemma BitsMean(y: nat, w: nat)
    requires y < Pow2(w)
    ensures CrcPoly.Value(Crc16.BitsOf(y, w)) == y
  {
    CrcPoly.BitsOfValue(y, w);
    ModUnique(y, Pow2(w), 0, y);
  }

  lemma Pow16()
    ensures Pow2(16) == 0x1_0000
  {
    assert Pow2(4) == 16 && Pow2(8) == 0x100 && Pow2(12) == 0x1000;
  }

  /** They have its value, negative numbers in two's complement. */
  lemma Word16Means(x: int)
    ensures CrcPoly.Value(Word16(x)) == x % 0x1_0000
  {
    Pow16();
    BitsMean(x % 0x1_0000, 16);
  }

  /** matrix_sum and crc16 on a result matrix. */
  function Folded(c: seq<int>, clip: int, crc: Crc16.Word): Crc16.Word {
    Crc16.Register(Word16(SumTo(c, clip, |c|).ret), crc)
  }

  method FoldSum(n: nat, c: array<int>, clip: int, crc0: Crc16.Word) returns (crc: Crc16.Word)
    requires c.Length == n * n
    ensures crc == Folded(c[..], clip, crc0)
  {
    var ret := MatrixSum(n, c, clip);
    crc := Crc16.Crcu16Calls(Word16(ret), crc0);
  }

  // ----- matrix_test

  /** matrix_big: the value with its upper four bits set and the lower twelve kept, in 16 bits. */
  function Big(val: int): (r: int)
    ensures -0x1000 <= r < 0 && (r - val) % 0x1000 == 0
  {
    Wrap16(0xF000 + val % 0x1000)
  }

  /** The CRC over the sums of the four result matrices. */
  function FourFolded(c1: seq<int>, c2: seq<int>, c3: seq<int>, c4: seq<int>, clip: int): Crc16.Word {
    Folded(c4, clip, Folded(c3, clip, Folded(c2, clip, Folded(c1, clip, Crc16.Zeros(16)))))
  }

  /** The four result matrices for the operands s and b: scaled, times a vector, product, bit extracts. */
  ghost predicate Results(n: nat, s: seq<int>, b: seq<int>, val: int, c1: seq<int>, c2: seq<int>, c3: seq<int>, c4: seq<int>) {
    && |s| == |b| == |c1| == |c2| == n * n && n <= n * n
    && c1 == Times(s, val)
    && c2[n..] == c1[n..] && (forall i :: 0 <= i < n ==> c2[i] == Wrap32(RowDot(s, b, n, i, n)))
    && c3 == ProductTo(Plain, s, b, n, n * n)
    && c4 == ProductTo(Extract, s, b, n, n * n)
  }

  /** matrix_test.  c1, c2 and c3 are the result matrix after the first three steps. */
  method MatrixTest(n: nat, c: array<int>, a: array<int>, b: array<int>, val: int)
    returns (crc: Crc16.Word, ghost c1: seq<int>, ghost c2: seq<int>, ghost c3: seq<int>)
    requires a.Length == b.Length == c.Length == n * n && a != b && a != c && b != c && n <= c.Length
    requires All16(a[..]) && All16(b[..])
    modifies a, c
    ensures a[..] == old(a[..])
    ensures Results(n, Added(old(a[..]), val), b[..], val, c1, c2, c3, c[..])
    ensures crc == FourFolded(c1, c2, c3, c[..], Big(val))
  {
    var clip := Big(val);
    AddConst(n, a, val);
    MulConst(n, c, a[..], val);
    c1 := c[..];
    crc := FoldSum(n, c, clip, Crc16.Zeros(16));
    MulVect(n, c, a[..], b[..]);
    c2 := c[..];
    crc := FoldSum(n, c, clip, crc);
    MulMatrix(Plain, n, c, a[..], b[..]);
    c3 := c[..];
    crc := FoldSum(n, c, clip, crc);
    MulMatrix(Extract, n, c, a[..], b[..]);
    crc := FoldSum(n, c, clip, crc);
    AddConst(n, a, Wrap16(-val));
    AddedBack(old(a[..]), val);
  }

  /** core_bench_matrix. */
  method BenchMatrix(n: nat, c: array<int>, a: array<int>, b: array<int>, seed: int, crc0: Crc16.Word)
    returns (crc: Crc16.Word, ghost c1: seq<int>, ghost c2: seq<int>, ghost c3: seq<int>)
    requires a.Length == b.Length == c.Length == n * n && a != b && a != c && b != c && n <= c.Length
    requires All16(a[..]) && All16(b[..])
    modifies a, c
    ensures a[..] == old(a[..]) && Results(n, Added(old(a[..]), seed), b[..], seed, c1, c2, c3, c[..])
    ensures crc == Crc16.Register(FourFolded(c1, c2, c3, c[..], Big(seed)), crc0)
  {
    var test;
    test, c1, c2, c3 := MatrixTest(n, c, a, b, seed);
    crc := Crc16.Crcu16Calls(test, crc0);
  }

  // ----- core_init_matrix

  /** The C remainder, which takes the sign of the dividend. */
  function Rem(x: int, m: nat): (r: int)
    requires m > 0
    ensures 0 - m < r < m && (x >= 0 ==> r >= 0) && (x <= 0 ==> r <= 0)
  {
    if x >= 0 then x % m else -((-x) % m)
  }

  lemma RemMeans(x: int, m: nat)
    requires m > 0
    ensures (x - Rem(x, m)) % m == 0
  {
    var y := if x >= 0 then x else -x;
    assert y == (y / m) * m + y % m;
    var q := if x >= 0 then y / m else -(y / m);
    assert x - Rem(x, m) == q * m;
    ModUnique(x - Rem(x, m), m, q, 0);
  }

  /** The generator state after p cells. */
  function SeedAt(seed: int, p: nat): int {
    if p == 0 then seed else Rem(Wrap32(p * SeedAt(seed, p - 1)), 0x1_0000)
  }

  function CellB(seed: int, p: nat): int { Wrap16(SeedAt(seed, p + 1) + p + 1) }

  function CellA(seed: int, p: nat): int { (CellB(seed, p) + p + 1) % 0x100 }

  /** How many rows and columns fit: the largest n with 8 n^2 below the block size.  An empty block makes the
      32-bit decrement wrap. */
  method Dimension(blksize: nat) returns (n: nat)
    ensures blksize > 0 ==> n * n * 8 < blksize <= (n + 1) * (n + 1) * 8
    ensures blksize == 0 ==> n == 0xFFFF_FFFF
  {
    var i, j := 0, 0;
    while j < blksize
      invariant 0 <= i && j == i * i * 8 && (i > 0 ==> (i - 1) * (i - 1) * 8 < blksize)
      decreases blksize - j
    {
      assert (i + 1) * (i + 1) == i * i + 2 * i + 1;
      i := i + 1;
      j := i * i * 8;
    }
    n := if i == 0 then 0xFFFF_FFFF else i - 1;
  }

  lemma ClipWord(x: int)
    requires Fits16(x)
    ensures Wrap16(x % 0x1_0000) == x
  {
  }

  lemma Whole(x: int, k: int)
    ensures (x + 0x100 * k) % 0x100 == x % 0x100
  {
  }

  lemma ClipByte(x: int)
    ensures Wrap16(x) % 0x100 == x % 0x100
  {
    Whole(x, -0x100 * ((x + 0x8000) / 0x1_0000));
  }

  /** One cell: the next generator state and the two entries made from it. */
  method InitCell(seed0: int, order: int, ghost start: int) returns (seed: int, valB: int, valA: int)
    requires order >= 1 && seed0 == SeedAt(start, order - 1)
    ensures seed == SeedAt(start, order) && valB == CellB(start, order - 1) && valA == CellA(start, order - 1)
  {
    seed := Rem(Wrap32(order * seed0), 0x1_0000);
    var val := Wrap16(seed + order);
    ClipWord(val);
    val := Wrap16(val % 0x1_0000);
    valB := val;
    ClipByte(val + order);
    val := Wrap16(val + order);
    valA := val % 0x100;
  }

  /** core_init_matrix: the dimension, and two matrices in the ranges the benchmark relies on. */
  method InitMatrix(blksize: nat, seed0: int) returns (n: nat, a: array<int>, b: array<int>)
    requires blksize > 0
    ensures fresh(a) && fresh(b) && a != b && a.Length == b.Length == n * n
    ensures n * n * 8 < blksize <= (n + 1) * (n + 1) * 8
    ensures Small(a[..], 255) && All16(b[..])
    ensures var start := if seed0 == 0 then 1 else seed0;
      forall p :: 0 <= p < n * n ==> b[p] == CellB(start, p) && a[p] == CellA(start, p)
  {
    var seed := if seed0 == 0 then 1 else seed0;
    ghost var start := seed;
    n := Dimension(blksize);
    a, b := new int[n * n], new int[n * n];
    var order := 1;
    for i := 0 to n
      invariant 0 <= i * n <= n * n && order == i * n + 1 && seed == SeedAt(start, order - 1)
      invariant forall p :: 0 <= p < i * n ==> b[p] == CellB(start, p) && a[p] == CellA(start, p)
    {
      Scaled(i + 1, n, n);
      assert (i + 1) * n == i * n + n;
      for j := 0 to n
        invariant order == i * n + j + 1 && seed == SeedAt(start, order - 1)
        invariant forall p :: 0 <= p < i * n + j ==> b[p] == CellB(start, p) && a[p] == CellA(start, p)
      {
        CellIn(i, j, n);
        var valB, valA;
        seed, valB, valA := InitCell(seed, order, start);
        b[i * n + j] := valB;
        a[i * n + j] := valA;
        order := order + 1;
      }
    }
  }
}
