/** Remainders by a divisor that is not a literal, and 32-bit wrap-around. */
module Modulus {
  /** The value of x in a 32-bit signed integer. */
  function Wrap32(x: int): int { (x + 0x8000_0000) % 0x1_0000_0000 - 0x8000_0000 }

  /** That is the one number of the 32-bit range which differs from x by a multiple of 2^32. */
  lemma Wrap32Means(x: int, r: int)
    ensures r == Wrap32(x) <==> -0x8000_0000 <= r < 0x8000_0000 && (r - x) % 0x1_0000_0000 == 0
  {
  }

  function Pow2(k: nat): (r: nat)
    ensures r > 0
  {
    if k == 0 then 1 else 2 * Pow2(k - 1)
  }

  lemma MultipleGrows(d: int, n: nat)
    ensures d >= 1 ==> d * n >= n
    ensures d <= -1 ==> d * n + n <= 0
  {
    if d >= 1 {
      assert (d - 1) * n >= 0;
    } else if d <= -1 {
      assert (-d - 1) * n >= 0;
    }
  }

  lemma ModUnique(x: int, n: nat, q: int, r: int)
    requires n > 0 && x == q * n + r && 0 <= r < n
    ensures x % n == r
  {
    var d := q - x / n;
    assert x == (x / n) * n + x % n;
    assert d * n == q * n - (x / n) * n;
    MultipleGrows(d, n);
  }

  lemma ModAdd(b: nat, y: nat, h: nat)
    requires h > 0 && b % h == 0
    ensures (b + y) % h == y % h
  {
    assert b == (b / h) * h && y == (y / h) * h + y % h;
    assert b + y == (b / h + y / h) * h + y % h;
    ModUnique(b + y, h, b / h + y / h, y % h);
  }

  lemma ModOfMultiple(x: nat, s: nat, h: nat)
    requires h > 0 && s > 0 && s % h == 0
    ensures (x % s) % h == x % h
  {
    var q, r, k := x / s, x % s, s / h;
    assert s == k * h && x == q * s + r;
    assert r == (r / h) * h + r % h;
    assert x == (q * k + r / h) * h + r % h by {
      assert q * (k * h) == (q * k) * h;
      assert (q * k + r / h) * h == (q * k) * h + (r / h) * h;
    }
    ModUnique(x, h, q * k + r / h, r % h);
  }

  /** A remainder by an even divisor, one bit split off. */
  lemma HalfMod(x: int, p: nat)
    requires p > 0
    ensures x % (2 * p) == x % 2 + 2 * (x / 2 % p)
  {
    var y := x / 2;
    assert y == (y / p) * p + y % p;
    assert (y / p) * (2 * p) == 2 * ((y / p) * p);
    ModUnique(x, 2 * p, y / p, x % 2 + 2 * (y % p));
  }
}
