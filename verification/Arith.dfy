/** Remainders, powers of two, and aligned ranges. */
module Arith {
  lemma {:induction false} SlotsDiffer(c: nat, d: nat, n: nat)
    requires c < d < c + n
    ensures c % n != d % n
  {
    DivMod(c, n);
    DivMod(d, n);
    Times(n, d / n, c / n);
  }

  lemma {:induction false} DivMod(x: nat, n: nat)
    requires n > 0
    ensures x == n * (x / n) + x % n && 0 <= x % n < n
  {
  }

  /** Different multiples of `n` are at least `n` apart. */
  lemma {:induction false} Times(n: nat, a: int, b: int)
    ensures a > b ==> n * a - n * b >= n
    ensures a < b ==> n * b - n * a >= n
  {
    if a > b { Apart(n, a, b); }
    if a < b { Apart(n, b, a); }
  }

  lemma {:induction false} Apart(n: nat, a: int, b: int)
    requires a > b
    ensures n * a >= n * b + n
  {
    var k: nat := a - b - 1;
    assert n * k >= 0;
    assert n * (b + 1 + k) == n * b + n + n * k;
  }

  lemma {:induction false} ModIs(x: nat, q: nat, r: nat, n: nat)
    requires r < n && x == n * q + r
    ensures x % n == r
  {
    DivMod(x, n);
    Times(n, x / n, q);
  }

  /** The slot after a counter's, around a ring of `n`. */
  lemma {:induction false} NextSlot(c: nat, n: nat)
    requires n > 0
    ensures (c + 1) % n == if c % n == n - 1 then 0 else c % n + 1
  {
    if c % n == n - 1 {
      WrapSlot(c, n);
    } else {
      DivMod(c, n);
      ModIs(c + 1, c / n, c % n + 1, n);
    }
  }

  lemma {:induction false} WrapSlot(c: nat, n: nat)
    requires n > 0 && c % n == n - 1
    ensures (c + 1) % n == 0
  {
    DivMod(c, n);
    OneMore(n, c / n);
    ModIs(c + 1, c / n + 1, 0, n);
  }

  lemma {:induction false} OneMore(n: nat, q: nat)
    ensures n * (q + 1) == n * q + n
  {
  }

  /** A whole round leads back to the same slot. */
  lemma {:induction false} RoundSlot(c: nat, n: nat)
    requires n > 0
    ensures (c + n) % n == c % n
  {
    DivMod(c, n);
    OneMore(n, c / n);
    ModIs(c + n, c / n + 1, c % n, n);
  }

  lemma {:induction false} DivIs(x: nat, q: nat, r: nat, n: nat)
    requires r < n && x == n * q + r
    ensures x / n == q
  {
    DivMod(x, n);
    Times(n, x / n, q);
  }

  /** Sums and differences of multiples of `n`. */
  lemma {:induction false} MultipleSum(x: nat, y: nat, n: nat)
    requires n > 0 && x % n == 0 && y % n == 0
    ensures (x + y) % n == 0
    ensures x < y ==> x + n <= y
  {
    DivMod(x, n);
    DivMod(y, n);
    Spread(n, x / n, y / n);
    ModIs(x + y, x / n + y / n, 0, n);
    Times(n, y / n, x / n);
  }

  lemma {:induction false} Spread(n: nat, a: int, b: int)
    ensures n * (a + b) == n * a + n * b
  {
  }

  lemma {:induction false} Ceiling(x: nat, a: nat)
    requires a > 0
    ensures var y := (x + a - 1) / a * a; x <= y < x + a && y % a == 0
  {
  }

  lemma {:induction false} LeastMultiple(x: nat, a: nat, y: nat)
    requires a > 0 && x <= y < x + a && y % a == 0
    ensures forall z: nat :: x <= z && z % a == 0 ==> y <= z
  {
    forall z: nat | x <= z && z % a == 0 ensures y <= z {
      MultipleSum(z, y, a);
    }
  }

  /** `ALIGN`: the least multiple of `a` not below `x`. */
  function AlignUp(x: nat, a: nat): (y: nat)
    requires a > 0
    ensures x <= y < x + a && y % a == 0
    ensures forall z: nat :: x <= z && z % a == 0 ==> y <= z
  {
    Ceiling(x, a);
    LeastMultiple(x, a, (x + a - 1) / a * a);
    (x + a - 1) / a * a
  }

  /** The greatest multiple of `a` not above `x`. */
  function AlignDown(x: nat, a: nat): (y: nat)
    requires a > 0
    ensures y <= x < y + a && y % a == 0
  {
    DivMod(x, a);
    ModIs(a * (x / a), x / a, 0, a);
    x / a * a
  }

  predicate Pow2(n: nat) {
    n == 1 || (n > 0 && n % 2 == 0 && Pow2(n / 2))
  }

  /** The smaller of two powers of two divides the larger. */
  lemma {:induction false} Pow2Divides(p: nat, q: nat)
    requires Pow2(p) && Pow2(q) && p <= q
    ensures q % p == 0
  {
    if p == 1 {
      ModIs(q, q, 0, 1);
    } else {
      Pow2Divides(p / 2, q / 2);
      DivMod(q / 2, p / 2);
      Halves(p, q, q / 2 / (p / 2));
      ModIs(q, q / 2 / (p / 2), 0, p);
    }
  }

  lemma {:induction false} Halves(p: nat, q: nat, k: nat)
    requires p % 2 == 0 && q % 2 == 0 && q / 2 == p / 2 * k
    ensures q == p * k
  {
    assert p == 2 * (p / 2) && q == 2 * (p / 2 * k);
  }

  lemma {:induction false} Pow2Double(p: nat)
    requires Pow2(p)
    ensures Pow2(2 * p) && forall q: nat :: Pow2(q) && q > p ==> q >= 2 * p
  {
    forall q: nat | Pow2(q) && q > p ensures q >= 2 * p {
      Pow2Gap(p, q);
    }
  }

  lemma {:induction false} Pow2Gap(p: nat, q: nat)
    requires Pow2(p) && Pow2(q) && p < q
    ensures 2 * p <= q
  {
    if p > 1 { Pow2Gap(p / 2, q / 2); }
  }

  lemma {:induction false} TwiceHalf(h: nat, q: nat)
    ensures 2 * h * q == 2 * (h * q) && 2 * (h * q) / 2 == h * q
  {
  }

  lemma {:induction false} Pow2Times(p: nat, q: nat)
    requires Pow2(p) && Pow2(q)
    ensures Pow2(p * q)
  {
    if p > 1 {
      Pow2Times(p / 2, q);
      TwiceHalf(p / 2, q);
    }
  }

  lemma {:induction false} ModTrans(x: nat, q: nat, p: nat)
    requires p > 0 && q > 0 && x % q == 0 && q % p == 0
    ensures x % p == 0
  {
    DivMod(x, q);
    DivMod(q, p);
    var a, b := x / q, q / p;
    assert x == q * a && q == p * b;
    assert p * b * a == p * (b * a);
    ModIs(x, b * a, 0, p);
  }

  /** Naturally aligned ranges of power-of-two sizes are nested or disjoint. */
  lemma {:induction false} Nested(x: nat, p: nat, y: nat, q: nat)
    requires Pow2(p) && Pow2(q) && p <= q && x % p == 0 && y % q == 0
    ensures x + p <= y || y + q <= x || (y <= x && x + p <= y + q)
  {
    Pow2Divides(p, q);
    ModTrans(y, q, p);
    MultipleSum(y, q, p);
    MultipleSum(x, y, p);
    MultipleSum(x, y + q, p);
  }

  const TWO32: nat := 0x1_0000_0000

  /** The low and the high word of a multiple of `g`, where `g` divides the word size. */
  lemma {:induction false} LowWord(x: nat, g: nat, n: nat)
    requires g > 0 && n > 0 && g * n == TWO32 && x % g == 0
    ensures x % TWO32 == g * (x / g % n) && x / TWO32 == x / g / n
  {
    DivMod(x, g);
    DivMod(x / g, n);
    var k, h, r := x / g, x / g / n, x / g % n;
    assert x == g * (n * h + r);
    Spread(g, n * h, r);
    assert g * (n * h) == TWO32 * h;
    Times(g, n, r);
    ModIs(x, h, g * r, TWO32);
  }

  // ----- binary logarithms

  function Log2(n: nat): nat
    requires n > 0
  {
    if n == 1 then 0 else Log2(n / 2) + 1
  }

  ghost function Exp2(k: nat): nat { if k == 0 then 1 else 2 * Exp2(k - 1) }

  lemma {:induction false} ExpLog(n: nat)
    requires Pow2(n)
    ensures Exp2(Log2(n)) == n
  {
    if n != 1 { ExpLog(n / 2); }
  }

  lemma {:induction false} LogGrows(m: nat, n: nat)
    requires 0 < m <= n
    ensures Log2(m) <= Log2(n)
  {
    if m > 1 { LogGrows(m / 2, n / 2); }
  }
}
