/** Unsigned words as natural numbers, and the bit operations of the C sources on them:
    `1 << n` is Pow2(n), `v & ((1 << n) - 1)` is Low(n, v), `v >> n` is Shr(n, v),
    `v << n` is Shl(n, v) and a test of bit n is Bit(n, v). All are defined by halving, so
    that proofs about them stay in linear arithmetic. */
module Bits {

  function Pow2(n: nat): (r: nat)
    ensures r > 0
  {
    if n == 0 then 1 else 2 * Pow2(n - 1)
  }

  function Low(n: nat, v: nat): (r: nat)
    ensures r < Pow2(n) && r <= v
  {
    if n == 0 then 0 else v % 2 + 2 * Low(n - 1, v / 2)
  }

  function Shr(n: nat, v: nat): nat
  {
    if n == 0 then v else Shr(n - 1, v / 2)
  }

  function Shl(n: nat, v: nat): nat
  {
    if n == 0 then v else 2 * Shl(n - 1, v)
  }

  function Bit(n: nat, v: nat): (r: nat)
    ensures r <= 1
  {
    Shr(n, v) % 2
  }

  lemma MulAtLeast(k: int, d: int)
    requires d > 0
    ensures k >= 1 ==> k * d >= d
    ensures k <= -1 ==> k * d <= -d
  {}

  lemma DivModUnique(x: int, d: int, q: int, r: int)
    requires d > 0 && 0 <= r < d && x == q * d + r
    ensures x / d == q && x % d == r
  {
    var k := x / d - q;
    assert x == x / d * d + x % d;
    assert k * d == r - x % d by { assert (x / d - q) * d == x / d * d - q * d; }
    MulAtLeast(k, d);
  }

  lemma {:induction false} Pow2Mono(a: nat, b: nat)
    requires a <= b
    ensures Pow2(a) <= Pow2(b)
    ensures a < b ==> 2 * Pow2(a) <= Pow2(b)
  {
    if a < b { Pow2Mono(a, b - 1); }
  }

  lemma {:induction false} Pow2Add(a: nat, b: nat)
    ensures Pow2(a + b) == Pow2(a) * Pow2(b) == Shl(b, Pow2(a))
  {
    if b > 0 {
      Pow2Add(a, b - 1);
      assert a + b - 1 == a + (b - 1);
    }
  }

  lemma {:induction false} LowSmall(n: nat, v: nat)
    ensures v < Pow2(n) <==> Low(n, v) == v
    ensures v < Pow2(n) <==> Shr(n, v) == 0
  {
    if n > 0 { LowSmall(n - 1, v / 2); }
  }

  lemma LowZero(v: nat)
    ensures Low(0, v) == 0
  {}

  lemma {:induction false} ShrShr(a: nat, b: nat, v: nat)
    ensures Shr(b, Shr(a, v)) == Shr(a + b, v)
  {
    if a > 0 { ShrShr(a - 1, b, v / 2); }
  }

  lemma {:induction false} LowLow(a: nat, b: nat, v: nat)
    requires a <= b
    ensures Low(a, Low(b, v)) == Low(a, v)
    ensures Shr(a, Low(b, v)) == Low(b - a, Shr(a, v))
  {
    if a > 0 { LowLow(a - 1, b - 1, v / 2); }
  }

  lemma {:induction false} BitLow(i: nat, n: nat, v: nat)
    requires i < n
    ensures Bit(i, Low(n, v)) == Bit(i, v)
  {
    LowLow(i, n, v);
  }

  /** Splitting off the top bit. */
  lemma {:induction false} LowTop(n: nat, v: nat)
    requires n > 0
    ensures Low(n, v) == Low(n - 1, v) + (if Bit(n - 1, v) == 1 then Pow2(n - 1) else 0)
  {
    if n > 1 { LowTop(n - 1, v / 2); }
  }

  /** A word put together from its low n bits and the rest. */
  lemma {:induction false} Join(n: nat, lo: nat, hi: nat)
    requires lo < Pow2(n)
    ensures Low(n, lo + Shl(n, hi)) == lo
    ensures Shr(n, lo + Shl(n, hi)) == hi
  {
    if n > 0 {
      assert (lo + Shl(n, hi)) / 2 == lo / 2 + Shl(n - 1, hi);
      Join(n - 1, lo / 2, hi);
    }
  }

  lemma {:induction false} Split(n: nat, v: nat)
    ensures v == Low(n, v) + Shl(n, Shr(n, v))
  {
    if n > 0 { Split(n - 1, v / 2); }
  }

  lemma {:induction false} ShlIsMul(n: nat, v: nat)
    ensures Shl(n, v) == v * Pow2(n)
  {
    if n > 0 { ShlIsMul(n - 1, v); }
  }

  lemma {:induction false} ShlAdd(n: nat, a: nat, b: nat)
    ensures Shl(n, a + b) == Shl(n, a) + Shl(n, b)
  {
    if n > 0 { ShlAdd(n - 1, a, b); }
  }

  lemma {:induction false} ShlShl(a: nat, b: nat, v: nat)
    ensures Shl(a, Shl(b, v)) == Shl(a + b, v)
  {
    if a > 0 { ShlShl(a - 1, b, v); }
  }

  /** The n bits after the first m are the next ones. */
  lemma {:induction false} LowExtend(m: nat, n: nat, v: nat)
    ensures Low(m + n, v) == Low(m, v) + Shl(m, Low(n, Shr(m, v)))
  {
    if m > 0 { LowExtend(m - 1, n, v / 2); }
  }

  /** Low and Shr are the arithmetic remainder and quotient. */
  lemma Arithmetic(n: nat, v: nat)
    ensures Low(n, v) == v % Pow2(n)
    ensures Shr(n, v) == v / Pow2(n)
  {
    Split(n, v);
    ShlIsMul(n, Shr(n, v));
    DivModUnique(v, Pow2(n), Shr(n, v), Low(n, v));
  }

  /** Two words with the same low bits and the same rest are equal. */
  lemma SameParts(n: nat, v: nat, w: nat)
    requires Low(n, v) == Low(n, w) && Shr(n, v) == Shr(n, w)
    ensures v == w
  {
    Split(n, v);
    Split(n, w);
  }

  /** Counting modulo 2 to the power n may reduce at any time. */
  lemma {:induction false} LowAdd(n: nat, x: nat, y: nat)
    ensures Low(n, Low(n, x) + y) == Low(n, x + y)
  {
    if n > 0 {
      LowAdd(n - 1, x / 2, (x % 2 + y) / 2);
      assert (Low(n, x) + y) / 2 == Low(n - 1, x / 2) + (x % 2 + y) / 2;
      assert (x + y) / 2 == x / 2 + (x % 2 + y) / 2;
    }
  }

  lemma LowDouble(n: nat, x: nat, b: nat)
    requires n > 0 && b <= 1
    ensures Low(n, 2 * x + b) == 2 * Low(n - 1, x) + b
  {
    assert (2 * x + b) / 2 == x && (2 * x + b) % 2 == b;
  }

  lemma {:induction false} BitTop(n: nat, v: nat)
    requires v < Pow2(n + 1)
    ensures Bit(n, v) == Shr(n, v) == (if v < Pow2(n) then 0 else 1)
    ensures v >= Pow2(n) ==> Low(n, v) == v - Pow2(n)
  {
    if n > 0 { BitTop(n - 1, v / 2); }
  }

  /** The number spelled by the first n bits of the stream value v when each bit read
      becomes the new least significant one (section 3.1.1 of RFC 1951: Huffman codes
      are packed starting with their most significant bit). */
  function Msb(n: nat, v: nat): (r: nat)
    ensures r < Pow2(n)
  {
    if n == 0 then 0 else 2 * Msb(n - 1, v) + Bit(n - 1, v)
  }

  /** Only the first n bits matter. */
  lemma {:induction false} MsbLow(n: nat, m: nat, v: nat)
    requires n <= m
    ensures Msb(n, Low(m, v)) == Msb(n, v)
  {
    if n > 0 {
      MsbLow(n - 1, m, v);
      BitLow(n - 1, m, v);
    }
  }

  /** Dropping the last bits read drops the low bits of the code. */
  lemma {:induction false} MsbPrefix(n: nat, m: nat, v: nat)
    requires m <= n
    ensures Shr(n - m, Msb(n, v)) == Msb(m, v)
  {
    if m < n { MsbPrefix(n - 1, m, v); }
  }

  /** Equal codes come from equal bits. */
  lemma {:induction false} MsbInjective(n: nat, v: nat, w: nat)
    ensures Msb(n, v) == Msb(n, w) <==> Low(n, v) == Low(n, w)
  {
    if n > 0 {
      MsbInjective(n - 1, v, w);
      LowTop(n, v);
      LowTop(n, w);
    }
  }

  /** Bit k of the code is bit n - 1 - k of the stream value: Msb is bit reversal. */
  lemma {:induction false} MsbReverses(n: nat, v: nat, k: nat)
    requires k < n
    ensures Bit(k, Msb(n, v)) == Bit(n - 1 - k, v)
  {
    if k > 0 { MsbReverses(n - 1, v, k - 1); }
  }
}
