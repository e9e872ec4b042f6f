/** Binary floating-point formats by their widths, what their encodings are worth, and
    rounding to nearest with ties to even (section 4.3.1 of IEEE 754-2019). */
module FloatSpec {
  import opened Bits

  /** sig significand bits (without the hidden one) and exp exponent bits. */
  datatype Format = Format(sig: nat, exp: nat) {
    ghost predicate Valid() { sig >= 1 && exp >= 1 }

    function Width(): nat { 1 + exp + sig }

    function InfExp(): nat { Pow2(exp) - 1 }

    function Bias(): nat
      requires exp >= 1
    {
      Pow2(exp - 1) - 1
    }

    /** The encoding of infinity; larger ones are not numbers. */
    function Inf(): nat { Shl(sig, InfExp()) }
  }

  /** The value of a magnitude, in units of the least subnormal. At Inf() this is the
      first power of two that is out of range, as overflow rounding needs it. */
  function Worth(f: Format, r: nat): nat
  {
    var e := Shr(f.sig, r);
    if e == 0 then r else Shl(e - 1, Pow2(f.sig) + Low(f.sig, r))
  }

  /** The worth in units that are 2 to the power k smaller. */
  function Scaled(f: Format, k: nat, r: nat): nat
  {
    Shl(k, Worth(f, r))
  }

  function Distance(a: nat, b: nat): nat
  {
    if a <= b then b - a else a - b
  }

  /** r is as close to v as any encoding up to infinity; a tie goes to an even r. */
  ghost predicate Nearest(f: Format, k: nat, v: nat, r: nat)
  {
    && r <= f.Inf()
    && forall s :: 0 <= s <= f.Inf() ==>
         && Distance(v, Scaled(f, k, r)) <= Distance(v, Scaled(f, k, s))
         && (s != r && Distance(v, Scaled(f, k, r)) == Distance(v, Scaled(f, k, s)) ==> r % 2 == 0)
  }

  // ----- shifts

  lemma {:induction false} ShlLess(n: nat, a: nat, b: nat)
    ensures Shl(n, a) < Shl(n, b) <==> a < b
  {
    if n > 0 { ShlLess(n - 1, a, b); }
  }

  lemma {:induction false} ShlOne(n: nat)
    ensures Shl(n, 1) == Pow2(n)
  {
    if n > 0 { ShlOne(n - 1); }
  }

  // ----- encodings are ordered by worth

  /** The step from one encoding to the next: one unit in the last place. */
  function Ulp(f: Format, r: nat): nat
  {
    var e := Shr(f.sig, r);
    if e == 0 then 1 else Pow2(e - 1)
  }

  lemma WorthSucc(f: Format, r: nat)
    ensures Worth(f, r + 1) == Worth(f, r) + Ulp(f, r)
  {
    var e, m := Shr(f.sig, r), Low(f.sig, r);
    Split(f.sig, r);
    if m + 1 < Pow2(f.sig) {
      Join(f.sig, m + 1, e);
      if e > 0 {
        ShlAdd(e - 1, Pow2(f.sig) + m, 1);
        ShlOne(e - 1);
      }
    } else {
      Carry(f.sig, e);
      Join(f.sig, 0, e + 1);
      if e == 0 {
        LowSmall(f.sig, r);
      } else {
        assert Shl(e, Pow2(f.sig)) == Shl(e - 1, 2 * Pow2(f.sig)) by { ShlDouble(e - 1, Pow2(f.sig)); }
        ShlAdd(e - 1, Pow2(f.sig) + m, 1);
        ShlOne(e - 1);
      }
    }
  }

  lemma Carry(n: nat, e: nat)
    ensures Pow2(n) + Shl(n, e) == Shl(n, e + 1)
  {
    ShlAdd(n, e, 1);
    ShlOne(n);
  }

  lemma {:induction false} ShlDouble(n: nat, v: nat)
    ensures Shl(n + 1, v) == Shl(n, 2 * v)
  {
    if n > 0 { ShlDouble(n - 1, v); }
  }

  lemma ScaledSucc(f: Format, k: nat, r: nat)
    ensures Scaled(f, k, r + 1) == Scaled(f, k, r) + Shl(k, Ulp(f, r))
    ensures Scaled(f, k, r) < Scaled(f, k, r + 1)
  {
    WorthSucc(f, r);
    ShlAdd(k, Worth(f, r), Ulp(f, r));
    ShlLess(k, Worth(f, r), Worth(f, r + 1));
  }

  lemma {:induction false} ScaledMono(f: Format, k: nat, r: nat, s: nat)
    requires r <= s
    ensures Scaled(f, k, r) <= Scaled(f, k, s)
    ensures r < s ==> Scaled(f, k, r) < Scaled(f, k, s)
    decreases s - r
  {
    if r < s {
      ScaledMono(f, k, r, s - 1);
      ScaledSucc(f, k, s - 1);
    }
  }

  // ----- rounding between neighbours

  /** Of two neighbours around v, take the nearer, or the even one. */
  predicate RoundUp(lo: nat, v: nat, hi: nat, q: nat)
  {
    2 * v > lo + hi || (2 * v == lo + hi && q % 2 == 1)
  }

  lemma NearestBetween(f: Format, k: nat, v: nat, q: nat, r: nat)
    requires q < f.Inf() && Scaled(f, k, q) <= v < Scaled(f, k, q + 1)
    requires r == if RoundUp(Scaled(f, k, q), v, Scaled(f, k, q + 1), q) then q + 1 else q
    ensures Nearest(f, k, v, r)
  {
    forall s: nat | s <= f.Inf()
      ensures Distance(v, Scaled(f, k, r)) <= Distance(v, Scaled(f, k, s))
      ensures s != r && Distance(v, Scaled(f, k, r)) == Distance(v, Scaled(f, k, s)) ==> r % 2 == 0
    {
      hide Scaled;
      if s <= q {
        ScaledMono(f, k, s, q);
      } else {
        ScaledMono(f, k, q + 1, s);
      }
    }
  }

  /** From the worth of infinity on, infinity is nearest. */
  lemma NearestOverflow(f: Format, k: nat, v: nat)
    requires Scaled(f, k, f.Inf()) <= v
    ensures Nearest(f, k, v, f.Inf())
  {
    forall s: nat | s <= f.Inf()
      ensures Distance(v, Scaled(f, k, f.Inf())) <= Distance(v, Scaled(f, k, s))
      ensures s != f.Inf() ==> Distance(v, Scaled(f, k, f.Inf())) < Distance(v, Scaled(f, k, s))
    {
      hide Scaled;
      ScaledMono(f, k, s, f.Inf());
    }
  }

  /** A value that is an encoding's worth rounds to that encoding only. */
  lemma NearestExact(f: Format, k: nat, x: nat, r: nat)
    requires x <= f.Inf() && Nearest(f, k, Scaled(f, k, x), r)
    ensures r == x
  {
    assert Distance(Scaled(f, k, x), Scaled(f, k, x)) == 0;
    if r < x {
      ScaledMono(f, k, r, x);
    } else if x < r {
      ScaledMono(f, k, x, r);
    }
  }

  /** Rounding is a function: no value has two nearest encodings. */
  lemma NearestUnique(f: Format, k: nat, v: nat, r: nat, s: nat)
    requires Nearest(f, k, v, r) && Nearest(f, k, v, s)
    ensures r == s
  {
    if r < s {
      NearestTie(f, k, v, r, s);
    } else if s < r {
      NearestTie(f, k, v, s, r);
    }
  }

  lemma NearestTie(f: Format, k: nat, v: nat, r: nat, s: nat)
    requires Nearest(f, k, v, r) && r < s <= f.Inf()
    ensures !Nearest(f, k, v, s)
  {
    // two nearest encodings would both be even, and the one between them nearer
    ScaledMono(f, k, r, r + 1);
    ScaledMono(f, k, r, s);
    ScaledMono(f, k, r + 1, s);
    var between := Distance(v, Scaled(f, k, r + 1));
    hide Scaled;
  }
}
