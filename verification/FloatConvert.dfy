/** Narrowing and widening of floating-point numbers by bit manipulation
    (builtin_fp16.h), for all widths. */
module FloatConvert {
  import opened Bits
  import opened FloatSpec

  /** From a wide format to a narrow one: at least two significand bits are dropped, and
      the narrow exponent range ends well inside the wide one. */
  ghost predicate Narrowing(src: Format, dst: Format)
  {
    && src.Valid() && dst.Valid()
    && src.sig >= dst.sig + 2
    && src.Bias() >= dst.Bias() + src.sig
  }

  /** The exponent bias lost by narrowing. */
  function Rebias(src: Format, dst: Format): nat
    requires Narrowing(src, dst)
  {
    src.Bias() - dst.Bias()
  }

  /** A least subnormal of the narrow format is worth 2 to this power of the wide one. */
  function UnitShift(src: Format, dst: Format): nat
    requires Narrowing(src, dst)
  {
    Rebias(src, dst) + (src.sig - dst.sig)
  }

  lemma FloatToHalf()
    ensures Narrowing(Format(23, 8), Format(10, 5))
  {
    assert Pow2(7) == 128 && Pow2(4) == 16;
  }

  /** x - y in w-bit unsigned arithmetic. */
  function WrapSub(w: nat, x: nat, y: nat): nat
  {
    Low(w, Low(w, x) + (Pow2(w) - Low(w, y)))
  }

  lemma {:induction false} AddTop(w: nat, z: nat, k: nat)
    ensures Low(w, z + Shl(w, k)) == Low(w, z)
  {
    if w > 0 {
      AddTop(w - 1, z / 2, k);
      assert (z + Shl(w, k)) / 2 == z / 2 + Shl(w - 1, k);
    }
  }

  lemma WrapSubExact(w: nat, x: nat, y: nat)
    requires y <= x
    ensures WrapSub(w, x, y) == Low(w, x - y)
  {
    LowAdd(w, x, Pow2(w) - Low(w, y));
    Split(w, y);
    Carry(w, Shr(w, y));
    AddTop(w, x - y, Shr(w, y) + 1);
  }

  /** The range test of the narrowing: one unsigned comparison of two differences. */
  lemma RangeTest(w: nat, a: nat, lo: nat, hi: nat)
    requires a < Pow2(w) && lo <= hi < Pow2(w)
    ensures WrapSub(w, a, lo) < WrapSub(w, a, hi) <==> lo <= a < hi
  {
    LowSmall(w, a);
    LowSmall(w, lo);
    LowSmall(w, hi);
    WrapSmall(w, a, lo);
    WrapSmall(w, a, hi);
  }

  lemma WrapSmall(w: nat, a: nat, b: nat)
    requires a < Pow2(w) && b < Pow2(w)
    ensures WrapSub(w, a, b) == if b <= a then a - b else a + Pow2(w) - b
  {
    LowSmall(w, a);
    LowSmall(w, b);
    if b <= a {
      WrapSubExact(w, a, b);
      LowSmall(w, a - b);
    } else {
      LowSmall(w, a + Pow2(w) - b);
    }
  }

  /** Round a quotient by the bits shifted out: up past half, to even at half. */
  function RoundBits(q: nat, bits: nat, halfway: nat): nat
  {
    if bits > halfway then q + 1 else if bits == halfway then q + q % 2 else q
  }

  /** x with its lowest bit set if bit is one. */
  function OrBit(x: nat, bit: nat): nat
  {
    if bit == 1 && x % 2 == 0 then x + 1 else x
  }

  /** The bits of the significand that a right shift by `shift` loses, seen from the top. */
  function Sticky(w: nat, significand: nat, shift: nat): nat
    requires shift <= w
  {
    if Low(w, Shl(w - shift, significand)) != 0 then 1 else 0
  }

  /** The subnormal branch: shift right, keeping a sticky bit, then round. */
  function Denormalize(src: Format, dst: Format, aAbs: nat): nat
    requires Narrowing(src, dst) && Shr(src.sig, aAbs) <= Rebias(src, dst)
  {
    var n := src.sig - dst.sig;
    var shift := Rebias(src, dst) - Shr(src.sig, aAbs) + 1;
    var significand := Low(src.sig, aAbs) + Pow2(src.sig);
    if shift > src.sig then 0
    else
      var denormalized := OrBit(Shr(shift, significand), Sticky(src.Width(), significand, shift));
      RoundBits(Shr(n, denormalized), Low(n, denormalized), Pow2(n - 1))
  }

  /** The first magnitude that is normal in the narrow format, and the first too large. */
  function Underflow(src: Format, dst: Format): nat
    requires Narrowing(src, dst)
  {
    Shl(src.sig, Rebias(src, dst) + 1)
  }

  function Overflow(src: Format, dst: Format): nat
    requires Narrowing(src, dst)
  {
    Shl(src.sig, Rebias(src, dst) + dst.InfExp())
  }

  /** The magnitude of the narrowed number. */
  function TruncateAbs(src: Format, dst: Format, aAbs: nat): nat
    requires Narrowing(src, dst) && aAbs < Pow2(src.Width() - 1)
  {
    var n := src.sig - dst.sig;
    var w := src.Width();
    Ranges(src, dst, aAbs);
    if WrapSub(w, aAbs, Underflow(src, dst)) < WrapSub(w, aAbs, Overflow(src, dst)) then
      var shifted := WrapSub(dst.Width(), Shr(n, aAbs), Shl(dst.sig, Rebias(src, dst)));
      RoundBits(shifted, Low(n, aAbs), Pow2(n - 1))
    else if aAbs > src.Inf() then
      dst.Inf() + Pow2(dst.sig - 1) + Low(dst.sig - 1, Shr(n, Low(src.sig - 1, aAbs)))
    else if aAbs >= Overflow(src, dst) then
      dst.Inf()
    else
      Denormalize(src, dst, aAbs)
  }

  /** __truncXfYf2__: narrow the magnitude and move the sign bit. */
  function Truncate(src: Format, dst: Format, a: nat): nat
    requires Narrowing(src, dst) && a < Pow2(src.Width())
  {
    TruncateAbs(src, dst, Low(src.Width() - 1, a)) + Shl(dst.Width() - 1, Bit(src.Width() - 1, a))
  }

  lemma {:induction false} ShlBelow(n: nat, e: nat, k: nat)
    requires e < Pow2(k)
    ensures Shl(n, e) + Pow2(n) <= Pow2(n + k)
  {
    if n > 0 { ShlBelow(n - 1, e, k); }
  }

  lemma InfBelow(f: Format)
    requires f.Valid()
    ensures f.Inf() + Pow2(f.sig) <= Pow2(f.Width() - 1)
    ensures f.InfExp() == 2 * f.Bias() + 1 && f.Inf() >= Pow2(f.sig) && f.Inf() % 2 == 0
  {
    assert f.InfExp() == 2 * f.Bias() + 1;
    ShlEven(f.sig, f.InfExp());
    hide Pow2, Shl;
    ShlBelow(f.sig, f.InfExp(), f.exp);
    assert f.sig + f.exp == f.Width() - 1;
    ShlOne(f.sig);
    ShlLess(f.sig, f.InfExp(), 1);
  }

  lemma ShlEven(n: nat, v: nat)
    requires n > 0
    ensures Shl(n, v) % 2 == 0
  {}

  /** The branch conditions, without wrap-around. */
  lemma Ranges(src: Format, dst: Format, aAbs: nat)
    requires Narrowing(src, dst) && aAbs < Pow2(src.Width() - 1)
    ensures Underflow(src, dst) <= Overflow(src, dst) <= src.Inf()
    ensures var w := src.Width();
            WrapSub(w, aAbs, Underflow(src, dst)) < WrapSub(w, aAbs, Overflow(src, dst)) <==>
            Underflow(src, dst) <= aAbs < Overflow(src, dst)
    ensures aAbs < Underflow(src, dst) <==> Shr(src.sig, aAbs) <= Rebias(src, dst)
    ensures aAbs < Overflow(src, dst) <==> Shr(src.sig, aAbs) < Rebias(src, dst) + dst.InfExp()
  {
    InfBelow(src);
    InfBelow(dst);
    var rebias := Rebias(src, dst);
    ShlLess(src.sig, rebias + dst.InfExp(), rebias + 1);
    ShlLess(src.sig, src.InfExp(), rebias + dst.InfExp());
    RangeTest(src.Width(), aAbs, Underflow(src, dst), Overflow(src, dst));
    ShrBelow(src.sig, aAbs, rebias + 1);
    ShrBelow(src.sig, aAbs, rebias + dst.InfExp());
  }

  lemma {:induction false} ShrBelow(n: nat, v: nat, e: nat)
    ensures v < Shl(n, e) <==> Shr(n, v) < e
  {
    if n > 0 { ShrBelow(n - 1, v / 2, e); }
  }

  // ----- the result is the nearest encoding

  /** v lies rem units of 2 to the power u above q; the next encoding lies 2 to the power n
      such units above it. */
  lemma RoundsAt(f: Format, k: nat, v: nat, q: nat, u: nat, rem: nat, n: nat)
    requires q < f.Inf() && n >= 1 && rem < Pow2(n)
    requires v == Scaled(f, k, q) + Shl(u, rem)
    requires Scaled(f, k, q + 1) == Scaled(f, k, q) + Shl(u, Pow2(n))
    ensures Nearest(f, k, v, RoundBits(q, rem, Pow2(n - 1)))
  {
    hide Scaled, Shl, Nearest;
    ShlLess(u, rem, Pow2(n));
    ShlLess(u, Pow2(n), 2 * rem);
    ShlLess(u, 2 * rem, Pow2(n));
    ShlAdd(u, rem, rem);
    NearestBetween(f, k, v, q, RoundBits(q, rem, Pow2(n - 1)));
  }

  lemma {:induction false} ShrAddShl(n: nat, x: nat, y: nat)
    ensures Shr(n, x + Shl(n, y)) == Shr(n, x) + y
    ensures Low(n, x + Shl(n, y)) == Low(n, x)
  {
    if n > 0 {
      assert (x + Shl(n, y)) / 2 == x / 2 + Shl(n - 1, y);
      ShrAddShl(n - 1, x / 2, y);
    }
  }

  /** Rebiasing before or after the shift is the same. */
  lemma Rebiased(n: nat, d: nat, rebias: nat, a: nat)
    ensures var aAbs := a + Shl(n + d, rebias);
            && Shr(n, aAbs) == Shr(n, a) + Shl(d, rebias) && Low(n, aAbs) == Low(n, a)
            && Shr(n + d, aAbs) == Shr(n + d, a) + rebias && Low(n + d, aAbs) == Low(n + d, a)
  {
    hide Shl, Shr, Low;
    ShlShl(n, d, rebias);
    ShrAddShl(n, a, Shl(d, rebias));
    ShrAddShl(n + d, a, rebias);
  }

  /** Between the two bounds, the rebiased magnitude is normal and below infinity. */
  lemma RebiasedRange(n: nat, d: nat, rebias: nat, top: nat, aAbs: nat)
    requires Shl(n + d, rebias + 1) <= aAbs < Shl(n + d, rebias + top)
    ensures aAbs >= Shl(n + d, rebias)
    ensures var a := aAbs - Shl(n + d, rebias); Shr(n, a) < Shl(d, top) && Shr(n + d, a) >= 1
  {
    hide Shl, Shr;
    ShlLess(n + d, rebias + 1, rebias);
    var a := aAbs - Shl(n + d, rebias);
    ShlAdd(n + d, rebias, 1);
    ShlAdd(n + d, rebias, top);
    ShlShl(n, d, top);
    ShrBelow(n, a, Shl(d, top));
    ShrBelow(n + d, a, 1);
  }

  lemma WrapSubBack(w: nat, x: nat, y: nat)
    requires x < Pow2(w)
    ensures WrapSub(w, x + y, y) == x
  {
    hide Low, Pow2, WrapSub;
    WrapSubExact(w, x + y, y);
    LowSmall(w, x);
    assert x + y - y == x;
  }

  /** A number that stays normal: what the shift and the subtraction leave, part by part. */
  lemma NormalQuotient(src: Format, dst: Format, aAbs: nat)
    requires Narrowing(src, dst) && Underflow(src, dst) <= aAbs < Overflow(src, dst)
    ensures aAbs >= Shl(src.sig, Rebias(src, dst))
    ensures var n := src.sig - dst.sig; var a := aAbs - Shl(src.sig, Rebias(src, dst));
            && WrapSub(dst.Width(), Shr(n, aAbs), Shl(dst.sig, Rebias(src, dst))) == Shr(n, a) < dst.Inf()
            && Low(n, aAbs) == Low(n, a)
            && Shr(src.sig, aAbs) == Shr(src.sig, a) + Rebias(src, dst)
            && Shr(src.sig, a) >= 1 && Low(src.sig, aAbs) == Low(src.sig, a)
  {
    hide Shl, Shr, Low, Pow2, WrapSub;
    var n, rebias := src.sig - dst.sig, Rebias(src, dst);
    assert n + dst.sig == src.sig;
    RebiasedRange(n, dst.sig, rebias, dst.InfExp(), aAbs);
    var a := aAbs - Shl(src.sig, rebias);
    Rebiased(n, dst.sig, rebias, a);
    InfBelow(dst);
    Pow2Mono(dst.Width() - 1, dst.Width());
    WrapSubBack(dst.Width(), Shr(n, a), Shl(dst.sig, rebias));
  }

  /** The parts of a shifted encoding. */
  lemma ShiftedParts(src: Format, dst: Format, a: nat)
    requires src.sig >= dst.sig
    ensures var n := src.sig - dst.sig;
            && Shr(dst.sig, Shr(n, a)) == Shr(src.sig, a)
            && Pow2(src.sig) + Low(src.sig, a) == Shl(n, Pow2(dst.sig) + Low(dst.sig, Shr(n, a))) + Low(n, a)
  {
    var n := src.sig - dst.sig;
    ShrShr(n, dst.sig, a);
    LowLow(n, src.sig, a);
    Split(n, Low(src.sig, a));
    ShlAdd(n, Pow2(dst.sig), Low(dst.sig, Shr(n, a)));
    Pow2Add(dst.sig, n);
  }

  lemma NormalNearest(src: Format, dst: Format, aAbs: nat)
    requires Narrowing(src, dst) && Underflow(src, dst) <= aAbs < Overflow(src, dst)
    ensures var n := src.sig - dst.sig;
            Nearest(dst, UnitShift(src, dst), Worth(src, aAbs),
                    RoundBits(WrapSub(dst.Width(), Shr(n, aAbs), Shl(dst.sig, Rebias(src, dst))),
                              Low(n, aAbs), Pow2(n - 1)))
  {
    hide WrapSub, Underflow, Overflow, Low, Shr, Pow2, Nearest;
    var n, rebias, k := src.sig - dst.sig, Rebias(src, dst), UnitShift(src, dst);
    NormalQuotient(src, dst, aAbs);
    var a := aAbs - Shl(src.sig, rebias);
    var q, rem, e := Shr(n, a), Low(n, a), Shr(src.sig, a);
    ShiftedParts(src, dst, a);
    NormalWorth(dst, rebias, n, e, Pow2(dst.sig) + Low(dst.sig, q), rem);
    ScaledSucc(dst, k, q);
    NormalUlp(rebias, n, e);
    RoundsAt(dst, k, Worth(src, aAbs), q, e + rebias - 1, rem, n);
  }

  lemma NormalWorth(dst: Format, rebias: nat, n: nat, e: nat, m: nat, rem: nat)
    requires e >= 1
    ensures Shl(e + rebias - 1, Shl(n, m) + rem) == Shl(rebias + n, Shl(e - 1, m)) + Shl(e + rebias - 1, rem)
  {
    ShlAdd(e + rebias - 1, Shl(n, m), rem);
    ShlShl(e + rebias - 1, n, m);
    ShlShl(rebias + n, e - 1, m);
    assert e + rebias - 1 + n == rebias + n + (e - 1);
  }

  lemma NormalUlp(rebias: nat, n: nat, e: nat)
    requires e >= 1
    ensures Shl(rebias + n, Pow2(e - 1)) == Shl(e + rebias - 1, Pow2(n))
  {
    ShlOne(e - 1);
    ShlOne(n);
    ShlShl(rebias + n, e - 1, 1);
    ShlShl(e + rebias - 1, n, 1);
    assert rebias + n + (e - 1) == e + rebias - 1 + n;
  }

  // ----- the subnormal branch

  /** Shifting the lost bits to the top of the word keeps exactly them. */
  lemma {:induction false} StickyIsLost(w: nat, x: nat, shift: nat)
    requires shift <= w
    ensures Low(w, Shl(w - shift, x)) == Shl(w - shift, Low(shift, x))
    decreases w - shift
  {
    if shift < w {
      StickyIsLost(w - 1, x, shift);
      LowDouble(w, Shl(w - 1 - shift, x), 0);
    }
  }

  lemma {:induction false} ShlZero(n: nat, x: nat)
    ensures Shl(n, x) == 0 <==> x == 0
  {
    if n > 0 { ShlZero(n - 1, x); }
  }

  lemma OrBitParts(n: nat, x: nat, bit: nat)
    requires n >= 1 && bit <= 1
    ensures Shr(n, OrBit(x, bit)) == Shr(n, x)
    ensures Low(n, OrBit(x, bit)) == OrBit(Low(n, x), bit)
  {
    hide Low, Shr;
    OneStep(n, x);
    OneStep(n, OrBit(x, bit));
  }

  lemma OneStep(n: nat, x: nat)
    requires n >= 1
    ensures Low(n, x) == x % 2 + 2 * Low(n - 1, x / 2) && Shr(n, x) == Shr(n - 1, x / 2)
  {}

  /** Rounding with the sticky bit is rounding with all the lost bits: this needs at least
      two round bits, so that half is even. */
  lemma StickyRounds(n: nat, shift: nat, x: nat, bit: nat)
    requires n >= 2 && bit == if Low(shift, x) != 0 then 1 else 0
    ensures var d := OrBit(Shr(shift, x), bit);
            RoundBits(Shr(n, d), Low(n, d), Pow2(n - 1)) ==
            RoundBits(Shr(shift + n, x), Low(shift + n, x), Pow2(shift + n - 1))
  {
    var y := Shr(shift, x);
    OrBitParts(n, y, bit);
    ShrShr(shift, n, x);
    LowExtend(shift, n, x);
    Pow2Add(n - 1, shift);
    assert n - 1 + shift == shift + n - 1;
    HalfEven(n);
    StickyCompare(Low(n, y), bit, Low(shift, x), shift, n);
  }

  lemma HalfEven(n: nat)
    requires n >= 2
    ensures Pow2(n - 1) % 2 == 0
  {}

  /** h followed by the bits lost, against half. */
  lemma StickyCompare(h: nat, bit: nat, lost: nat, shift: nat, n: nat)
    requires n >= 2 && Pow2(n - 1) % 2 == 0
    requires lost < Pow2(shift) && bit == if lost != 0 then 1 else 0
    ensures var half := Shl(shift, Pow2(n - 1)); var all := Shl(shift, h) + lost;
            && (OrBit(h, bit) > Pow2(n - 1) <==> all > half)
            && (OrBit(h, bit) == Pow2(n - 1) <==> all == half)
  {
    var half := Pow2(n - 1);
    hide Pow2, Shl;
    ShlLess(shift, half, h);
    ShlLess(shift, h, half);
    if h < half {
      ShlAdd(shift, h, 1);
      ShlOne(shift);
      ShlLess(shift, half, h + 1);
    }
  }

  /** A magnitude far below the least narrow subnormal rounds to zero. */
  lemma TinyNearest(src: Format, dst: Format, aAbs: nat)
    requires Narrowing(src, dst) && Shr(src.sig, aAbs) + src.sig <= Rebias(src, dst)
    ensures Nearest(dst, UnitShift(src, dst), Worth(src, aAbs), 0)
  {
    var e, k, v := Shr(src.sig, aAbs), UnitShift(src, dst), Worth(src, aAbs);
    assert v < Pow2(Rebias(src, dst)) by {
      if e == 0 {
        LowSmall(src.sig, aAbs);
        Pow2Mono(src.sig, Rebias(src, dst));
      } else {
        ShlLess(e - 1, Pow2(src.sig) + Low(src.sig, aAbs), 2 * Pow2(src.sig));
        Pow2Add(src.sig + 1, e - 1);
        Pow2Mono(src.sig + 1 + (e - 1), Rebias(src, dst));
      }
    }
    Pow2Mono(Rebias(src, dst) + 1, k);
    FirstSteps(dst, k);
    InfBelow(dst);
    NearestBetween(dst, k, v, 0, 0);
  }

  lemma FirstSteps(f: Format, k: nat)
    requires f.Valid()
    ensures Scaled(f, k, 0) == 0 && Scaled(f, k, 1) == Pow2(k)
  {
    LowSmall(f.sig, 0);
    ScaledSucc(f, k, 0);
    ShlZero(k, 0);
    ShlOne(k);
  }

  lemma DenormalNearest(src: Format, dst: Format, aAbs: nat)
    requires Narrowing(src, dst) && Shr(src.sig, aAbs) <= Rebias(src, dst)
    ensures Nearest(dst, UnitShift(src, dst), Worth(src, aAbs), Denormalize(src, dst, aAbs))
  {
    hide Shl, Shr, Low, Pow2, Nearest;
    var n, e := src.sig - dst.sig, Shr(src.sig, aAbs);
    var shift := Rebias(src, dst) - e + 1;
    var x := Low(src.sig, aAbs) + Pow2(src.sig);
    if shift > src.sig {
      TinyNearest(src, dst, aAbs);
    } else {
      StickyIsLost(src.Width(), x, shift);
      ShlZero(src.Width() - shift, Low(shift, x));
      StickyRounds(n, shift, x, Sticky(src.Width(), x, shift));
      var q, rem := Shr(shift + n, x), Low(shift + n, x);
      SubnormalQuotient(src, dst, shift, x, e);
      InfBelow(dst);
      RoundsAt(dst, UnitShift(src, dst), Worth(src, aAbs), q, e - 1, rem, shift + n);
    }
  }

  lemma SubnormalQuotient(src: Format, dst: Format, shift: nat, x: nat, e: nat)
    requires Narrowing(src, dst) && e >= 1 && shift >= 1 && shift == Rebias(src, dst) - e + 1
    requires x < 2 * Pow2(src.sig)
    ensures var n := src.sig - dst.sig; var q := Shr(shift + n, x); var k := UnitShift(src, dst);
            && q < Pow2(dst.sig)
            && Shl(e - 1, x) == Scaled(dst, k, q) + Shl(e - 1, Low(shift + n, x))
            && Scaled(dst, k, q + 1) == Scaled(dst, k, q) + Shl(e - 1, Pow2(shift + n))
  {
    var n, k := src.sig - dst.sig, UnitShift(src, dst);
    var s := shift + n;
    var q := Shr(s, x);
    hide Low, Shr, Nearest;
    assert q < Pow2(dst.sig) by {
      Pow2Add(dst.sig, s);
      Pow2Mono(src.sig + 1, dst.sig + s);
      ShrBelow(s, x, Pow2(dst.sig));
    }
    LowSmall(dst.sig, q);
    Split(s, x);
    ShlAdd(e - 1, Low(s, x), Shl(s, q));
    ShlShl(e - 1, s, q);
    assert e - 1 + s == k;
    ScaledSucc(dst, k, q);
    ShlOne(s);
    ShlOne(k);
    ShlShl(e - 1, s, 1);
  }

  /** Narrowing a number gives the nearest narrow number, ties to even: with subnormals,
      sticky bits and the carry into infinity. */
  lemma TruncateIsNearest(src: Format, dst: Format, aAbs: nat)
    requires Narrowing(src, dst) && aAbs <= src.Inf()
    ensures aAbs < Pow2(src.Width() - 1)
    ensures Nearest(dst, UnitShift(src, dst), Worth(src, aAbs), TruncateAbs(src, dst, aAbs))
  {
    InfBelow(src);
    Ranges(src, dst, aAbs);
    if Underflow(src, dst) <= aAbs < Overflow(src, dst) {
      NormalNearest(src, dst, aAbs);
    } else if aAbs >= Overflow(src, dst) {
      OverflowWorth(src, dst, aAbs);
      NearestOverflow(dst, UnitShift(src, dst), Worth(src, aAbs));
    } else {
      DenormalNearest(src, dst, aAbs);
    }
  }

  lemma ShlNone(v: nat)
    ensures Shl(0, v) == v
  {}

  lemma OverflowWorth(src: Format, dst: Format, aAbs: nat)
    requires Narrowing(src, dst) && aAbs >= Overflow(src, dst)
    ensures Worth(src, aAbs) >= Scaled(dst, UnitShift(src, dst), dst.Inf())
  {
    hide Shl, Shr, Low, Pow2;
    var rebias, top, n := Rebias(src, dst), dst.InfExp(), src.sig - dst.sig;
    var o := Overflow(src, dst);
    InfBelow(dst);
    Join(src.sig, 0, rebias + top);
    Join(dst.sig, 0, top);
    NormalWorth(dst, rebias, n, top, Pow2(dst.sig), 0);
    Pow2Add(dst.sig, n);
    ShlZero(top + rebias - 1, 0);
    assert Worth(src, o) == Scaled(dst, UnitShift(src, dst), dst.Inf());
    ScaledMono(src, 0, o, aAbs);
    ShlNone(Worth(src, o));
    ShlNone(Worth(src, aAbs));
  }

  /** NaN stays NaN: it becomes quiet and keeps the upper bits of its payload. */
  lemma TruncateNaN(src: Format, dst: Format, aAbs: nat)
    requires Narrowing(src, dst) && src.Inf() < aAbs < Pow2(src.Width() - 1)
    ensures dst.Inf() < TruncateAbs(src, dst, aAbs) < Pow2(dst.Width() - 1)
    ensures var r := TruncateAbs(src, dst, aAbs);
            && Shr(dst.sig, r) == dst.InfExp() && Bit(dst.sig - 1, r) == 1
            && Low(dst.sig - 1, r) == Shr(src.sig - dst.sig, Low(src.sig - 1, aAbs))
  {
    assert dst.Valid() && src.sig > dst.sig;
    hide Low, Shr, Shl, Bit, Pow2, TruncateAbs, Narrowing;
    KeptPayload(src, dst, aAbs);
    InfBelow(dst);
    QuietParts(dst, Shr(src.sig - dst.sig, Low(src.sig - 1, aAbs)));
  }

  lemma KeptPayload(src: Format, dst: Format, aAbs: nat)
    requires Narrowing(src, dst) && src.Inf() < aAbs < Pow2(src.Width() - 1)
    ensures var p := Shr(src.sig - dst.sig, Low(src.sig - 1, aAbs));
            p < Pow2(dst.sig - 1) && TruncateAbs(src, dst, aAbs) == dst.Inf() + Pow2(dst.sig - 1) + p
  {
    hide Low, Shr, Shl, Pow2, WrapSub, RoundBits, Denormalize;
    LowLow(src.sig - dst.sig, src.sig - 1, aAbs);
    LowSmall(dst.sig - 1, Shr(src.sig - dst.sig, Low(src.sig - 1, aAbs)));
    Ranges(src, dst, aAbs);
  }

  lemma QuietParts(f: Format, p: nat)
    requires f.sig >= 1 && p < Pow2(f.sig - 1)
    ensures var r := f.Inf() + Pow2(f.sig - 1) + p;
            && f.Inf() < r < f.Inf() + Pow2(f.sig)
            && Shr(f.sig, r) == f.InfExp() && Bit(f.sig - 1, r) == 1 && Low(f.sig - 1, r) == p
  {
    assert Pow2(f.sig) == 2 * Pow2(f.sig - 1);
    hide Low, Shr, Shl, Bit, Pow2;
    var d := f.sig - 1;
    Join(f.sig, Pow2(d) + p, f.InfExp());
    BitTop(d, Pow2(d) + p);
    BitLow(d, f.sig, f.Inf() + Pow2(d) + p);
    LowLow(d, f.sig, f.Inf() + Pow2(d) + p);
  }
}
