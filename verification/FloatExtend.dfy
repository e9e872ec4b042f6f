/** Widening (__extendXfYf2__), which is exact, and its round trip with narrowing. */
module FloatExtend {
  import opened Bits
  import opened FloatSpec
  import opened FloatConvert

  /** The number of bits up to the leading one. */
  function BitLength(x: nat): nat
  {
    if x == 0 then 0 else 1 + BitLength(x / 2)
  }

  lemma {:induction false} BitLengthShr(k: nat, x: nat)
    ensures Shr(k, x) != 0 ==> BitLength(x) == k + BitLength(Shr(k, x))
  {
    if k > 0 {
      BitLengthShr(k - 1, x / 2);
      LowSmall(k - 1, 0);
    }
  }

  lemma {:induction false} BitLengthBounds(x: nat)
    ensures x > 0 ==> BitLength(x) > 0 && Pow2(BitLength(x) - 1) <= x
    ensures x < Pow2(BitLength(x))
  {
    if x > 0 { BitLengthBounds(x / 2); }
  }

  /** __clz: count leading zeros of a 32-bit word by halving the window. */
  method CountLeadingZeros(x0: nat) returns (r: nat)
    requires x0 < Pow2(32)
    ensures r == 32 - BitLength(x0)
  {
    hide BitLength, Pow2;
    var n, x := 32, x0;
    n, x := Window(n, x, 16);
    n, x := Window(n, x, 8);
    n, x := Window(n, x, 4);
    n, x := Window(n, x, 2);
    TwoBits(x);
    var y := Shr(1, x);
    if y != 0 {
      r := n - 2;
    } else {
      r := n - x;
    }
  }

  lemma TwoBits(x: nat)
    requires x < Pow2(2)
    ensures x < 4 && Shr(1, x) == x / 2 && BitLength(x) == (if x >= 2 then 2 else x)
  {
    assert Pow2(2) == 4;
    if x >= 2 { assert BitLength(x / 2) == 1; }
  }

  /** One step: if the upper half of a window of 2k bits is not empty, move up into it. */
  method Window(n0: nat, x0: nat, k: nat) returns (n: nat, x: nat)
    requires x0 < Pow2(2 * k) && n0 >= 2 * k
    ensures x < Pow2(k) && n >= k && n - BitLength(x) == n0 - BitLength(x0)
  {
    n, x := n0, x0;
    BitLengthShr(k, x);
    LowSmall(k, x);
    LowLow(k, 2 * k, x);
    LowSmall(2 * k, x);
    var y := Shr(k, x);
    if y != 0 {
      n := n - k;
      x := y;
    }
  }

  /** v & (1 << n). */
  function BitAt(n: nat, v: nat): nat
  {
    if Bit(n, v) == 1 then Pow2(n) else 0
  }

  /** The magnitude of the widened number. */
  function ExtendAbs(wide: Format, narrow: Format, aAbs: nat): nat
    requires Narrowing(wide, narrow) && aAbs < Pow2(narrow.Width() - 1) && narrow.Width() <= 32
  {
    var n := wide.sig - narrow.sig;
    var minNormal := Pow2(narrow.sig);
    InfBelow(narrow);
    NarrowRange(narrow, aAbs);
    if WrapSub(narrow.Width(), aAbs, minNormal) < narrow.Inf() - minNormal then
      Shl(n, aAbs) + Shl(wide.sig, Rebias(wide, narrow))
    else if aAbs >= narrow.Inf() then
      // the quiet bit and the rest of the payload, moved up
      wide.Inf() + Shl(n, BitAt(narrow.sig - 1, aAbs)) + Shl(n, Low(narrow.sig - 1, aAbs))
    else if aAbs != 0 then
      SubnormalScale(narrow, aAbs);
      var scale := (32 - BitLength(aAbs)) - (32 - BitLength(minNormal)); // two calls of __clz
      var significand := Shl(n + scale, aAbs);
      FlipBit(wide.sig, significand) + Shl(wide.sig, Rebias(wide, narrow) - scale + 1)
    else 0
  }

  /** x ^ (1 << n), for x below 2 to the power n + 1. */
  function FlipBit(n: nat, x: nat): nat
  {
    if x >= Pow2(n) then x - Pow2(n) else x + Pow2(n)
  }

  lemma NarrowRange(f: Format, a: nat)
    requires f.Valid() && a < Pow2(f.Width() - 1)
    ensures f.Inf() >= Pow2(f.sig)
    ensures WrapSub(f.Width(), a, Pow2(f.sig)) < f.Inf() - Pow2(f.sig) <==> Pow2(f.sig) <= a < f.Inf()
  {
    InfBelow(f);
    WrapSmall(f.Width(), a, Pow2(f.sig));
  }

  lemma SubnormalScale(f: Format, a: nat)
    requires 0 < a < Pow2(f.sig)
    ensures BitLength(Pow2(f.sig)) == f.sig + 1
    ensures 1 <= BitLength(a) <= f.sig
  {
    PowerLength(f.sig);
    BitLengthBounds(a);
    if BitLength(a) > f.sig { Pow2Mono(f.sig, BitLength(a) - 1); }
  }

  lemma {:induction false} PowerLength(n: nat)
    ensures BitLength(Pow2(n)) == n + 1
  {
    if n > 0 { PowerLength(n - 1); }
  }

  function Extend(wide: Format, narrow: Format, a: nat): nat
    requires Narrowing(wide, narrow) && a < Pow2(narrow.Width()) && narrow.Width() <= 32
  {
    ExtendAbs(wide, narrow, Low(narrow.Width() - 1, a)) + Shl(wide.Width() - 1, Bit(narrow.Width() - 1, a))
  }

  /** Widening a number keeps its value. */
  lemma ExtendExact(wide: Format, narrow: Format, aAbs: nat)
    requires Narrowing(wide, narrow) && narrow.Width() <= 32 && aAbs < narrow.Inf()
    ensures aAbs < Pow2(narrow.Width() - 1)
    ensures Worth(wide, ExtendAbs(wide, narrow, aAbs)) == Scaled(narrow, UnitShift(wide, narrow), aAbs)
    ensures ExtendAbs(wide, narrow, aAbs) < wide.Inf()
  {
    hide Shl, Shr, Low, Pow2, BitLength, FlipBit, WrapSub, Worth, Scaled, UnitShift, Rebias;
    InfBelow(narrow);
    NarrowRange(narrow, aAbs);
    if Pow2(narrow.sig) <= aAbs {
      ExtendNormal(wide, narrow, aAbs);
    } else if aAbs > 0 {
      SubnormalScale(narrow, aAbs);
      ExtendSubnormal(wide, narrow, aAbs);
    } else {
      ExtendZero(wide, narrow);
    }
  }

  lemma ExtendZero(wide: Format, narrow: Format)
    requires Narrowing(wide, narrow)
    ensures Worth(wide, 0) == 0 == Scaled(narrow, UnitShift(wide, narrow), 0) && 0 < wide.Inf()
  {
    LowSmall(wide.sig, 0);
    LowSmall(narrow.sig, 0);
    ShlZero(UnitShift(wide, narrow), 0);
    InfBelow(wide);
  }

  lemma ExtendNormal(wide: Format, narrow: Format, aAbs: nat)
    requires Narrowing(wide, narrow) && Pow2(narrow.sig) <= aAbs < narrow.Inf()
    ensures var r := Shl(wide.sig - narrow.sig, aAbs) + Shl(wide.sig, Rebias(wide, narrow));
            Worth(wide, r) == Scaled(narrow, UnitShift(wide, narrow), aAbs) && r < wide.Inf()
  {
    hide Shl, Shr, Low, Pow2;
    var n, rebias := wide.sig - narrow.sig, Rebias(wide, narrow);
    var b := Shl(n, aAbs);
    var e := Shr(narrow.sig, aAbs);
    Join(n, 0, aAbs);
    ShrShr(n, narrow.sig, b);
    ShrAddShl(wide.sig, b, rebias);
    ShiftedParts(wide, narrow, b);
    LowSmall(narrow.sig, aAbs);
    NormalWorth(narrow, rebias, n, e, Pow2(narrow.sig) + Low(narrow.sig, aAbs), 0);
    ShlZero(e + rebias - 1, 0);
    ShrBelow(narrow.sig, aAbs, narrow.InfExp());
    BelowInf(wide, narrow, e, b + Shl(wide.sig, rebias));
  }

  lemma BelowInf(wide: Format, narrow: Format, e: nat, r: nat)
    requires Narrowing(wide, narrow) && e < narrow.InfExp()
    requires Shr(wide.sig, r) == e + Rebias(wide, narrow)
    ensures r < wide.Inf()
  {
    InfBelow(wide);
    InfBelow(narrow);
    ShrBelow(wide.sig, r, wide.InfExp());
  }

  lemma One()
    ensures Pow2(1) == 2
  {}

  lemma ExtendSubnormal(wide: Format, narrow: Format, aAbs: nat)
    requires Narrowing(wide, narrow) && 0 < aAbs < Pow2(narrow.sig)
    ensures 1 <= BitLength(aAbs) <= narrow.sig
    ensures var scale := narrow.sig + 1 - BitLength(aAbs);
            var r := FlipBit(wide.sig, Shl(wide.sig - narrow.sig + scale, aAbs)) +
              Shl(wide.sig, Rebias(wide, narrow) - scale + 1);
            Worth(wide, r) == Scaled(narrow, UnitShift(wide, narrow), aAbs) && r < wide.Inf()
  {
    hide Shl, Shr, Low, Pow2, BitLength;
    SubnormalScale(narrow, aAbs);
    BitLengthBounds(aAbs);
    var len := BitLength(aAbs);
    var scale, n, rebias := narrow.sig + 1 - len, wide.sig - narrow.sig, Rebias(wide, narrow);
    var up := wide.sig + 1 - len;
    assert n + scale == up;
    var x, e := Shl(up, aAbs), rebias - scale + 1;
    TopPlace(up, len, aAbs);
    Pow2Add(wide.sig, 1);
    One();
    var m := x - Pow2(wide.sig);
    Join(wide.sig, m, e);
    LowSmall(narrow.sig, aAbs);
    ShlShl(e - 1, up, aAbs);
    assert e - 1 + up == UnitShift(wide, narrow);
    InfBelow(wide);
    InfBelow(narrow);
    ShrBelow(wide.sig, m + Shl(wide.sig, e), wide.InfExp());
  }

  lemma TopPlace(up: nat, len: nat, a: nat)
    requires len > 0 && Pow2(len - 1) <= a < Pow2(len)
    ensures Pow2(up + len - 1) <= Shl(up, a) < Pow2(up + len)
  {
    Pow2Add(len - 1, up);
    Pow2Add(len, up);
    ShlLess(up, a, Pow2(len - 1));
    ShlLess(up, a, Pow2(len));
    assert len - 1 + up == up + len - 1;
  }

  lemma ExtendInf(wide: Format, narrow: Format)
    requires Narrowing(wide, narrow) && narrow.Width() <= 32
    ensures narrow.Inf() < Pow2(narrow.Width() - 1) && ExtendAbs(wide, narrow, narrow.Inf()) == wide.Inf()
  {
    InfBelow(narrow);
    NarrowRange(narrow, narrow.Inf());
    Join(narrow.sig, 0, narrow.InfExp());
    LowTop(narrow.sig, narrow.Inf());
    ShlZero(wide.sig - narrow.sig, 0);
  }

  /** Narrowing undoes widening, infinities included. */
  lemma TruncateExtendAbs(wide: Format, narrow: Format, x: nat)
    requires Narrowing(wide, narrow) && narrow.Width() <= 32 && x <= narrow.Inf()
    ensures x < Pow2(narrow.Width() - 1)
    ensures var r := ExtendAbs(wide, narrow, x); r < Pow2(wide.Width() - 1) && TruncateAbs(wide, narrow, r) == x
  {
    InfBelow(wide);
    InfBelow(narrow);
    if x < narrow.Inf() {
      ExtendExact(wide, narrow, x);
      var r := ExtendAbs(wide, narrow, x);
      TruncateIsNearest(wide, narrow, r);
      NearestExact(narrow, UnitShift(wide, narrow), x, TruncateAbs(wide, narrow, r));
    } else {
      ExtendInf(wide, narrow);
      Ranges(wide, narrow, wide.Inf());
    }
  }

  /** The sign bit and the magnitude of a word. */
  lemma SignSplit(w: nat, a: nat)
    requires w >= 1 && a < Pow2(w)
    ensures a == Low(w - 1, a) + Shl(w - 1, Bit(w - 1, a))
  {
    BitTop(w - 1, a);
    Split(w - 1, a);
  }

  lemma SignJoin(w: nat, m: nat, b: nat)
    requires w >= 1 && m < Pow2(w - 1) && b <= 1
    ensures m + Shl(w - 1, b) < Pow2(w)
    ensures Low(w - 1, m + Shl(w - 1, b)) == m && Bit(w - 1, m + Shl(w - 1, b)) == b
  {
    Join(w - 1, m, b);
    ShlOne(w - 1);
    ShlZero(w - 1, 0);
  }

  lemma TruncateExtend(wide: Format, narrow: Format, a: nat)
    requires Narrowing(wide, narrow) && narrow.Width() <= 32
    requires a < Pow2(narrow.Width()) && Low(narrow.Width() - 1, a) <= narrow.Inf()
    ensures Extend(wide, narrow, a) < Pow2(wide.Width())
    ensures Truncate(wide, narrow, Extend(wide, narrow, a)) == a
  {
    hide Low, Shl, Bit, Pow2, ExtendAbs, TruncateAbs;
    var x, b := Low(narrow.Width() - 1, a), Bit(narrow.Width() - 1, a);
    TruncateExtendAbs(wide, narrow, x);
    SignJoin(wide.Width(), ExtendAbs(wide, narrow, x), b);
    SignSplit(narrow.Width(), a);
  }

  /** NaN stays NaN, with all its payload. */
  lemma ExtendNaN(wide: Format, narrow: Format, aAbs: nat)
    requires Narrowing(wide, narrow) && narrow.Width() <= 32 && narrow.Inf() < aAbs < Pow2(narrow.Width() - 1)
    ensures wide.Inf() < ExtendAbs(wide, narrow, aAbs) < Pow2(wide.Width() - 1)
    ensures var r := ExtendAbs(wide, narrow, aAbs);
            Shr(wide.sig, r) == wide.InfExp() && Low(wide.sig, r) == Shl(wide.sig - narrow.sig, Low(narrow.sig, aAbs))
  {
    NarrowRange(narrow, aAbs);
    InfBelow(wide);
    var n, m := wide.sig - narrow.sig, Low(narrow.sig, aAbs);
    PayloadShift(n, narrow.sig, aAbs);
    PayloadNonZero(narrow, aAbs);
    ShlZero(n, m);
    ShlLess(n, m, Pow2(narrow.sig));
    Pow2Add(narrow.sig, n);
    Join(wide.sig, Shl(n, m), wide.InfExp());
  }

  /** Widening and narrowing a NaN sets its quiet bit and changes nothing else. */
  lemma TruncateExtendNaN(wide: Format, narrow: Format, x: nat)
    requires Narrowing(wide, narrow) && narrow.Width() <= 32 && narrow.Inf() < x < Pow2(narrow.Width() - 1)
    ensures ExtendAbs(wide, narrow, x) < Pow2(wide.Width() - 1)
    ensures TruncateAbs(wide, narrow, ExtendAbs(wide, narrow, x)) ==
            if Bit(narrow.sig - 1, x) == 1 then x else x + Pow2(narrow.sig - 1)
  {
    hide Low, Shr, Shl, Bit, Pow2, ExtendAbs, TruncateAbs;
    ExtendNaN(wide, narrow, x);
    var r := ExtendAbs(wide, narrow, x);
    TruncateNaN(wide, narrow, r);
    PayloadBack(wide.sig - narrow.sig, narrow.sig, x, r);
    NaNParts(narrow, x);
    var t := TruncateAbs(wide, narrow, r);
    Split(narrow.sig, x);
    Split(narrow.sig, t);
    LowTop(narrow.sig, x);
    LowTop(narrow.sig, t);
  }

  /** What widening shifted in, narrowing shifts out. */
  lemma PayloadBack(n: nat, sig: nat, x: nat, r: nat)
    requires sig >= 1 && Low(n + sig, r) == Shl(n, Low(sig, x))
    ensures Shr(n, Low(n + sig - 1, r)) == Low(sig - 1, x)
  {
    hide Low, Shr, Shl;
    LowLow(n + sig - 1, n + sig, r);
    LowLow(n, n + sig - 1, Shl(n, Low(sig, x)));
    PlainShift(n, Low(sig, x));
    LowLow(sig - 1, sig, x);
  }

  lemma {:induction false} PlainShift(n: nat, v: nat)
    ensures Shr(n, Shl(n, v)) == v
  {
    if n > 0 { PlainShift(n - 1, v); }
  }

  lemma PayloadShift(n: nat, sig: nat, a: nat)
    requires sig >= 1
    ensures Shl(n, BitAt(sig - 1, a)) + Shl(n, Low(sig - 1, a)) == Shl(n, Low(sig, a))
  {
    LowTop(sig, a);
    ShlAdd(n, Low(sig - 1, a), BitAt(sig - 1, a));
  }

  lemma PayloadNonZero(f: Format, a: nat)
    requires f.Valid() && f.Inf() < a < Pow2(f.Width() - 1)
    ensures Low(f.sig, a) != 0
  {
    Split(f.sig, a);
    NaNParts(f, a);
  }

  lemma NaNParts(f: Format, a: nat)
    requires f.Valid() && f.Inf() < a < Pow2(f.Width() - 1)
    ensures Shr(f.sig, a) == f.InfExp()
  {
    Split(f.sig, a);
    ShlLess(f.sig, f.InfExp(), Shr(f.sig, a));
    Pow2Add(f.exp, f.sig);
    assert f.exp + f.sig == f.Width() - 1;
    ShrBelow(f.sig, a, Pow2(f.exp));
    ShrBelow(f.sig, a, f.InfExp());
  }
}
