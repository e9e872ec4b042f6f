/** The bit-reversed counter of the Huffman table builder (elf_zlib_inflate_table):
    `code` holds a j-bit code with its first bit lowest, and is counted up without
    ever reversing it. */
module ReverseCounter {
  import opened Bits

  /** Set the most significant zero among the low j bits, clearing the ones above it. */
  function Inc(j: nat, c: nat): (r: nat)
    requires c < Pow2(j)
    ensures r < Pow2(j)
  {
    if j == 0 then 0
    else if c < Pow2(j - 1) then c + Pow2(j - 1)
    else Inc(j - 1, c - Pow2(j - 1))
  }

  lemma {:induction false} IncIsSuccessor(j: nat, c: nat)
    requires c < Pow2(j)
    ensures Msb(j, Inc(j, c)) == Low(j, Msb(j, c) + 1)
  {
    if j > 0 {
      hide Low, Msb, Inc, Pow2;
      Doubles(j);
      if c < Pow2(j - 1) {
        IncSets(j, c);
      } else {
        IncIsSuccessor(j - 1, c - Pow2(j - 1));
        IncCarries(j, c);
      }
    }
  }

  /** The top bit is clear and is set. */
  lemma IncSets(j: nat, c: nat)
    requires j > 0 && c < Pow2(j - 1)
    ensures c < Pow2(j) && Msb(j, Inc(j, c)) == Low(j, Msb(j, c) + 1)
  {
    hide Low, Msb, Inc, Pow2;
    Doubles(j);
    IncUnfold(j, c);
    TopOfCode(j, c);
    TopOfCode(j, c + Pow2(j - 1));
    LowSmall(j, Msb(j, c) + 1);
  }

  /** The top bit is set and is cleared, and the rest counts on. */
  lemma IncCarries(j: nat, c: nat)
    requires j > 0 && Pow2(j - 1) <= c < Pow2(j) && c - Pow2(j - 1) < Pow2(j - 1)
    requires Msb(j - 1, Inc(j - 1, c - Pow2(j - 1))) == Low(j - 1, Msb(j - 1, c - Pow2(j - 1)) + 1)
    ensures Msb(j, Inc(j, c)) == Low(j, Msb(j, c) + 1)
  {
    hide Low, Msb, Inc, Pow2;
    IncUnfold(j, c);
    TopOfCode(j, c);
    TopOfCode(j, Inc(j, c));
    LowDouble(j, Msb(j - 1, c - Pow2(j - 1)) + 1, 0);
  }

  lemma Doubles(j: nat)
    requires j > 0
    ensures Pow2(j) == 2 * Pow2(j - 1)
  {}

  lemma IncUnfold(j: nat, c: nat)
    requires j > 0 && c < Pow2(j)
    ensures c < Pow2(j - 1) ==> Inc(j, c) == c + Pow2(j - 1)
    ensures c >= Pow2(j - 1) ==> Inc(j, c) == Inc(j - 1, c - Pow2(j - 1)) < Pow2(j - 1)
  {}

  /** The top bit of a j-bit word is the last bit of its code. */
  lemma TopOfCode(j: nat, c: nat)
    requires j > 0 && c < Pow2(j)
    ensures c < Pow2(j - 1) ==> Msb(j, c) == 2 * Msb(j - 1, c)
    ensures c >= Pow2(j - 1) ==> Msb(j, c) == 2 * Msb(j - 1, c - Pow2(j - 1)) + 1
  {
    hide Low, Shr;
    BitTop(j - 1, c);
    MsbLow(j - 1, j - 1, c);
    LowSmall(j - 1, c);
  }

  /** The increment loop: find the most significant zero bit below 2 to the power j,
      set it and clear the higher ones. */
  method Increment(j: nat, code0: nat) returns (code: nat)
    requires 1 <= j && code0 < Pow2(j)
    ensures code == Inc(j, code0)
    ensures code < Pow2(j) && Msb(j, code) == Low(j, Msb(j, code0) + 1)
  {
    var i := j; // incr == 1 << (i - 1), or 0
    LowSmall(j, code0);
    while i != 0 && Bit(i - 1, code0) != 0
      invariant 0 <= i <= j
      invariant Inc(i, Low(i, code0)) == Inc(j, code0)
    {
      LowTop(i, code0);
      i := i - 1;
    }
    if i == 0 {
      code := 0;
    } else {
      LowTop(i, code0);
      code := Low(i - 1, code0);
      code := code + Pow2(i - 1);
    }
    IncIsSuccessor(j, code0);
  }

  /** Adding 2 to the power k to the code: increment only the low j - k bits, which are
      the high bits of the code. */
  function AddAt(j: nat, k: nat, c: nat): nat
    requires k <= j
  {
    c - Low(j - k, c) + Inc(j - k, Low(j - k, c))
  }

  lemma {:induction false} AddAtAdds(j: nat, k: nat, c: nat)
    requires k <= j && c < Pow2(j)
    ensures AddAt(j, k, c) < Pow2(j)
    ensures Msb(j, AddAt(j, k, c)) == Low(j, Msb(j, c) + Pow2(k))
    decreases k
  {
    hide Low, Msb, Bit, Shr, Inc;
    if k == 0 {
      LowSmall(j, c);
      IncIsSuccessor(j, c);
    } else {
      BitTop(j - 1, c);
      AddAtTop(j, k, c);
      var c' := Low(j - 1, c);
      AddAtAdds(j - 1, k - 1, c');
      TopOfCode(j, c);
      TopOfCode(j, AddAt(j, k, c));
      LowDouble(j, Msb(j - 1, c') + Pow2(k - 1), Bit(j - 1, c));
    }
  }

  /** AddAt leaves the top bit alone, if it is above the bits it works on. */
  lemma AddAtTop(j: nat, k: nat, c: nat)
    requires 1 <= k <= j && c < Pow2(j)
    ensures AddAt(j, k, c) - c == AddAt(j - 1, k - 1, Low(j - 1, c)) - Low(j - 1, c)
    ensures c < Pow2(j - 1) ==> Low(j - 1, c) == c
  {
    hide Low, Inc, Pow2;
    LowLow(j - k, j - 1, c);
    LowSmall(j - 1, c);
  }

  /** The inner loop of the reverse add: carry from bit j - k - 1 downwards. */
  method AddBit(j: nat, k: nat, code0: nat) returns (code: nat)
    requires k < j && code0 < Pow2(j)
    ensures code == AddAt(j, k, code0)
  {
    hide Low, Bit, Shr;
    code := code0;
    ghost var n := j - k;
    var m := j - k; // bit == 1 << (m - 1)
    while m > 0
      invariant 0 <= m <= n
      invariant code == code0 - Low(n, code0) + Low(m, code0)
      invariant Low(m, code) == Low(m, code0)
      invariant Inc(n, Low(n, code0)) == Inc(m, Low(m, code0))
    {
      LowTop(m, code0);
      SameBit(m, code, code0);
      if Bit(m - 1, code) == 0 {
        code := code + Pow2(m - 1);
        return;
      }
      ClearTop(m, code);
      code := code - Pow2(m - 1);
      m := m - 1;
    }
  }

  lemma SameBit(m: nat, v: nat, w: nat)
    requires m > 0 && Low(m, v) == Low(m, w)
    ensures Bit(m - 1, v) == Bit(m - 1, w) && Low(m - 1, v) == Low(m - 1, w)
  {
    BitLow(m - 1, m, v);
    BitLow(m - 1, m, w);
    LowLow(m - 1, m, v);
    LowLow(m - 1, m, w);
  }

  lemma {:induction false} ClearTop(m: nat, v: nat)
    requires m > 0 && Bit(m - 1, v) == 1
    ensures v >= Pow2(m - 1) && Low(m - 1, v - Pow2(m - 1)) == Low(m - 1, v)
  {
    if m > 1 {
      ClearTop(m - 1, v / 2);
      assert (v - Pow2(m - 1)) / 2 == v / 2 - Pow2(m - 2);
    }
  }

  /** The reverse add of jcnt: every bit of jcnt is added at its own place. What is left
      of jcnt is what does not fit in j bits. */
  method ReverseAdd(j: nat, code0: nat, jcnt0: nat) returns (code: nat, jcnt: nat)
    requires code0 < Pow2(j)
    ensures code < Pow2(j)
    ensures Msb(j, code) == Low(j, Msb(j, code0) + jcnt0)
    ensures jcnt == 0 <==> jcnt0 < Pow2(j)
  {
    hide Low, Msb, Bit, Shr, AddAt;
    code, jcnt := code0, jcnt0;
    LowSmall(j, Msb(j, code0));
    var k := 0;
    LowZero(jcnt0);
    while k < j
      invariant 0 <= k <= j && code < Pow2(j)
      invariant jcnt == jcnt0 - Low(k, jcnt0)
      invariant Msb(j, code) == Low(j, Msb(j, code0) + Low(k, jcnt0))
    {
      LowTop(k + 1, jcnt0);
      BitOfRest(k, jcnt0);
      if Bit(k, jcnt) != 0 {
        AddAtAdds(j, k, code);
        LowAdd(j, Msb(j, code0) + Low(k, jcnt0), Pow2(k));
        code := AddBit(j, k, code);
        jcnt := jcnt - Pow2(k);
      }
      k := k + 1;
    }
    LowAdd(j, jcnt0, Msb(j, code0));
    LowSmall(j, jcnt0);
  }

  lemma BitOfRest(k: nat, x: nat)
    ensures Bit(k, x - Low(k, x)) == Bit(k, x)
  {
    Split(k, x);
    Join(k, 0, Shr(k, x));
  }

  /** n single increments of a j-bit code. */
  function IncTimes(j: nat, c: nat, n: nat): (r: nat)
    requires c < Pow2(j)
    ensures r < Pow2(j)
  {
    if n == 0 then c else Inc(j, IncTimes(j, c, n - 1))
  }

  lemma {:induction false} IncTimesAdds(j: nat, c: nat, n: nat)
    requires c < Pow2(j)
    ensures Msb(j, IncTimes(j, c, n)) == Low(j, Msb(j, c) + n)
  {
    hide Low, Msb, Inc, Pow2;
    if n == 0 {
      LowSmall(j, Msb(j, c));
    } else {
      var prev, count := IncTimes(j, c, n - 1), Msb(j, c) + n - 1;
      IncTimesAdds(j, c, n - 1);
      IncIsSuccessor(j, prev);
      LowAdd(j, count, 1);
    }
  }

  /** A j-bit code is determined by what it counts, so adding in bulk and stepping one
      code at a time end at the same place. */
  lemma BulkAddIsStepping(j: nat, c: nat, n: nat, code: nat)
    requires c < Pow2(j) && code < Pow2(j)
    ensures Msb(j, code) == Low(j, Msb(j, c) + n) <==> code == IncTimes(j, c, n)
  {
    IncTimesAdds(j, c, n);
    MsbInjective(j, code, IncTimes(j, c, n));
    LowSmall(j, code);
    LowSmall(j, IncTimes(j, c, n));
  }
}
