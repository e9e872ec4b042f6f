/** The LZMA range decoder of elf.c, in 32-bit arithmetic, and the integers read with it. */
module Lzma {
  import opened Bits
  import opened Words
  import opened RangeCoder

  // ----- integers as decisions in a binary tree

  /** The tree node reached by these bits; the root is 1. */
  function Node(bits: seq<bool>): (sym: nat)
    ensures Pow2(|bits|) <= sym < Pow2(|bits| + 1)
  {
    if |bits| == 0 then 1
    else 2 * Node(bits[..|bits| - 1]) + (if bits[|bits| - 1] then 1 else 0)
  }

  /** The bits of an integer of n bits are predicted by the 2^n probabilities from base. */
  function Tree(base: nat, n: nat): Contexts
  {
    bits => if |bits| < n then base + Node(bits) else base
  }

  lemma TreeIn(base: nat, n: nat, count: nat)
    requires base + Pow2(n) <= count
    ensures ContextsIn(Tree(base, n), count)
  {
    forall bits: seq<bool> ensures Tree(base, n)(bits) < count {
      if |bits| < n { Pow2Mono(|bits| + 1, n); }
    }
  }

  /** Most significant bit first, and least significant bit first. */
  function Number(bits: seq<bool>): (v: nat)
    ensures v < Pow2(|bits|)
  {
    if |bits| == 0 then 0
    else 2 * Number(bits[..|bits| - 1]) + (if bits[|bits| - 1] then 1 else 0)
  }

  function Reversed(bits: seq<bool>): (v: nat)
    ensures v < Pow2(|bits|)
  {
    if |bits| == 0 then 0
    else Reversed(bits[..|bits| - 1]) + (if bits[|bits| - 1] then Pow2(|bits| - 1) else 0)
  }

  lemma {:induction false} NodeIsNumber(bits: seq<bool>)
    ensures Node(bits) == Pow2(|bits|) + Number(bits)
  {
    if |bits| > 0 { NodeIsNumber(bits[..|bits| - 1]); }
  }

  /** Each node has a probability of its own, by its depth and the number read so far; the root has the
      first behind base. */
  lemma TreeContexts(base: nat, n: nat, a: seq<bool>, b: seq<bool>)
    requires |a| < n && |b| < n
    ensures Tree(base, n)(a) == base + Pow2(|a|) + Number(a)
    ensures Tree(base, n)(a) == Tree(base, n)(b) ==> a == b
    ensures Tree(base, n)([]) == base + 1
  {
    NodeIsNumber(a);
    if Node(a) == Node(b) { NodesApart(a, b); }
  }

  lemma {:induction false} NodesApart(a: seq<bool>, b: seq<bool>)
    requires Node(a) == Node(b)
    ensures a == b
  {
    if |a| > 0 && |b| > 0 {
      NodesApart(a[..|a| - 1], b[..|b| - 1]);
    }
  }

  /** The two integers are each other's bit reversal. */
  lemma {:induction false} ReversedIsMirror(bits: seq<bool>)
    ensures Msb(|bits|, Reversed(bits)) == Number(bits)
  {
    if |bits| > 0 {
      var n, rest := |bits| - 1, bits[..|bits| - 1];
      var top := if bits[n] then 1 else 0;
      ReversedIsMirror(rest);
      Join(n, Reversed(rest), top);
      ShlIsMul(n, top);
      LowSmall(n, Reversed(rest));
      MsbLow(n, n, Reversed(bits));
      assert Bit(n, Reversed(bits)) == top;
    }
  }

  /** The n bits of v, most significant first. */
  function Spelled(v: nat, n: nat): (bits: seq<bool>)
    ensures |bits| == n
  {
    if n == 0 then [] else Spelled(v / 2, n - 1) + [v % 2 == 1]
  }

  lemma {:induction false} SpelledNumber(v: nat, n: nat)
    requires v < Pow2(n)
    ensures Number(Spelled(v, n)) == v
  {
    if n > 0 {
      SpelledNumber(v / 2, n - 1);
      assert Spelled(v, n)[..n - 1] == Spelled(v / 2, n - 1);
    }
  }

  /** Every integer of n bits can be sent, from any range and probabilities, and is read back. */
  lemma IntegerRoundTrip(range: nat, probs: seq<nat>, base: nat, n: nat, v: nat)
    requires 0x1_0000 <= range < TWO32 && GoodProbs(probs) && base + Pow2(n) <= |probs| && v < Pow2(n)
    ensures ContextsIn(Tree(base, n), |probs|)
    ensures var iv := Coded(Interval(0, range, 0, probs), Tree(base, n), Spelled(v, n));
            var c := Coder(0, range, Head(iv.low, iv.bytes), probs);
            Ready(c) && Number(Run(Digits(iv.low, iv.bytes), c, Tree(base, n), n).0) == v
  {
    hide Run, Coded, Head, Number, Spelled, Tree;
    TreeIn(base, n, |probs|);
    RoundTrip(range, probs, Tree(base, n), Spelled(v, n),
      Coded(Interval(0, range, 0, probs), Tree(base, n), Spelled(v, n)).low);
    SpelledNumber(v, n);
  }

  // ----- direct bits

  /** One direct bit of a normalized decoder, in 32-bit arithmetic: halve the range, subtract, and
      add back if that went below zero. */
  function Direct(range: nat, code: nat): (r: (nat, nat, nat))
    requires range < TWO32 && code < TWO32
  {
    var half := range / 2;
    var less := (code - half) % TWO32;
    var mask := if less >= TWO32 / 2 then TWO32 - 1 else 0;
    (half, (less + (if mask == 0 then 0 else half)) % TWO32, (mask + 1) % TWO32)
  }

  /** The direct bit tells the half the code lies in, but the code stays below the range if and
      only if it was not the last number of an odd range. */
  lemma DirectKeepsIff(range: nat, code: nat)
    requires code < range < TWO32
    ensures var (half, rest, bit) := Direct(range, code);
            && bit == (if code >= half then 1 else 0) && rest + bit * half == code
            && (rest < half <==> !(range % 2 == 1 && code == range - 1))
  {
    var half := range / 2;
    if code < half {
      assert (code - half) % TWO32 == code - half + TWO32;
      assert (code - half + TWO32 + half) % TWO32 == code;
    }
  }

  /** After any message that leaves an odd range with no need to widen it, some stream makes the
      next direct bit break the code's bound. */
  lemma DirectBreaksAfter(range: nat, probs: seq<nat>, ctx: Contexts, bits: seq<bool>)
    returns (data: seq<byte>, c: Coder)
    requires 0x1_0000 <= range < TWO32 && GoodProbs(probs) && ContextsIn(ctx, |probs|)
    requires Coded(Interval(0, range, 0, probs), ctx, bits).range % 2 == 1
    requires Coded(Interval(0, range, 0, probs), ctx, bits).range >= TOP
    ensures Ready(c) && c.range == range && c.probs == probs && Run(data, c, ctx, |bits|).0 == bits
    ensures var d := Run(data, c, ctx, |bits|).1;
            TOP <= d.range < TWO32 && d.code < TWO32 && Direct(d.range, d.code).1 == Direct(d.range, d.code).0
  {
    hide Run, Coded, Head, Direct, GoodProbs, ContextsIn, Digits;
    var iv := Coded(Interval(0, range, 0, probs), ctx, bits);
    var v := iv.low + iv.range - 1;
    RoundTrip(range, probs, ctx, bits, v);
    data, c := Digits(v, iv.bytes), Coder(0, range, Head(v, iv.bytes), probs);
    DirectIsLast(iv.range);
  }

  lemma DirectIsLast(range: nat)
    requires range % 2 == 1 && 0 < range < TWO32
    ensures Direct(range, range - 1).1 == Direct(range, range - 1).0
  {
    DirectKeepsIff(range, range - 1);
  }

  /** Such a run from a reset: the range code ff ff ff fe and one bit. */
  lemma DirectCanBreak()
    ensures var data: seq<byte> := [0, 0xff, 0xff, 0xff, 0xfe];
            var c := Coder(5, FULL, Value(data, Coder(1, FULL, 0, []), 4), [HALF]);
            && Ready(c) && ContextsIn((_: seq<bool>) => 0, 1)
            && var d := Run(data, c, (_: seq<bool>) => 0, 1).1;
               d.range >= TOP && Direct(d.range, d.code).1 == Direct(d.range, d.code).0
  {
    var data: seq<byte> := [0, 0xff, 0xff, 0xff, 0xfe];
    FourBytes(data, 0);
    var c := Coder(5, FULL, Value(data, Coder(1, FULL, 0, []), 4), [HALF]);
    assert c.code == FULL - 1;
    hide Value, Direct;
    var ctx: Contexts := (_: seq<bool>) => 0;
    var (bits, d) := Run(data, c, ctx, 1);
    assert Run(data, c, ctx, 0) == ([], c);
    assert d == Next(data, c, 0);
    assert d.range == 0x8000_03ff && d.code == d.range - 1;
    DirectIsLast(d.range);
  }

  /** A run from a reset with its numbers: in the range code 41 90 ab 00 the first two bits of one context are
      zeros, the first from a half of the range and the second from 1056 / 2048 of what is left. */
  lemma FirstTwoBits()
    ensures var data: seq<byte> := [0, 0x41, 0x90, 0xab, 0x00];
            var c := Coder(5, 0xffff_ffff, Value(data, Coder(1, FULL, 0, []), 4), [1024]);
            && Ready(c) && ContextsIn((_: seq<bool>) => 0, 1)
            && Run(data, c, (_: seq<bool>) => 0, 1) == ([false], Coder(5, 0x7fff_fc00, 1100000000, [1056]))
            && Run(data, c, (_: seq<bool>) => 0, 2) == ([false, false], Coder(5, 1107295200, 1100000000, [1087]))
  {
    var data: seq<byte> := [0, 0x41, 0x90, 0xab, 0x00];
    FourBytes(data, 0);
    var c := Coder(5, 0xffff_ffff, Value(data, Coder(1, FULL, 0, []), 4), [1024]);
    assert c.code == 1100000000;
    hide Value;
    var ctx: Contexts := (_: seq<bool>) => 0;
    assert Run(data, c, ctx, 0) == ([], c);
    var d := Next(data, c, 0);
    assert d == Coder(5, 0x7fff_fc00, 1100000000, [1056]) && !BitOf(data, c, 0);
    assert [] + [false] == [false];
    assert Run(data, c, ctx, 1) == ([false], d);
    assert Next(data, d, 0) == Coder(5, 1107295200, 1100000000, [1087]) && !BitOf(data, d, 0);
    assert [false] + [false] == [false, false];
  }

  /** A bit for which the range must be widened first, and one that needs no byte. */
  lemma WidenedBit()
    ensures Normalized([0x56], Coder(0, 0x80_0000, 0x1234, [1024])) == Coder(1, 0x8000_0000, 0x12_3456, [1024])
    ensures Normalized([0x56], Coder(0, 0x100_0000, 0x1234, [1024])) == Coder(0, 0x100_0000, 0x1234, [1024])
    ensures Next([0x56], Coder(0, 0x80_0000, 0x1234, [1024]), 0) == Coder(1, 0x4000_0000, 0x12_3456, [1056])
    ensures Next([0x56], Coder(0, 0x80_0000, 0x40_0000, [1024]), 0) == Coder(1, 0x4000_0000, 0x56, [992])
  {}

  // ----- the decoder

  /** What is left of x in 32 bits. */
  function Word(x: int): (r: nat)
    ensures 0 <= x < TWO32 ==> r == x
  {
    x % TWO32
  }

  function BigEndian(a: nat, b: nat, c: nat, d: nat): nat
  {
    a * 0x100_0000 + b * 0x1_0000 + c * 0x100 + d
  }

  predicate AllOnes(data: seq<byte>, at: nat)
    requires at + 4 <= |data|
  {
    data[at] == 0xff && data[at + 1] == 0xff && data[at + 2] == 0xff && data[at + 3] == 0xff
  }

  class Decoder {
    const data: seq<byte>
    const probs: array<nat>
    var off: nat
    var range: nat
    var code: nat

    constructor (data: seq<byte>, count: nat)
      ensures this.data == data && fresh(probs) && probs.Length == count
    {
      this.data := data;
      probs := new nat[count];
      off, range, code := 0, 0, 0;
    }

    ghost function State(): Coder
      reads this, probs
    {
      Coder(off, range, code, probs[..])
    }

    /** The state reset and the read of the range code at the head of a chunk. */
    method Restart(start: nat) returns (ok: bool)
      modifies this, probs
      ensures ok <==> start + 5 <= |data|
      ensures forall i :: 0 <= i < probs.Length ==> probs[i] == HALF
      ensures ok ==> off == start + 5 && range == FULL
      ensures ok ==> Value(data, Coder(start + 1, FULL, 0, []), 4) == code
      ensures ok ==> (Ready(State()) <==> !AllOnes(data, start + 1))
    {
      var i := 0;
      while i < probs.Length
        invariant 0 <= i <= probs.Length
        invariant forall j :: 0 <= j < i ==> probs[j] == HALF
      {
        probs[i] := HALF;
        i := i + 1;
      }
      range, code := FULL, 0;
      if start + 5 > |data| {
        return false;
      }
      code := Word(BigEndian(data[start + 1], data[start + 2], data[start + 3], data[start + 4]));
      off := start + 5;
      FourBytes(data, start);
      return true;
    }

    method Normalize()
      requires Sound(State())
      modifies this
      ensures State() == Normalized(data, old(State())) && Sound(State())
    {
      NormalizedSound(data, State());
      if range < TOP {
        if off >= |data| {
          return;
        }
        range := Word(range * 256);
        code := Word(code * 256);
        code := Word(code + data[off]);
        off := off + 1;
      }
    }

    /** elf_lzma_bit: no 32-bit operation wraps, and no 16-bit probability. */
    method ReadBit(k: nat) returns (bit: bool)
      requires Sound(State()) && k < probs.Length
      modifies this, probs
      ensures bit == BitOf(data, old(State()), k)
      ensures State() == Next(data, old(State()), k)
    {
      hide GoodProbs, Bound, Adapt, Word;
      ProbAt(probs[..], k);
      Normalize();
      ProbAt(probs[..], k);
      var bound := Word(Bound(range, probs[k]));
      ghost var before := probs[..];
      bit := code >= bound;
      AdaptWraps(probs[k]);
      if code < bound {
        range := bound;
        probs[k] := (probs[k] + (2048 - probs[k]) / 32) % 0x1_0000;
      } else {
        range := Word(range - bound);
        code := Word(code - bound);
        probs[k] := probs[k] - probs[k] / 32;
      }
      assert probs[..] == before[k := probs[k]];
    }

    /** elf_lzma_integer. */
    method ReadInteger(base: nat, n: nat) returns (v: nat)
      requires Sound(State()) && n <= 30 && base + Pow2(n) <= probs.Length
      modifies this, probs
      ensures ContextsIn(Tree(base, n), probs.Length)
      ensures var (bits, end) := Run(data, old(State()), Tree(base, n), n);
              State() == end && v == Number(bits)
    {
      hide Sound, BitOf, Next, Pow2;
      TreeIn(base, n, probs.Length);
      var sym, i := 1, 0;
      ghost var start, bits := State(), [];
      while i < n
        invariant 0 <= i <= n && Sound(State())
        invariant (bits, State()) == Run(data, start, Tree(base, n), i)
        invariant sym == Node(bits)
      {
        assert Tree(base, n)(bits) == base + sym;
        var bit := ReadBit(base + sym);
        sym := 2 * sym;
        sym := sym + if bit then 1 else 0;
        bits := bits + [bit];
        i := i + 1;
      }
      NodeIsNumber(bits);
      v := sym - Pow2(n);
    }

    /** elf_lzma_reverse_integer. */
    method ReadReversed(base: nat, n: nat) returns (v: nat)
      requires Sound(State()) && n <= 30 && base + Pow2(n) <= probs.Length
      modifies this, probs
      ensures ContextsIn(Tree(base, n), probs.Length)
      ensures var (bits, end) := Run(data, old(State()), Tree(base, n), n);
              State() == end && v == Reversed(bits)
    {
      hide Sound, BitOf, Next, Pow2;
      TreeIn(base, n, probs.Length);
      var sym, i := 1, 0;
      v := 0;
      ghost var start, bits := State(), [];
      while i < n
        invariant 0 <= i <= n && Sound(State())
        invariant (bits, State()) == Run(data, start, Tree(base, n), i)
        invariant sym == Node(bits) && v == Reversed(bits)
      {
        assert Tree(base, n)(bits) == base + sym;
        var bit := ReadBit(base + sym);
        sym := 2 * sym;
        sym := sym + if bit then 1 else 0;
        v := v + if bit then Pow2(i) else 0;
        bits := bits + [bit];
        i := i + 1;
      }
    }
  }

  lemma ProbAt(probs: seq<nat>, k: nat)
    requires GoodProbs(probs) && k < |probs|
    ensures 31 <= probs[k] <= 2017
  {}

  lemma AdaptWraps(prob: nat)
    requires 31 <= prob <= 2017
    ensures (prob + (2048 - prob) / 32) % 0x1_0000 == Adapt(prob, false) && prob - prob / 32 == Adapt(prob, true)
  {}

  lemma FourBytes(data: seq<byte>, start: nat)
    requires start + 5 <= |data|
    ensures var v := BigEndian(data[start + 1], data[start + 2], data[start + 3], data[start + 4]);
            && v < TWO32 && v == Value(data, Coder(start + 1, FULL, 0, []), 4)
            && (v < FULL <==> !AllOnes(data, start + 1))
  {
    var c := Coder(start + 1, FULL, 0, []);
    var d1: nat, d2: nat, d3: nat := data[start + 1], data[start + 2], data[start + 3];
    assert Value(data, c, 1) == d1;
    assert Value(data, c, 2) == d1 * 256 + d2;
    assert Value(data, c, 3) == (d1 * 256 + d2) * 256 + d3;
  }
}
