/** The reader of DWARF sections: a buffer that remembers running dry, and the variable-length
    numbers of section 7.6 of DWARF 5. */
module Leb128 {
  import opened Bits
  import opened Words

  const TWO63: int := 0x8000_0000_0000_0000

  datatype Read<T> = Short | Got(value: T, next: nat)

  // ----- the numbers of the standard, of any size

  function Unsigned(data: seq<byte>, pos: nat): (r: Read<nat>)
    ensures r.Got? ==> pos < r.next <= |data|
    decreases |data| - pos
  {
    if pos >= |data| then Short
    else if data[pos] < 128 then Got(data[pos], pos + 1)
    else
      var r := Unsigned(data, pos + 1);
      if r.Got? then Got(data[pos] - 128 + 128 * r.value, r.next) else Short
  }

  function Signed(data: seq<byte>, pos: nat): (r: Read<int>)
    ensures r.Got? ==> pos < r.next <= |data|
    decreases |data| - pos
  {
    if pos >= |data| then Short
    else if data[pos] < 64 then Got(data[pos], pos + 1)
    else if data[pos] < 128 then Got(data[pos] as int - 128, pos + 1)
    else
      var r := Signed(data, pos + 1);
      if r.Got? then Got(data[pos] - 128 + 128 * r.value, r.next) else Short
  }

  /** The usual encoders, seven bits at a time. */
  function EncodeUnsigned(v: nat): (r: seq<byte>)
    ensures |r| > 0
  {
    if v < 128 then [v] else [v % 128 + 128] + EncodeUnsigned(v / 128)
  }

  function EncodeSigned(v: int): (r: seq<byte>)
    ensures |r| > 0
    decreases if v < 0 then -v else v
  {
    if -64 <= v < 64 then [v % 128] else [v % 128 + 128] + EncodeSigned(v / 128)
  }

  /** The examples of the standard (tables 7.7 and 7.8). */
  lemma StandardExamples()
    ensures Unsigned([0x02], 0) == Got(2, 1) && Unsigned([0x7f], 0) == Got(127, 1)
    ensures Unsigned([0x80, 0x01], 0) == Got(128, 2) && Unsigned([0xb9, 0x64], 0) == Got(12857, 2)
    ensures Signed([0x02], 0) == Got(2, 1) && Signed([0x7e], 0) == Got(-2, 1)
    ensures Signed([0xff, 0x00], 0) == Got(127, 2) && Signed([0x81, 0x7f], 0) == Got(-127, 2)
    ensures Signed([0x80, 0x01], 0) == Got(128, 2) && Signed([0xff, 0x7e], 0) == Got(-129, 2)
  {}

  /** Anything encoded is read back, wherever it stands. */
  lemma {:induction false} UnsignedRoundTrip(data: seq<byte>, pos: nat, v: nat)
    requires pos + |EncodeUnsigned(v)| <= |data| && data[pos..pos + |EncodeUnsigned(v)|] == EncodeUnsigned(v)
    ensures Unsigned(data, pos) == Got(v, pos + |EncodeUnsigned(v)|)
    decreases v
  {
    var e := EncodeUnsigned(v);
    assert data[pos] == e[0];
    if v >= 128 {
      assert data[pos + 1..pos + |e|] == data[pos..pos + |e|][1..] == e[1..];
      UnsignedRoundTrip(data, pos + 1, v / 128);
    }
  }

  lemma {:induction false} SignedRoundTrip(data: seq<byte>, pos: nat, v: int)
    requires pos + |EncodeSigned(v)| <= |data| && data[pos..pos + |EncodeSigned(v)|] == EncodeSigned(v)
    ensures Signed(data, pos) == Got(v, pos + |EncodeSigned(v)|)
    decreases if v < 0 then -v else v
  {
    var e := EncodeSigned(v);
    assert data[pos] == e[0];
    if !(-64 <= v < 64) {
      assert data[pos + 1..pos + |e|] == data[pos..pos + |e|][1..] == e[1..];
      SignedRoundTrip(data, pos + 1, v / 128);
    }
  }

  // ----- what fits in 64 bits

  /** The number of 64 bits that v leaves, signed. */
  function Wrap64(v: int): (r: int)
    ensures -TWO63 <= r < TWO63 && (r - v) % TWO64 == 0
    ensures -TWO63 <= v < TWO63 ==> r == v
  {
    var u := v % TWO64;
    if u < TWO63 then u else u - TWO64
  }

  lemma Pow64()
    ensures Pow2(64) == TWO64
  {
    assert Pow2(8) == 256;
    Pow2Add(8, 8);
    Pow2Add(16, 16);
    Pow2Add(32, 32);
  }

  lemma {:induction false} ShlSeven(n: nat, v: nat)
    ensures Shl(n, 128 * v) == Shl(n + 7, v)
  {
    if n == 0 {
      assert Shl(1, v) == 2 * v;
      assert Shl(2, v) == 4 * v;
      assert Shl(4, v) == 16 * v;
      assert Shl(6, v) == 64 * v;
    } else {
      ShlSeven(n - 1, v);
    }
  }

  /** Bits from position m on do not reach the low n. */
  lemma {:induction false} LowIgnores(n: nat, m: nat, x: nat, y: nat)
    requires n <= m
    ensures Low(n, x + Shl(m, y)) == Low(n, x)
  {
    if n > 0 {
      LowIgnores(n - 1, m - 1, x / 2, y);
      assert (x + Shl(m, y)) / 2 == x / 2 + Shl(m - 1, y);
    }
  }

  /** Seven more bits above shift. */
  lemma {:induction false} GroupFits(full: nat, shift: nat, b: nat)
    requires full < Pow2(shift) && b < 128
    ensures full + Shl(shift, b) < Pow2(shift + 7)
  {
    if shift == 0 {
      assert Pow2(7) == 128;
    } else {
      GroupFits(full / 2, shift - 1, b);
    }
  }

  /** The number at the start, once its bytes before pos gave full: the rest lies above shift. */
  ghost predicate Partway(data: seq<byte>, start: nat, pos: nat, full: nat, shift: nat)
  {
    && full < Pow2(shift)
    && var whole, rest := Unsigned(data, start), Unsigned(data, pos);
       (rest.Got? <==> whole.Got?) &&
       (rest.Got? ==> whole == Got(full + Shl(shift, rest.value), rest.next))
  }

  lemma PartwayStart(data: seq<byte>, start: nat)
    ensures Partway(data, start, start, 0, 0)
  {}

  lemma PartwayStep(data: seq<byte>, start: nat, pos: nat, full: nat, shift: nat)
    requires Partway(data, start, pos, full, shift) && pos < |data|
    ensures data[pos] >= 128 ==> Partway(data, start, pos + 1, full + Shl(shift, data[pos] % 128), shift + 7)
    ensures data[pos] < 128 ==> Unsigned(data, start) == Got(full + Shl(shift, data[pos] % 128), pos + 1)
    ensures full + Shl(shift, data[pos] % 128) < Pow2(shift + 7)
  {
    hide Pow2, Shl;
    var b := data[pos] % 128;
    GroupFits(full, shift, b);
    var rest := Unsigned(data, pos + 1);
    if data[pos] >= 128 && rest.Got? {
      ShlAdd(shift, b, 128 * rest.value);
      ShlSeven(shift, rest.value);
    }
  }

  /** Adding a group to the 64 bits kept so far, or leaving it out above them. */
  lemma KeptStep(full: nat, shift: nat, b: nat)
    requires full < Pow2(shift)
    ensures shift < 64 ==>
              Low(64, full) == full && Low(64, full + Shl(shift, b)) == Low(64, Low(64, full) + Shl(shift, b))
    ensures shift >= 64 ==> Low(64, full + Shl(shift, b)) == Low(64, full)
  {
    hide Low, Shl, Pow2;
    LowAdd(64, full, Shl(shift, b));
    if shift < 64 {
      Pow2Mono(shift, 64);
      LowSmall(64, full);
    } else {
      LowIgnores(64, shift, full, b);
    }
  }

  // ----- signed numbers are unsigned ones with a last bit that counts down

  lemma {:induction false} SignedIsUnsigned(data: seq<byte>, pos: nat)
    ensures Signed(data, pos).Got? <==> Unsigned(data, pos).Got?
    ensures Signed(data, pos).Got? ==>
              var r := Unsigned(data, pos);
              Signed(data, pos) ==
              Got(r.value - (if data[r.next - 1] >= 64 then Pow2(7 * (r.next - pos)) else 0), r.next)
    decreases |data| - pos
  {
    if pos < |data| {
      assert Pow2(7) == 128;
      if data[pos] >= 128 {
        SignedIsUnsigned(data, pos + 1);
        var r := Unsigned(data, pos + 1);
        if r.Got? { Pow2Add(7, 7 * (r.next - (pos + 1))); }
      }
    }
  }

  /** Filling in the ones above shift, where there is room, gives the signed number in 64 bits. */
  lemma SignExtended(full: nat, shift: nat, minus: bool)
    requires full < Pow2(shift)
    ensures minus && shift < 64 ==> Low(64, full) + (TWO64 - Pow2(shift)) < TWO64
    ensures minus && shift < 64 ==> Wrap64(Low(64, full) + (TWO64 - Pow2(shift))) == Wrap64(full - Pow2(shift))
    ensures minus && shift >= 64 ==> Wrap64(Low(64, full)) == Wrap64(full - Pow2(shift))
    ensures !minus ==> Wrap64(Low(64, full)) == Wrap64(full)
  {
    hide Low, Pow2, Wrap64;
    Pow64();
    Arithmetic(64, full);
    if shift < 64 {
      Pow2Mono(shift, 64);
      LowSmall(64, full);
      WrapSame(full + (TWO64 - Pow2(shift)), full - Pow2(shift), 1);
    } else {
      Pow2Add(64, shift - 64);
      WrapMod(full);
      WrapSame(full, full - Pow2(shift), Pow2(shift - 64));
    }
    WrapMod(full);
  }

  lemma WrapSame(x: int, y: int, k: int)
    requires x - y == TWO64 * k
    ensures Wrap64(x) == Wrap64(y)
  {
    DivModUnique(x, TWO64, y / TWO64 + k, y % TWO64);
  }

  lemma WrapMod(x: nat)
    ensures Wrap64(x % TWO64) == Wrap64(x)
  {}

  // ----- the buffer

  class Buffer {
    const data: seq<byte>
    var pos: nat
    var underflow: bool

    constructor (data: seq<byte>, pos: nat, underflow: bool)
      ensures this.data == data && this.pos == pos && this.underflow == underflow
    {
      this.data, this.pos, this.underflow := data, pos, underflow;
    }

    method Require(count: nat) returns (ok: bool)
      modifies `underflow
      ensures ok <==> pos + count <= |data|
      ensures underflow == (old(underflow) || !ok)
    {
      if pos + count <= |data| { return true; }
      if !underflow { underflow := true; }
      return false;
    }

    method Advance(count: nat) returns (ok: bool)
      modifies this
      ensures ok <==> old(pos) + count <= |data|
      ensures pos == old(pos) + (if ok then count else 0) && underflow == (old(underflow) || !ok)
    {
      ok := Require(count);
      if !ok { return; }
      pos := pos + count;
    }

    method ReadByte() returns (b: byte)
      modifies this
      ensures old(pos) < |data| ==> b == data[old(pos)] && pos == old(pos) + 1 && underflow == old(underflow)
      ensures old(pos) >= |data| ==> b == 0 && pos == old(pos) && underflow
    {
      var p := pos;
      var ok := Advance(1);
      b := if ok then data[p] else 0;
    }

    /** read_uleb128: the number modulo 2^64, or zero and an empty buffer. */
    method ReadUleb128() returns (ret: nat)
      requires pos <= |data|
      modifies this
      ensures var r := Unsigned(data, old(pos));
              if r.Got? then ret == r.value % TWO64 && pos == r.next && underflow == old(underflow)
              else ret == 0 && pos == |data| && underflow
    {
      hide Partway, Shl, Low, Pow2;
      ghost var start: nat, full: nat := pos, 0;
      var shift, more := 0, true;
      ret := 0;
      PartwayStart(data, start);
      LowSmall(64, 0);
      while more
        invariant pos <= |data| && underflow == old(underflow)
        invariant more ==> Partway(data, start, pos, full, shift)
        invariant ret == Low(64, full)
        invariant !more ==> Unsigned(data, start) == Got(full, pos)
        decreases more, |data| - pos
      {
        var p := pos;
        var ok := Advance(1);
        if !ok {
          NoneLeft(data, start, p, full, shift);
          return 0;
        }
        var b := data[p];
        PartwayStep(data, start, p, full, shift);
        PartwaySmall(data, start, p, full, shift);
        KeptStep(full, shift, b % 128);
        if shift < 64 {
          ret := Low(64, ret + Shl(shift, b % 128)); // the new bits lie above ret
        }
        full, shift, more := full + Shl(shift, b % 128), shift + 7, b >= 128;
      }
      Arithmetic(64, full);
      Pow64();
    }

    /** read_sleb128: the number wrapped to a signed 64-bit one, or zero and an empty buffer. */
    method ReadSleb128() returns (ret: int)
      requires pos <= |data|
      modifies this
      ensures var r := Signed(data, old(pos));
              if r.Got? then ret == Wrap64(r.value) && pos == r.next && underflow == old(underflow)
              else ret == 0 && pos == |data| && underflow
    {
      hide Partway, Shl, Low, Pow2, Wrap64, Signed, Unsigned;
      ghost var start: nat, full: nat := pos, 0;
      var shift, more := 0, true;
      var val, b := 0, 0;
      PartwayStart(data, start);
      SignedIsUnsigned(data, start);
      LowSmall(64, 0);
      while more
        invariant start <= pos <= |data| && underflow == old(underflow)
        invariant shift == 7 * (pos - start) && val == Low(64, full) && full < Pow2(shift)
        invariant more ==> Partway(data, start, pos, full, shift)
        invariant !more ==> pos > start && b == data[pos - 1] && Unsigned(data, start) == Got(full, pos)
        decreases more, |data| - pos
      {
        var p := pos;
        var ok := Advance(1);
        if !ok {
          NoneLeft(data, start, p, full, shift);
          return 0;
        }
        b := data[p];
        PartwayStep(data, start, p, full, shift);
        KeptStep(full, shift, b % 128);
        if shift < 64 {
          val := Low(64, val + Shl(shift, b % 128)); // the new bits lie above val
        }
        full, shift, more := full + Shl(shift, b % 128), shift + 7, b >= 128;
      }
      SignExtended(full, shift, b >= 64);
      if b >= 64 && shift < 64 {
        val := val + (TWO64 - Pow2(shift)); // ones above val
      }
      ret := Wrap64(val);
    }
  }

  lemma NoneLeft(data: seq<byte>, start: nat, pos: nat, full: nat, shift: nat)
    requires Partway(data, start, pos, full, shift) && pos >= |data|
    ensures Unsigned(data, start).Short?
  {}

  lemma PartwaySmall(data: seq<byte>, start: nat, pos: nat, full: nat, shift: nat)
    requires Partway(data, start, pos, full, shift)
    ensures full < Pow2(shift)
  {}
}
