/** The 64-bit bit buffer of the inflater: bytes are fetched four at a time, the low
    `bits` bits of `val` are the next bits of the stream. */
module BitReader {
  import opened Bits
  import opened Words

  /** The whole stream as one number, first bit lowest. */
  function StreamValue(data: seq<byte>): nat
  {
    if |data| == 0 then 0 else data[0] + 256 * StreamValue(data[1..])
  }

  /** What is left of the stream after pos bits. */
  function Rest(data: seq<byte>, pos: nat): nat
  {
    Shr(pos, StreamValue(data))
  }

  lemma {:induction false} ByteAt(data: seq<byte>, i: nat)
    requires i < |data|
    ensures Rest(data, 8 * i) == data[i] + 256 * Rest(data, 8 * (i + 1))
  {
    if i == 0 {
      var r := StreamValue(data[1..]);
      ShrEight(0, StreamValue(data));
      assert StreamValue(data) / 256 == r by { assert (data[0] + 256 * r) / 256 == r; }
    } else {
      ByteAt(data[1..], i - 1);
      DropByte(data, i);
      DropByte(data, i + 1);
    }
  }

  lemma DropByte(data: seq<byte>, i: nat)
    requires 1 <= i && |data| >= 1
    ensures Rest(data, 8 * i) == Rest(data[1..], 8 * (i - 1))
  {
    var r := StreamValue(data[1..]);
    ShrShr(8, 8 * (i - 1), StreamValue(data));
    ShrEight(0, StreamValue(data));
    assert (data[0] + 256 * r) / 256 == r;
  }

  lemma ShrEight(n: nat, v: nat)
    ensures Shr(n + 8, v) == Shr(n, v) / 256
  {
    ShrShr(n, 8, v);
    Arithmetic(8, Shr(n, v));
    assert Pow2(8) == 256;
  }

  /** The four bytes at i, as the little-endian word that is fetched. */
  function Word(data: seq<byte>, i: nat): (w: nat)
    requires i + 4 <= |data|
    ensures w < Pow2(32)
  {
    TwoTo32();
    var b0: nat, b1: nat, b2: nat, b3: nat := data[i], data[i + 1], data[i + 2], data[i + 3];
    b0 + 256 * b1 + 65536 * b2 + 16777216 * b3
  }

  lemma TwoTo32()
    ensures Pow2(32) == 4294967296
  {
    var eight, n := 8, 16;
    assert Pow2(eight) == 256 by { assert Pow2(8) == 256; }
    Pow2Add(eight, eight);
    Pow2Add(n, n);
  }

  lemma ByteLow(data: seq<byte>, i: nat)
    requires i < |data|
    ensures Low(8, Rest(data, 8 * i)) == data[i]
  {
    ByteAt(data, i);
    assert Pow2(8) == 256;
    ShlIsMul(8, Rest(data, 8 * (i + 1)));
    Join(8, data[i], Rest(data, 8 * (i + 1)));
  }

  lemma WordAt(data: seq<byte>, i: nat)
    requires i + 4 <= |data|
    ensures Low(32, Rest(data, 8 * i)) == Word(data, i)
  {
    ByteAt(data, i);
    ByteAt(data, i + 1);
    ByteAt(data, i + 2);
    ByteAt(data, i + 3);
    var hi := Rest(data, 8 * (i + 4));
    assert Rest(data, 8 * i) == Word(data, i) + 4294967296 * hi;
    TwoTo32();
    ShlIsMul(32, hi);
    Join(32, Word(data, i), hi);
  }

  /** The first byte boundary from pos on, as section 3.2.4 of RFC 1951 wants it. */
  function Boundary(pos: nat): (b: nat)
    ensures pos <= b < pos + 8 && b % 8 == 0
  {
    (pos + 7) / 8 * 8
  }

  lemma BoundaryAt(pin: nat, bits: nat)
    requires 0 < bits <= 8 && bits <= 8 * pin
    ensures 8 * pin == 8 * ((8 * pin - bits) / 8 + 1)
    ensures 8 * pin == Boundary(8 * pin - bits) <==> (8 * pin - bits) % 8 != 0
  {}

  /** The bytes from a up to the next multiple of four. */
  function Padding(a: nat): nat { (4 - a % 4) % 4 }

  lemma PaddingIs(a: nat)
    ensures a % 4 == 0 <==> Padding(a) == 0
    ensures Padding(a) < 4 && (a % 4 != 0 ==> Padding(a) == 1 + Padding(a + 1))
  {}

  /** The bit behind the last whole word of the input, which starts at `address`. */
  function Reach(address: nat, size: nat): int { 8 * (size - (address + size) % 4) }

  /** A fetch at bit pos finds too little left. */
  predicate Missed(address: nat, size: nat, pos: int) { pos + 15 > Reach(address, size) }

  lemma ReachFrom(address: nat, size: nat, pin: nat)
    requires pin <= size && (address + pin) % 4 == 0
    ensures 8 * pin <= Reach(address, size)
    ensures size - pin < 4 <==> 8 * pin == Reach(address, size)
    ensures size - pin >= 4 ==> 8 * (pin + 4) <= Reach(address, size)
  {}

  class Reader {
    const data: seq<byte>
    const address: nat // of the first byte
    var pin: nat
    var val: nat
    var bits: nat

    /** val holds the next bits of the stream. */
    ghost predicate Loose()
      reads this
    {
      && pin <= |data| && bits <= 8 * pin && bits <= 46
      && val == Low(bits, Rest(data, Position()))
    }

    /** And the input pointer is aligned. */
    ghost predicate Valid()
      reads this
    {
      Loose() && (address + pin) % 4 == 0
    }

    /** The number of bits of the stream consumed so far. */
    ghost function Position(): nat
      reads this
    {
      if bits <= 8 * pin then 8 * pin - bits else 0
    }

    constructor (data: seq<byte>, address: nat, start: nat)
      requires start <= |data|
      ensures this.data == data && this.address == address
      ensures Loose() && Position() == 8 * start && bits == 0
    {
      this.data, this.address, pin, val, bits := data, address, start, 0, 0;
    }

    /** Take bytes one at a time until the input pointer is a multiple of four. The loop does not
        look at the end of the input: `over` tells that it reads past it. */
    method Align() returns (over: bool)
      requires Loose() && bits == 0
      modifies this
      ensures over <==> Padding(address + old(pin)) > |data| - old(pin)
      ensures Loose() && Position() == old(Position()) && bits <= 24
      ensures !over ==> Valid()
    {
      hide Shl, Shr, Low, StreamValue, Pow2, Padding;
      PaddingIs(address + pin);
      ghost var pos, pad := Position(), Padding(address + pin);
      while (address + pin) % 4 != 0
        invariant Loose() && Position() == pos
        invariant bits == 8 * (pin - old(pin)) && Padding(address + pin) + (pin - old(pin)) == pad
        decreases Padding(address + pin)
      {
        PaddingIs(address + pin);
        if pin == |data| {
          return true;
        }
        ByteLow(data, pin);
        ShrShr(pos, bits, StreamValue(data));
        LowExtend(bits, 8, Rest(data, pos));
        val := val + Shl(bits, data[pin]);
        bits := bits + 8;
        pin := pin + 1;
      }
      PaddingIs(address + pin);
      over := false;
    }

    /** Make at least 15 bits available, unless less than a word is left. That depends only on the
        position and on where the words of the input lie. */
    method Fetch() returns (ok: bool)
      requires Valid()
      modifies this
      ensures Valid() && Position() == old(Position())
      ensures ok <==> !Missed(address, |data|, Position())
      ensures ok ==> bits >= 15
    {
      hide Reach, Shl, Shr, Low, StreamValue, Word;
      ReachFrom(address, |data|, pin);
      if bits >= 15 {
        return true;
      }
      if |data| - pin < 4 {
        return false;
      }
      ghost var pos := Position();
      var next := Word(data, pin);
      WordAt(data, pin);
      ShrShr(pos, bits, StreamValue(data));
      LowExtend(bits, 32, Rest(data, pos));
      val := val + Shl(bits, next);
      bits := bits + 32;
      pin := pin + 4;
      ok := true;
    }

    /** Consume n bits. */
    method Drop(n: nat)
      requires Valid() && n <= bits
      modifies this
      ensures Valid() && Position() == old(Position()) + n && bits == old(bits) - n
    {
      ShrShr(Position(), n, StreamValue(data));
      LowLow(n, bits, Rest(data, Position()));
      val := Shr(n, val);
      bits := bits - n;
    }

    /** Give back the bytes read ahead before a stored block, when some bits are held. The reader
        then stands at the next byte boundary if and only if it was not on one already: from a
        boundary it skips a byte of the stream. */
    method Rewind()
      requires Valid() && bits > 0
      modifies this
      ensures Loose() && bits == 0 && Position() == 8 * (old(Position()) / 8 + 1)
      ensures Position() == Boundary(old(Position())) <==> old(Position()) % 8 != 0
    {
      hide Boundary, Low, Rest;
      while bits > 8
        invariant pin <= |data| && bits <= 8 * pin && 8 * pin - bits == old(Position())
        invariant 0 < bits <= old(bits)
      {
        pin := pin - 1;
        bits := bits - 8;
      }
      BoundaryAt(pin, bits);
      val, bits := 0, 0;
      LowZero(Rest(data, Position()));
    }

    /** Move over whole bytes while no bits are held. */
    method Skip(n: nat)
      requires Loose() && bits == 0 && pin + n <= |data|
      modifies this
      ensures Loose() && bits == 0 && Position() == old(Position()) + 8 * n
    {
      LowZero(Rest(data, 8 * (pin + n)));
      pin := pin + n;
    }
  }
}
