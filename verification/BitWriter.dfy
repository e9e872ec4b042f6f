/** Writing to a stream of bits: which bits a stream holds, numbers with the lowest bit first and Huffman
    codes with the highest bit first (section 3.1.1 of RFC 1951). What is written is read back. */
module BitWriter {
  import opened Bits
  import opened Words
  import opened Canonical
  import opened BitReader
  import opened DeflateSpec

  /** Bit i of the stream: bytes in order, each from its lowest bit. */
  function BitAt(data: seq<byte>, i: nat): nat
    requires i < 8 * |data|
  {
    data[i / 8] / Pow2(i % 8) % 2
  }

  /** The stream holds these bits at pos. */
  ghost predicate Holds(data: seq<byte>, pos: nat, bits: seq<nat>)
  {
    pos + |bits| <= 8 * |data| && forall i :: 0 <= i < |bits| ==> BitAt(data, pos + i) == bits[i]
  }

  lemma HoldsParts(data: seq<byte>, pos: nat, a: seq<nat>, b: seq<nat>)
    requires Holds(data, pos, a + b)
    ensures Holds(data, pos, a) && Holds(data, pos + |a|, b)
  {
    hide BitAt;
    forall i | 0 <= i < |a|
      ensures BitAt(data, pos + i) == a[i]
    {
      assert (a + b)[i] == a[i];
    }
    forall i | 0 <= i < |b|
      ensures BitAt(data, pos + |a| + i) == b[i]
    {
      assert (a + b)[|a| + i] == b[i];
    }
  }

  lemma HoldsJoin(data: seq<byte>, pos: nat, a: seq<nat>, b: seq<nat>)
    requires Holds(data, pos, a) && Holds(data, pos + |a|, b)
    ensures Holds(data, pos, a + b)
  {
    hide BitAt;
    forall i | 0 <= i < |a + b|
      ensures BitAt(data, pos + i) == (a + b)[i]
    {
      if i >= |a| { assert BitAt(data, pos + |a| + (i - |a|)) == b[i - |a|]; }
    }
  }

  predicate Binary(bits: seq<nat>) { forall i :: 0 <= i < |bits| ==> bits[i] <= 1 }

  /** The lowest n bits of x, lowest first. */
  function LowBits(n: nat, x: nat): (bits: seq<nat>)
    ensures |bits| == n && Binary(bits)
  {
    if n == 0 then [] else [x % 2] + LowBits(n - 1, x / 2)
  }

  /** The lowest n bits of c, highest first. */
  function HighBits(n: nat, c: nat): (bits: seq<nat>)
    ensures |bits| == n && Binary(bits)
  {
    if n == 0 then [] else HighBits(n - 1, c / 2) + [c % 2]
  }

  /** The code of symbol s. */
  function CodeBits(lens: seq<nat>, s: nat): (bits: seq<nat>)
    requires s < |lens|
    ensures |bits| == lens[s] && Binary(bits)
  {
    HighBits(lens[s], CodeOf(lens, s))
  }

  // ----- reading back

  /** The reader's view of a bit. */
  lemma BitRead(data: seq<byte>, pos: nat)
    requires pos < 8 * |data|
    ensures Rest(data, pos) % 2 == BitAt(data, pos) && Rest(data, pos + 1) == Rest(data, pos) / 2
  {
    var i, r := pos / 8, pos % 8;
    ByteLow(data, i);
    hide Rest;
    var v := Rest(data, 8 * i);
    RestFrom(data, 8 * i, r);
    RestFrom(data, pos, 1);
    BitLow(r, 8, v);
    Arithmetic(r, data[i]);
    assert Shr(1, Rest(data, pos)) == Shr(0, Rest(data, pos) / 2);
  }

  lemma RestFrom(data: seq<byte>, pos: nat, n: nat)
    ensures Rest(data, pos + n) == Shr(n, Rest(data, pos))
  {
    ShrShr(pos, n, StreamValue(data));
  }

  lemma {:induction false} LowBack(data: seq<byte>, pos: nat, n: nat, x: nat)
    requires x < Pow2(n) && Holds(data, pos, LowBits(n, x))
    ensures Low(n, Rest(data, pos)) == x
    decreases n
  {
    hide BitAt, Rest;
    if n > 0 {
      HoldsParts(data, pos, [x % 2], LowBits(n - 1, x / 2));
      BitRead(data, pos);
      LowBack(data, pos + 1, n - 1, x / 2);
      assert [x % 2][0] == BitAt(data, pos + 0);
    }
  }

  lemma {:induction false} HighBack(data: seq<byte>, pos: nat, n: nat, c: nat)
    requires c < Pow2(n) && Holds(data, pos, HighBits(n, c))
    ensures Msb(n, Rest(data, pos)) == c
    decreases n
  {
    hide BitAt, Rest;
    if n > 0 {
      HoldsParts(data, pos, HighBits(n - 1, c / 2), [c % 2]);
      HighBack(data, pos, n - 1, c / 2);
      BitRead(data, pos + n - 1);
      RestFrom(data, pos, n - 1);
      assert [c % 2][0] == BitAt(data, pos + (n - 1) + 0);
    }
  }

  /** A number is read back. */
  lemma NumberBack(data: seq<byte>, pos: nat, n: nat, x: nat)
    requires x < Pow2(n) && Holds(data, pos, LowBits(n, x))
    ensures ReadBits(data, pos, n) == Got(x, pos + n)
  {
    LowBack(data, pos, n, x);
  }

  /** A symbol whose code comes next is read. */
  lemma SymbolIs(lens: seq<nat>, data: seq<byte>, pos: nat, s: nat)
    requires Valid(lens) && Matches(lens, s, Rest(data, pos)) && pos + lens[s] <= 8 * |data|
    ensures ReadSymbol(lens, data, pos) == Got(s, pos + lens[s])
  {
    hide Valid, Rest, Low, Msb, CodeOf;
    var t: nat :| Matches(lens, t, Rest(data, pos)) && ReadSymbol(lens, data, pos) ==
                    (if pos + lens[t] <= 8 * |data| then Got(t, pos + lens[t]) else EndOfInput);
    MatchUnique(lens, s, t, Rest(data, pos));
  }

  /** A symbol that has a code is read back. */
  lemma SymbolBack(lens: seq<nat>, data: seq<byte>, pos: nat, s: nat)
    requires Valid(lens) && s < |lens| && lens[s] > 0 && Holds(data, pos, CodeBits(lens, s))
    ensures ReadSymbol(lens, data, pos) == Got(s, pos + lens[s])
  {
    hide Rest, Msb, FirstCode, Count, KraftSum;
    RoomAt(lens, lens[s]);
    RankBelowCount(lens, s);
    HighBack(data, pos, lens[s], CodeOf(lens, s));
    SymbolIs(lens, data, pos, s);
  }
}
