/** Right inputs that the inflater refuses because a bounds check is cut to 32 bits. */
module CutExamples {
  import opened Bits
  import opened Words
  import opened Canonical
  import opened BitReader
  import opened BitWriter
  import opened HuffmanTable
  import opened DeflateSpec
  import Lz77
  import opened Inflate
  import opened StoredBlock
  import opened DynamicBlock
  import opened FixedTables
  import opened DeflateStream
  import opened Zlib
  import Adler32
  import Examples = StreamExamples

  // ----- zeros in full stored blocks

  function Zeros(n: nat): (r: seq<byte>)
    ensures |r| == n && forall i :: 0 <= i < n ==> r[i] == 0
  {
    seq(n, _ => 0)
  }

  lemma MoreZeros(out: seq<byte>, m: nat, n: nat)
    ensures out + Zeros(m) + Zeros(n) == out + Zeros(m + n)
  {}

  /** A stored block of 65535 zeros, marked as the last or not. */
  function FullBlock(last: bool): (r: seq<byte>)
    ensures |r| == 65540
  {
    [if last then 1 else 0, 255, 255, 0, 0] + Zeros(65535)
  }

  function Blocks(k: nat): (r: seq<byte>)
    ensures |r| == 65540 * k
  {
    if k == 0 then [] else FullBlock(k == 1) + Blocks(k - 1)
  }

  /** The zlib stream of k such blocks. */
  function ZeroFile(k: nat): (r: seq<byte>)
    ensures |r| == 65540 * k + 6
  {
    [120, 1] + Blocks(k) + Adler32.CheckBytes(Zeros(65535 * k))
  }

  /** The data from byte p on holds k blocks and the four bytes of the checksum. */
  ghost predicate BlocksAt(data: seq<byte>, p: nat, k: nat)
  {
    |data| == p + 65540 * k + 4 && data[p..p + 65540 * k] == Blocks(k)
  }

  lemma FirstOf(data: seq<byte>, p: nat, k: nat)
    requires BlocksAt(data, p, k) && k >= 1
    ensures data[p..p + 65540] == FullBlock(k == 1)
    ensures BlocksAt(data, p + 65540, k - 1)
  {
    var b := data[p..p + 65540 * k];
    assert b[..65540] == FullBlock(k == 1);
    assert b[65540..] == Blocks(k - 1);
    assert data[p..p + 65540] == b[..65540];
    assert data[p + 65540..p + 65540 * k] == b[65540..];
  }

  lemma BlockHere(data: seq<byte>, p: nat, last: bool)
    requires p + 65540 <= |data| && data[p..p + 65540] == FullBlock(last)
    ensures ReadBits(data, 8 * p, 3) == Got(if last then 1 else 0, 8 * p + 3)
    ensures BlockAt(data, p + 1) == Bytes(p + 5, 65535) && data[p + 5..p + 65540] == Zeros(65535)
  {
    hide Rest, Low, Zeros;
    var b := FullBlock(last);
    assert data[p] == b[0] && data[p + 1] == b[1] && data[p + 2] == b[2] && data[p + 3] == b[3] && data[p + 4] == b[4];
    assert data[p + 5..p + 65540] == b[5..] == Zeros(65535);
    ByteAt(data, p);
    SmallByte(data[p], Rest(data, 8 * (p + 1)));
  }

  lemma SmallByte(x: nat, w: nat)
    requires x <= 1
    ensures Low(3, x + 256 * w) == x
  {
    assert Pow2(3) == 8;
    hide Low, Pow2, Shl;
    ShlIsMul(3, 32 * w);
    Join(3, x, 32 * w);
  }

  /** One block, by either rule. */
  lemma OneFull(rule: Rule, data: seq<byte>, size: nat, p: nat, out: seq<byte>, last: bool)
    requires p + 65540 <= |data| && data[p..p + 65540] == FullBlock(last) && |out| + 65535 <= size
    ensures OneBlock(rule, data, size, 0, 8 * p + 3, out) == BlockEnd(8 * (p + 65540), out + Zeros(65535))
  {
    hide Block, Dynamic, BlockAt, FullBlock, Zeros;
    BlockHere(data, p, last);
    assert StoredByte(rule, 8 * p + 3) == p + 1;
  }

  lemma {:induction false} ZeroStream(rule: Rule, data: seq<byte>, size: nat, p: nat, out: seq<byte>, k: nat)
    requires BlocksAt(data, p, k) && k >= 1 && |out| + 65535 * k <= size
    ensures Stream(rule, data, size, 8 * p, out) == BlockEnd(8 * (p + 65540 * k), out + Zeros(65535 * k))
    decreases k
  {
    hide OneBlock, ReadBits, BlockAt, Blocks, BlocksAt, FullBlock, Zeros;
    BlocksFit(data, p, k);
    FirstOf(data, p, k);
    BlockHere(data, p, k == 1);
    OneFull(rule, data, size, p, out, k == 1);
    if k > 1 {
      ZeroStream(rule, data, size, p + 65540, out + Zeros(65535), k - 1);
      MoreZeros(out, 65535, 65535 * (k - 1));
    }
  }

  lemma BlocksFit(data: seq<byte>, p: nat, k: nat)
    requires BlocksAt(data, p, k)
    ensures |data| == p + 65540 * k + 4
  {}

  /** With 65533 blocks or more to come, the room left in the input passes 4 GiB by less than a
      block, now or later; with fewer no check is cut. */
  lemma {:induction false} ZeroFate(address: nat, data: seq<byte>, size: nat, p: nat, out: seq<byte>, k: nat)
    requires BlocksAt(data, p, k) && k >= 1 && |out| + 65535 * k == size
    ensures var f := FateOf(address, data, size, 8 * p, out);
            f.kind == 0 && !f.greedy && (f.cut <==> k >= 65533)
    decreases k
  {
    hide OneBlock, OneCut, ReadBits, Past, BlockFetch, EndCode, GreedyHeader, Blocks, BlocksAt, FullBlock, Zeros;
    BlocksFit(data, p, k);
    FirstOf(data, p, k);
    BlockHere(data, p, k == 1);
    OneFull(AsCoded, data, size, p, out, k == 1);
    FirstCut(data, size, p, out, k);
    if k > 1 {
      ZeroFate(address, data, size, p + 65540, out + Zeros(65535), k - 1);
    }
  }

  lemma FirstCut(data: seq<byte>, size: nat, p: nat, out: seq<byte>, k: nat)
    requires |data| == p + 65540 * k + 4 && k >= 1 && |out| + 65535 * k == size
    requires BlockAt(data, p + 1) == Bytes(p + 5, 65535)
    ensures OneCut(data, size, 0, 8 * p + 3, out) <==> (65540 * k - 1) % TWO32 < 65535 || 65535 * k % TWO32 < 65535
    ensures k < 65533 ==> !OneCut(data, size, 0, 8 * p + 3, out)
    ensures k == 65533 ==> OneCut(data, size, 0, 8 * p + 3, out)
  {
    hide BlockAt;
    assert StoredByte(AsCoded, 8 * p + 3) == p + 1;
  }

  /** A file of k full blocks of zeros is right by the standard and exactly fills its output, and
      the one thing that can refuse it is a check that is cut: it is if and only if there are 65533
      blocks or more, although 65533 blocks have less than 4 GiB of output. */
  lemma ZeroFileCut(address: nat, k: nat)
    requires k >= 1
    ensures var data, size := ZeroFile(k), 65535 * k;
            && FourBehind(data, size) && Stream(Standard, data, size, 16, []) == Body(data, size)
            && Body(data, size).out == Zeros(size) && data[|data| - 4..] == Adler32.CheckBytes(Zeros(size))
            && !ShortEnd(address, data, size)
            && var f := BodyFate(address, data, size); !f.greedy && (f.cut <==> k >= 65533)
  {
    hide FateOf, Stream, Blocks, Zeros, Adler32.CheckBytes;
    var data, size := ZeroFile(k), 65535 * k;
    assert data[2..2 + 65540 * k] == Blocks(k);
    ZeroStream(Standard, data, size, 2, [], k);
    ZeroStream(AsCoded, data, size, 2, [], k);
    assert [] + Zeros(size) == Zeros(size);
    ZeroFate(address, data, size, 2, [], k);
  }

  /** So the code refuses such files from 65533 blocks on. */
  method InflateZeroFile(k: nat, tlit: array<nat>, tdist: array<nat>,
                         out: array<byte>, address: nat)
    returns (ok: bool)
    requires tlit.Length == TABLE_SIZE && tdist.Length == TABLE_SIZE && tlit != tdist
    requires tlit as object != out && tdist as object != out
    requires k >= 1 && out.Length == 65535 * k
    modifies tlit, tdist, out
    ensures ok <==> k < 65533
  {
    hide FourBehind, Single, Body, BodyFate, ShortEnd, ZeroFile, Zeros, Adler32.CheckBytes;
    ZeroFileCut(address, k);
    var over;
    ok, over := InflateAndVerify(ZeroFile(k), tlit, tdist, out, address);
  }

  // ----- one match

  /** Codes for three symbols: 0 for the literal 0, 10 for the end of the block, and 11 for a match of
      length 3. */
  function ThreeCodes(): seq<nat> { Repeated([1], 0, 255) + [2, 2] }

  lemma {:induction false} CountMoreZeros(lens: seq<nat>, n: nat, l: nat)
    requires l > 0
    ensures Count(Repeated(lens, 0, n), l) == Count(lens, l)
  {
    if n == 0 {
      assert Repeated(lens, 0, 0) == lens;
    } else {
      CountMoreZeros(lens, n - 1, l);
      var r := Repeated(lens, 0, n);
      assert r[..|r| - 1] == Repeated(lens, 0, n - 1);
    }
  }

  lemma ThreeAre()
    ensures var lens := ThreeCodes();
            |lens| == 258 && Valid(lens) && lens[0] == 1 && lens[256] == 2 && lens[257] == 2
    ensures CodeOf(ThreeCodes(), 0) == 0 && CodeOf(ThreeCodes(), 256) == 2 && CodeOf(ThreeCodes(), 257) == 3
    ensures Valid([1]) && CodeOf([1], 0) == 0
  {
    var lens, a := ThreeCodes(), Repeated([1], 0, 255);
    assert lens[..257] == a + [2] && lens[..256] == a && lens[..0] == [];
    assert (a + [2])[..256] == a && lens[..258] == lens;
    Powers();
    Weights();
    assert Pow2(14) == 2 * Pow2(13);
    CountMoreZeros([1], 255, 1);
    CountMoreZeros([1], 255, 2);
    Examples.MoreZeros([1], 255);
    assert [1][..0] == [];
    assert KraftSum([1]) == 16384 && Count([1], 1) == 1 && Count([1], 2) == 0;
    hide Repeated, Pow2;
    assert Count(lens, 1) == Count(lens[..257], 1) == Count(a, 1);
    assert KraftSum(lens) == KraftSum(lens[..257]) + 8192 == KraftSum(a) + 16384;
    assert FirstCode(lens, 2) == 2 * (FirstCode(lens, 1) + Count(lens, 1));
  }

  /** The symbols of the block, and its match. */
  lemma ThreeSymbols(data: seq<byte>)
    requires |data| >= 1 && data[0] == 22
    ensures var lit := ThreeCodes();
            && ReadSymbol(lit, data, 0) == Got(0, 1) && ReadSymbol(lit, data, 1) == Got(257, 3)
            && ReadMatch([1], data, 3, 257) == Match(3, 1, 4) && ReadSymbol(lit, data, 4) == Got(256, 6)
  {
    hide Low, Rest, Pow2, CodeOf, ThreeCodes, Valid, Msb, ReadSymbol, ReadMatch;
    var w := Rest(data, 8);
    ByteAt(data, 0);
    Powers();
    ThreeAre();
    Examples.Take(data, 0, 1, 2, 0, 11 + 128 * w);
    Examples.Take(data, 1, 2, 4, 3, 2 + 32 * w);
    Examples.Take(data, 3, 1, 2, 0, 1 + 16 * w);
    FirstBits(Rest(data, 0));
    FirstBits(Rest(data, 1));
    FirstBits(Rest(data, 3));
    FirstBits(Rest(data, 4));
    SymbolIs(ThreeCodes(), data, 0, 0);
    SymbolIs(ThreeCodes(), data, 1, 257);
    SymbolIs([1], data, 3, 0);
    SymbolIs(ThreeCodes(), data, 4, 256);
    NearMatch(data);
  }

  lemma NearMatch(data: seq<byte>)
    requires |data| >= 1 && ReadSymbol([1], data, 3) == Got(0, 4)
    ensures ReadMatch([1], data, 3, 257) == Match(3, 1, 4)
  {
    hide ReadSymbol, Rest, Low;
    LowZero(Rest(data, 3));
    LowZero(Rest(data, 4));
  }

  lemma FirstBits(v: nat)
    ensures Msb(1, v) == v % 2 && Msb(2, v) == 2 * (v % 2) + v / 2 % 2
  {
    assert Msb(1, v) == 2 * Msb(0, v) + Bit(0, v);
    assert Shr(1, v) == Shr(0, v / 2) == v / 2;
  }

  /** A literal and a match of three bytes are right in any output of four bytes or more, and refused
      if and only if the output is one to three bytes longer than a multiple of 4 GiB. */
  lemma ThreeCut(data: seq<byte>, size: nat)
    requires |data| >= 1 && data[0] == 22 && size >= 4
    ensures Block(ThreeCodes(), [1], data, size, 0, []) == BlockEnd(6, [0, 0, 0, 0])
    ensures Cut(ThreeCodes(), [1], data, size, 0, []) <==> size >= TWO32 && 1 <= size % TWO32 <= 3
  {
    hide ReadSymbol, ReadMatch, ThreeCodes, Block, Cut, Lz77.LzCopy;
    ThreeSymbols(data);
    FourZeros();
    var lit := ThreeCodes();
    assert [] + [0] == [0];
    BlockSymbol(lit, [1], data, size, 0, []);
    BlockMatch(lit, [1], data, size, 1, [0], 257, 3);
    BlockSymbol(lit, [1], data, size, 4, [0, 0, 0, 0]);
  }

  lemma FourZeros()
    ensures Lz77.LzCopy([0], 1, 3) == [0, 0, 0, 0]
  {
    assert Lz77.LzCopy([0, 0, 0], 1, 1) == [0, 0, 0, 0];
  }
}
