/** Inputs on which the inflater does something that one might not expect. */
module StreamExamples {
  import opened Bits
  import opened Canonical
  import opened HuffmanTable
  import opened SecondaryDemand
  import opened Words
  import opened BitReader
  import opened DeflateSpec
  import opened Inflate
  import opened DynamicBlock
  import opened BitWriter
  import opened HeaderWriter
  import opened StoredBlock
  import opened FixedTables
  import opened DeflateStream
  import opened Zlib
  import Adler32

  // ----- reading concrete bits

  /** The next n bits, when the rest of the stream is known. */
  lemma Take(data: seq<byte>, pos: nat, n: nat, k: nat, x: nat, w: nat)
    requires k == Pow2(n) && x < k && Rest(data, pos) == x + k * w
    ensures Low(n, Rest(data, pos)) == x && Rest(data, pos + n) == w
  {
    hide Low, Shr, Shl, Pow2, StreamValue;
    ShlIsMul(n, w);
    Join(n, x, w);
    ShrShr(pos, n, StreamValue(data));
  }

  lemma ValueFrom(data: seq<byte>, k: nat)
    requires k < |data|
    ensures StreamValue(data[k..]) == data[k] + 256 * StreamValue(data[k + 1..])
  {
    assert data[k..][1..] == data[k + 1..];
  }

  lemma RestAt0(data: seq<byte>)
    ensures Rest(data, 0) == StreamValue(data) && data[0..] == data && StreamValue([]) == 0
  {}

  /** Among symbols with codes of one bit, the first has 0 and the second 1. */
  lemma OneBit(lens: seq<nat>, s: nat, v: nat)
    requires s < |lens| && lens[s] == 1
    ensures Matches(lens, s, v) <==> v % 2 == Count(lens[..s], 1)
  {
    hide Count;
    assert Msb(1, v) == 2 * Msb(0, v) + Bit(0, v);
    assert FirstCode(lens, 1) == 0;
  }

  // ----- an empty dynamic block: 257 literal codes, of which only the end has one bit

  lemma {:induction false} CodeLengthAt(data: seq<byte>, pos: nat, n: nat, i: nat)
    requires i < n <= 19
    ensures CodeLengthCode(data, pos, n)[Order(i)] == Low(3, Rest(data, pos + 3 * i))
  {
    hide Low, Rest;
    if i < n - 1 { CodeLengthAt(data, pos, n - 1, i); }
  }

  /** The bits of the code length code: one for 18 (repeat zero) and for 1. */
  lemma CodeLengthBits(data: seq<byte>, t: nat, i: nat)
    requires i < 19 && Rest(data, 33) == 7968851576454264127552 + 75557863725914323419136 * t
    ensures Low(3, Rest(data, 33 + 3 * i)) == (if i == 2 || i == 17 then 1 else 0)
    ensures Rest(data, 90) == 55295 + 524288 * t
  {
    hide Low, Rest, Pow2;
    Eight();
    Take(data, 33, 3, 8, 0, 996106447056783015944 + 9444732965739290427392 * t);
    Take(data, 36, 3, 8, 0, 124513305882097876993 + 1180591620717411303424 * t);
    Take(data, 39, 3, 8, 1, 15564163235262234624 + 147573952589676412928 * t);
    Take(data, 42, 3, 8, 0, 1945520404407779328 + 18446744073709551616 * t);
    Take(data, 45, 3, 8, 0, 243190050550972416 + 2305843009213693952 * t);
    Take(data, 48, 3, 8, 0, 30398756318871552 + 288230376151711744 * t);
    Take(data, 51, 3, 8, 0, 3799844539858944 + 36028797018963968 * t);
    Take(data, 54, 3, 8, 0, 474980567482368 + 4503599627370496 * t);
    Take(data, 57, 3, 8, 0, 59372570935296 + 562949953421312 * t);
    Take(data, 60, 3, 8, 0, 7421571366912 + 70368744177664 * t);
    Take(data, 63, 3, 8, 0, 927696420864 + 8796093022208 * t);
    Take(data, 66, 3, 8, 0, 115962052608 + 1099511627776 * t);
    Take(data, 69, 3, 8, 0, 14495256576 + 137438953472 * t);
    Take(data, 72, 3, 8, 0, 1811907072 + 17179869184 * t);
    Take(data, 75, 3, 8, 0, 226488384 + 2147483648 * t);
    Take(data, 78, 3, 8, 0, 28311048 + 268435456 * t);
    Take(data, 81, 3, 8, 0, 3538881 + 33554432 * t);
    Take(data, 84, 3, 8, 1, 442360 + 4194304 * t);
    Take(data, 87, 3, 8, 0, 55295 + 524288 * t);
  }

  lemma Eight()
    ensures Pow2(3) == 8
  {}

  // ----- lengths that are mostly zero

  lemma {:induction false} MoreZeros(lens: seq<nat>, n: nat)
    ensures KraftSum(Repeated(lens, 0, n)) == KraftSum(lens) && Count(Repeated(lens, 0, n), 1) == Count(lens, 1)
  {
    if n == 0 {
      assert Repeated(lens, 0, 0) == lens;
    } else {
      MoreZeros(lens, n - 1);
      var r := Repeated(lens, 0, n);
      assert r[..|r| - 1] == Repeated(lens, 0, n - 1);
    }
  }

  lemma OneMore(lens: seq<nat>)
    ensures KraftSum(lens + [1]) == KraftSum(lens) + 16384 && Count(lens + [1], 1) == Count(lens, 1) + 1
  {
    assert (lens + [1])[..|lens|] == lens;
    Powers();
    assert Pow2(14) == 2 * Pow2(13);
  }

  lemma Nothing()
    ensures KraftSum([]) == 0 && Count([], 1) == 0 && Pow2(MAX_LENGTH) == 32768
  {
    Weights();
  }

  /** The code length code: one bit for 1 and for 18. */
  function Cl(): seq<nat> { Repeated(Repeated([], 0, 1) + [1], 0, 16) + [1] }

  lemma ClCode()
    ensures |Cl()| == 19 && Valid(Cl()) && forall k :: 0 <= k < 19 ==> Cl()[k] == (if k == 1 || k == 18 then 1 else 0)
    ensures Count(Cl()[..18], 1) == 1 && Count(Cl()[..1], 1) == 0
  {
    hide KraftSum, Count, Pow2;
    var a := Repeated([], 0, 1);
    var b := Repeated(a + [1], 0, 16);
    Nothing();
    MoreZeros([], 1);
    OneMore(a);
    MoreZeros(a + [1], 16);
    OneMore(b);
    assert Cl()[..18] == b && Cl()[..1] == a;
  }

  /** 256 zeros and a one: only the end of the block has a code. */
  function EndOnly(): seq<nat> { Repeated(Repeated([], 0, 138), 0, 118) + [1] }

  lemma EndOnlyCode()
    ensures |EndOnly()| == 257 && Valid(EndOnly()) && EndOnly()[256] == 1 && Count(EndOnly()[..256], 1) == 0
    ensures Valid([1]) && forall k :: 0 <= k < 257 ==> EndOnly()[k] <= 1
  {
    hide KraftSum, Count, Pow2;
    var a := Repeated([], 0, 138);
    var b := Repeated(a, 0, 118);
    Nothing();
    MoreZeros([], 138);
    MoreZeros(a, 118);
    OneMore(b);
    OneMore([]);
    assert [] + [1] == [1];
    assert EndOnly()[..256] == b;
  }

  // ----- the block, bit by bit

  lemma CodeLengths(data: seq<byte>, t: nat)
    requires Rest(data, 33) == 7968851576454264127552 + 75557863725914323419136 * t
    ensures CodeLengthCode(data, 33, 19) == Cl()
  {
    hide Low, Rest, Order, CodeLengthCode, Cl;
    ClCode();
    forall k: nat | k < 19
      ensures CodeLengthCode(data, 33, 19)[k] == Cl()[k]
    {
      OrderIsOutward(Place(k));
      CodeLengthAt(data, 33, 19, Place(k));
      CodeLengthBits(data, t, Place(k));
      OrderIsOutward(Place(1));
      OrderIsOutward(Place(18));
    }
  }

  lemma Bits7()
    ensures Pow2(1) == 2 && Pow2(4) == 16 && Pow2(5) == 32 && Pow2(7) == 128
  {}

  lemma SizesOf(data: seq<byte>, t: nat)
    requires Rest(data, 19) == 130561664228626663465827328 + 1237940039285380274899124224 * t
    ensures ReadSizes(data, 19) == Sizes(257, 1, 19) &&
            Rest(data, 33) == 7968851576454264127552 + 75557863725914323419136 * t
  {
    hide Low, Rest, Pow2;
    Bits7();
    Take(data, 19, 5, 32, 0, 4080052007144583233307104 + 38685626227668133590597632 * t);
    Take(data, 24, 5, 32, 0, 127501625223268226040847 + 1208925819614629174706176 * t);
    Take(data, 29, 4, 16, 15, 7968851576454264127552 + 75557863725914323419136 * t);
  }

  /** A run of zeros: symbol 18 and seven bits. */
  lemma ZeroRun(data: seq<byte>, pos: nat, lens: seq<nat>, x: nat)
    requires |lens| + 11 + x <= 258 && pos + 8 <= 8 * |data| && Rest(data, pos) % 2 == 1 &&
             Low(7, Rest(data, pos + 1)) == x
    ensures ReadStep(Cl(), data, pos, 258, lens) == Lengths(pos + 8, Repeated(lens, 0, 11 + x))
  {
    hide Low, Rest, Valid, Count, ReadSymbol, Cl, Matches, Repeated;
    ClCode();
    OneBit(Cl(), 18, Rest(data, pos));
    SymbolIs(Cl(), data, pos, 18);
  }

  /** A code of one bit: symbol 1. */
  lemma OneLength(data: seq<byte>, pos: nat, lens: seq<nat>)
    requires |lens| < 258 && pos + 1 <= 8 * |data| && Rest(data, pos) % 2 == 0
    ensures ReadStep(Cl(), data, pos, 258, lens) == Lengths(pos + 1, lens + [1])
  {
    hide Low, Rest, Valid, Count, ReadSymbol, Cl, Matches, Repeated;
    ClCode();
    OneBit(Cl(), 1, Rest(data, pos));
    SymbolIs(Cl(), data, pos, 1);
  }

  lemma EndOnlyIs()
    ensures var a := Repeated([], 0, 138);
            var b := Repeated(a, 0, 118);
            |a| == 138 && |b| == 256 && EndOnly() == b + [1] && |EndOnly()| == 257
  {}

  /** The symbols that say how long the codes are. */
  lemma LengthsOf(data: seq<byte>, t: nat)
    requires |data| >= 14 && Rest(data, 90) == 55295 + 524288 * t
    ensures ReadLengths(Cl(), data, 90, 258, []) == Lengths(108, EndOnly() + [1])
    ensures Rest(data, 108) == 2 * t
  {
    hide Low, Rest, Pow2, Valid, Count, ReadSymbol, Cl, Matches, ReadStep, ReadLengths, Repeated, EndOnly;
    EndOnlyIs();
    var a := Repeated([], 0, 138);
    var b := Repeated(a, 0, 118);
    LengthSymbols(data, t);
    ZeroRun(data, 90, [], 127);
    ZeroRun(data, 98, a, 107);
    OneLength(data, 106, b);
    OneLength(data, 107, EndOnly());
    FourSteps(data, a, b);
  }

  lemma LengthSymbols(data: seq<byte>, t: nat)
    requires Rest(data, 90) == 55295 + 524288 * t
    ensures Rest(data, 90) % 2 == 1 && Low(7, Rest(data, 91)) == 127
    ensures Rest(data, 98) % 2 == 1 && Low(7, Rest(data, 99)) == 107
    ensures Rest(data, 106) % 2 == 0 && Rest(data, 107) % 2 == 0 && Rest(data, 108) == 2 * t
  {
    hide Low, Rest, Pow2;
    ZeroRunBits(data, 90, 127, 215 + 2048 * t);
    ZeroRunBits(data, 98, 107, 8 * t);
    Bits7();
    Take(data, 106, 1, 2, 0, 4 * t);
    Take(data, 107, 1, 2, 0, 2 * t);
  }

  lemma ZeroRunBits(data: seq<byte>, pos: nat, x: nat, w: nat)
    requires x < 128 && Rest(data, pos) == 1 + 2 * (x + 128 * w)
    ensures Rest(data, pos) % 2 == 1 && Low(7, Rest(data, pos + 1)) == x && Rest(data, pos + 8) == w
  {
    hide Low, Rest, Pow2;
    Bits7();
    Take(data, pos, 1, 2, 1, x + 128 * w);
    Take(data, pos + 1, 7, 128, x, w);
  }

  lemma FourSteps(data: seq<byte>, a: seq<nat>, b: seq<nat>)
    requires |a| == 138 && |b| == 256 && |EndOnly()| == 257
    requires ReadStep(Cl(), data, 90, 258, []) == Lengths(98, a)
    requires ReadStep(Cl(), data, 98, 258, a) == Lengths(106, b)
    requires ReadStep(Cl(), data, 106, 258, b) == Lengths(107, EndOnly())
    requires ReadStep(Cl(), data, 107, 258, EndOnly()) == Lengths(108, EndOnly() + [1])
    ensures ReadLengths(Cl(), data, 90, 258, []) == Lengths(108, EndOnly() + [1])
  {
    hide ReadStep, Cl, EndOnly;
    assert ReadLengths(Cl(), data, 108, 258, EndOnly() + [1]) == Lengths(108, EndOnly() + [1]);
    assert ReadLengths(Cl(), data, 107, 258, EndOnly()) == Lengths(108, EndOnly() + [1]);
    assert ReadLengths(Cl(), data, 106, 258, b) == Lengths(108, EndOnly() + [1]);
    assert ReadLengths(Cl(), data, 98, 258, a) == Lengths(108, EndOnly() + [1]);
  }

  /** The block from bit 19 to bit 109 puts out nothing; its end code has one bit. */
  lemma EmptyBlock(data: seq<byte>, size: nat, out: seq<byte>, t: nat)
    requires |data| >= 14 && Rest(data, 19) == 130561664228626663465827328 + 1237940039285380274899124224 * t
    ensures Dynamic(data, size, 19, out) == BlockEnd(109, out) && Rest(data, 109) == t
    ensures HeaderEndBits(data, 19) == 1 && !GreedyHeader(data, 19)
  {
    hide Low, Rest, Pow2, Valid, ReadSymbol, ReadLengths, CodeLengthCode, Cl, EndOnly, Count, Demand, Matches,
         ReadMatch;
    SizesOf(data, t);
    CodeLengths(data, t);
    CodeLengthBits(data, t, 0);
    LengthsOf(data, t);
    var lens := EndOnly() + [1];
    EndOnlyCode();
    assert Header(data, 19) == Lengths(108, lens);
    assert lens[..257] == EndOnly() && lens[257..] == [1];
    Bits7();
    Take(data, 108, 1, 2, 0, t);
    OneBit(EndOnly(), 256, Rest(data, 108));
    SymbolIs(EndOnly(), data, 108, 256);
    NoLongNoDemand(EndOnly(), 256);
    NoLongNoDemand([1], 256);
  }

  // ----- a zlib stream that is refused

  /** The empty block in a zlib stream of no bytes, with its checksum. */
  const SHORT: seq<byte> := [120, 1, 5, 224, 129, 0, 0, 0, 0, 0, 16, 252, 95, 3, 0, 0, 0, 1]

  lemma ShortHalf()
    ensures StreamValue(SHORT[9..]) == 18446744088204808192
  {
    hide StreamValue;
    var data := SHORT;
    RestAt0(data);
    assert data[18..] == [];
    ValueFrom(data, 17);
    assert StreamValue(data[17..]) == 1;
    ValueFrom(data, 16);
    assert StreamValue(data[16..]) == 256;
    ValueFrom(data, 15);
    assert StreamValue(data[15..]) == 65536;
    ValueFrom(data, 14);
    assert StreamValue(data[14..]) == 16777216;
    ValueFrom(data, 13);
    assert StreamValue(data[13..]) == 4294967299;
    ValueFrom(data, 12);
    assert StreamValue(data[12..]) == 1099511628639;
    ValueFrom(data, 11);
    assert StreamValue(data[11..]) == 281474976931836;
    ValueFrom(data, 10);
    assert StreamValue(data[10..]) == 72057594094550032;
    ValueFrom(data, 9);
    assert StreamValue(data[9..]) == 18446744088204808192;
  }

  lemma ShortValue()
    ensures Rest(SHORT, 0) == 87112286000212160461722115637704340603256
  {
    hide StreamValue;
    var data := SHORT;
    RestAt0(data);
    ShortHalf();
    ValueFrom(data, 8);
    assert StreamValue(data[8..]) == 4722366486580430897152;
    ValueFrom(data, 7);
    assert StreamValue(data[7..]) == 1208925820564590309670912;
    ValueFrom(data, 6);
    assert StreamValue(data[6..]) == 309485010064535119275753472;
    ValueFrom(data, 5);
    assert StreamValue(data[5..]) == 79228162576520990534592888832;
    ValueFrom(data, 4);
    assert StreamValue(data[4..]) == 20282409619589373576855779541121;
    ValueFrom(data, 3);
    assert StreamValue(data[3..]) == 5192296862614879635675079562527200;
    ValueFrom(data, 2);
    assert StreamValue(data[2..]) == 1329227996829409186732820368006963205;
    ValueFrom(data, 1);
    assert StreamValue(data[1..]) == 340282367188328751803602014209782580481;
    ValueFrom(data, 0);
    assert StreamValue(data[0..]) == 87112286000212160461722115637704340603256;
  }

  /** In memory at an address like 1 it ends in the way that is refused, though nothing is wrong with
      it: header, block and checksum are right. */
  lemma ShortEndExists()
    ensures FourBehind(SHORT, 0) && Body(SHORT, 0) == BlockEnd(109, []) && ShortEnd(1, SHORT, 0)
    ensures SHORT[14..] == Adler32.CheckBytes([]) && !BodyFate(1, SHORT, 0).greedy
  {
    hide Low, Rest, Pow2, Dynamic, HeaderEndBits, GreedyHeader, Block;
    ShortValue();
    Small();
    Take(SHORT, 0, 8, 256, 120, 340282367188328751803602014209782580481);
    Take(SHORT, 8, 8, 256, 1, 1329227996829409186732820368006963205);
    Take(SHORT, 16, 3, 8, 5, 166153499603676148341602546000870400);
    EmptyBlock(SHORT, 0, [], 134217728);
    NoSums();
  }

  lemma Small()
    ensures Pow2(3) == 8 && Pow2(8) == 256
  {}

  lemma NoSums()
    ensures Adler32.CheckBytes([]) == [0, 0, 0, 1]
  {}

  // ----- a stored block that is read from the wrong byte

  /** The empty block, then a stored block of one byte whose header ends on a byte boundary. */
  const ALIGNED: seq<byte> := [120, 1, 4, 224, 129, 0, 0, 0, 0, 0, 16, 252, 95, 35, 1, 0, 254, 255, 7]

  lemma AlignedHalf()
    ensures StreamValue(ALIGNED[9..]) == 37778787749020531691520
  {
    hide StreamValue;
    var data := ALIGNED;
    RestAt0(data);
    assert data[19..] == [];
    ValueFrom(data, 18);
    assert StreamValue(data[18..]) == 7;
    ValueFrom(data, 17);
    assert StreamValue(data[17..]) == 2047;
    ValueFrom(data, 16);
    assert StreamValue(data[16..]) == 524286;
    ValueFrom(data, 15);
    assert StreamValue(data[15..]) == 134217216;
    ValueFrom(data, 14);
    assert StreamValue(data[14..]) == 34359607297;
    ValueFrom(data, 13);
    assert StreamValue(data[13..]) == 8796059468067;
    ValueFrom(data, 12);
    assert StreamValue(data[12..]) == 2251791223825247;
    ValueFrom(data, 11);
    assert StreamValue(data[11..]) == 576458553299263484;
    ValueFrom(data, 10);
    assert StreamValue(data[10..]) == 147573389644611451920;
    ValueFrom(data, 9);
    assert StreamValue(data[9..]) == 37778787749020531691520;
  }

  lemma AlignedValue()
    ensures Rest(ALIGNED, 0) == 178405281029420929135025598730204008560198008
  {
    hide StreamValue;
    var data := ALIGNED;
    RestAt0(data);
    AlignedHalf();
    ValueFrom(data, 8);
    assert StreamValue(data[8..]) == 9671369663749256113029120;
    ValueFrom(data, 7);
    assert StreamValue(data[7..]) == 2475870633919809564935454720;
    ValueFrom(data, 6);
    assert StreamValue(data[6..]) == 633822882283471248623476408320;
    ValueFrom(data, 5);
    assert StreamValue(data[5..]) == 162258657864568639647609960529920;
    ValueFrom(data, 4);
    assert StreamValue(data[4..]) == 41538216413329571749788149895659649;
    ValueFrom(data, 3);
    assert StreamValue(data[3..]) == 10633783401812370367945766373288870368;
    ValueFrom(data, 2);
    assert StreamValue(data[2..]) == 2722248550863966814194116191561950814212;
    ValueFrom(data, 1);
    assert StreamValue(data[1..]) == 696895629021175504433693745039859408438273;
    ValueFrom(data, 0);
    assert StreamValue(data[0..]) == 178405281029420929135025598730204008560198008;
  }

  /** The first block leaves both rules at bit 109, in front of the last block. */
  lemma FirstBlock(rule: Rule)
    ensures Stream(rule, ALIGNED, 1, 16, []) == Stream(rule, ALIGNED, 1, 109, [])
    ensures ReadBits(ALIGNED, 109, 3) == Got(1, 112)
  {
    hide Low, Rest, Pow2, Dynamic, Block, StoredEnd;
    var data := ALIGNED;
    AlignedValue();
    Small();
    Take(data, 0, 8, 256, 120, 696895629021175504433693745039859408438273);
    Take(data, 8, 8, 256, 1, 2722248550863966814194116191561950814212);
    Take(data, 16, 3, 8, 4, 340281068857995851774264523945243851776);
    EmptyBlock(data, 1, [], 274876858377);
    Take(data, 109, 3, 8, 1, 34359607297);
    assert OneBlock(rule, data, 1, 2, 19, []) == BlockEnd(109, []);
  }

  lemma LastBlock(rule: Rule)
    ensures Stream(rule, ALIGNED, 1, 109, []) == StoredEnd(rule, ALIGNED, 1, 112, [])
  {
    hide Dynamic, Block, StoredEnd, ReadBits;
    FirstBlock(rule);
    assert OneBlock(rule, ALIGNED, 1, 0, 112, []) == StoredEnd(rule, ALIGNED, 1, 112, []);
  }

  /** The standard reads one byte from it; the code refuses it. */
  lemma AlignedDiffers()
    ensures Stream(Standard, ALIGNED, 1, 16, []) == BlockEnd(152, [7])
    ensures Stream(AsCoded, ALIGNED, 1, 16, []) == Reject
  {
    hide Stream, StoredEnd, ReadBits;
    FirstBlock(Standard);
    FirstBlock(AsCoded);
    LastBlock(Standard);
    LastBlock(AsCoded);
    StoredAt14();
    StoredAt15();
  }

  lemma StoredAt14()
    ensures StoredEnd(Standard, ALIGNED, 1, 112, []) == BlockEnd(152, [7])
  {
    var data := ALIGNED;
    assert Half(data, 14) == 1 && Half(data, 16) == 0xfffe;
    hide Half;
    assert BlockAt(data, 14) == Bytes(18, 1);
    hide BlockAt;
    assert data[18..19] == [7];
  }

  lemma StoredAt15()
    ensures StoredEnd(AsCoded, ALIGNED, 1, 112, []) == Reject
  {
    var data := ALIGNED;
    assert Half(data, 15) + Half(data, 17) != 0xffff;
    hide Half;
  }

  // ----- re-aligning that leaves the input

  /** An empty stored block at the very end of the input. */
  const ENDING: seq<byte> := [120, 1, 1, 0, 0, 255, 255]

  lemma EndingHalf()
    ensures StreamValue(ENDING[3..]) == 4294901760
  {
    hide StreamValue;
    var data := ENDING;
    RestAt0(data);
    assert data[7..] == [];
    ValueFrom(data, 6);
    assert StreamValue(data[6..]) == 255;
    ValueFrom(data, 5);
    assert StreamValue(data[5..]) == 65535;
    ValueFrom(data, 4);
    assert StreamValue(data[4..]) == 16776960;
    ValueFrom(data, 3);
    assert StreamValue(data[3..]) == 4294901760;
  }

  lemma EndingValue()
    ensures Rest(ENDING, 0) == 72056494526366072
  {
    hide StreamValue;
    var data := ENDING;
    RestAt0(data);
    EndingHalf();
    ValueFrom(data, 2);
    assert StreamValue(data[2..]) == 1099494850561;
    ValueFrom(data, 1);
    assert StreamValue(data[1..]) == 281470681743617;
    ValueFrom(data, 0);
    assert StreamValue(data[0..]) == 72056494526366072;
  }

  /** Its re-alignment reads one byte past the input, and nothing is wrong with it. */
  lemma OverrunExists()
    ensures Single(ENDING, 0) && Body(ENDING, 0) == BlockEnd(56, [])
    ensures var f := BodyFate(0, ENDING, 0);
            f.over && !f.lost && !Missed(0, |ENDING|, f.fetch) && !f.greedy && !f.cut
  {
    hide Low, Rest, Pow2, Dynamic, Block, HeaderEndBits, GreedyHeader;
    EndingValue();
    Small();
    Take(ENDING, 0, 8, 256, 120, 281470681743617);
    Take(ENDING, 8, 8, 256, 1, 1099494850561);
    Take(ENDING, 16, 3, 8, 1, 137436856320);
    assert ENDING[7..7] == [];
  }

  /** So inflating it succeeds, and has read past the input. */
  method InflateEnding(tlit: array<nat>, tdist: array<nat>, out: array<byte>)
    returns (ok: bool, over: bool)
    requires tlit.Length == TABLE_SIZE && tdist.Length == TABLE_SIZE && tlit != tdist
    requires tlit as object != out && tdist as object != out && out.Length == 0
    modifies tlit, tdist, out
    ensures ok && over
  {
    hide Single, Body, BodyFate, Missed;
    OverrunExists();
    BodyEnds(0, ENDING, 0);
    ok, over := Zlib.Inflate(ENDING, tlit, tdist, out, 0);
  }
}
