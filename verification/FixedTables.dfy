/** The fixed codes, their table generator, and the constant tables that it wrote, elf_zlib_default_table
    and elf_zlib_default_dist_table, against section 3.2.6 of RFC 1951. */
module FixedTables {
  import opened Bits
  import opened Canonical
  import opened HuffmanTable
  import opened HuffmanBuilder
  import opened SecondaryDemand
  import opened Words
  import opened DeflateSpec
  import opened Inflate

  // ----- the codes

  /** The fixed code of section 3.2.6: the lengths of the first n symbols. */
  function FixedLengths(n: nat): (lens: seq<nat>)
    ensures |lens| == n
  {
    if n == 0 then []
    else
      var s := n - 1;
      FixedLengths(s) + [if s < 144 then 8 else if s < 256 then 9 else if s < 280 then 7 else 8]
  }

  function Fives(n: nat): (lens: seq<nat>)
    ensures |lens| == n
  {
    if n == 0 then [] else Fives(n - 1) + [5]
  }

  const FIXED_LIT: seq<nat> := FixedLengths(288)
  const FIXED_DIST: seq<nat> := Fives(32)

  /** What the first n lengths take of the code space of 2^15. */
  lemma {:induction false} FixedKraft(n: nat)
    requires n <= 288
    ensures KraftSum(FixedLengths(n)) ==
            (if n <= 144 then 128 * n else if n <= 256 then 18432 + 64 * (n - 144)
             else if n <= 280 then 25600 + 256 * (n - 256) else 31744 + 128 * (n - 280))
    ensures forall s :: 0 <= s < n ==> 7 <= FixedLengths(n)[s] <= 9
  {
    hide Pow2;
    Weights();
    if n > 0 {
      FixedKraft(n - 1);
      assert FixedLengths(n)[..n - 1] == FixedLengths(n - 1);
    }
  }

  lemma {:induction false} FivesKraft(n: nat)
    ensures KraftSum(Fives(n)) == 1024 * n
    ensures forall s :: 0 <= s < n ==> Fives(n)[s] == 5
  {
    hide Pow2;
    Weights();
    if n > 0 {
      FivesKraft(n - 1);
      assert Fives(n)[..n - 1] == Fives(n - 1);
    }
  }

  lemma Weights()
    ensures Pow2(6) == 64 && Pow2(7) == 128 && Pow2(8) == 256 && Pow2(10) == 1024 && Pow2(15) == 32768
  {
    assert Pow2(5) == 32;
    Pow2Add(10, 5);
  }

  /** The fixed codes are complete: no stream leaves them. */
  lemma FixedComplete()
    ensures Valid(FIXED_LIT) && KraftSum(FIXED_LIT) == Pow2(MAX_LENGTH)
    ensures Valid(FIXED_DIST) && KraftSum(FIXED_DIST) == Pow2(MAX_LENGTH)
  {
    hide KraftSum, Pow2, FixedLengths, Fives;
    Weights();
    FixedKraft(288);
    FivesKraft(32);
  }

  lemma FixedNeverNoCode(data: seq<byte>, size: nat, pos: nat, out: seq<byte>)
    ensures Block(FIXED_LIT, FIXED_DIST, data, size, pos, out) != NoCode
  {
    hide *;
    FixedComplete();
    CompleteNeverNoCode(FIXED_LIT, FIXED_DIST, data, size, pos, out);
  }

  /** Codes of at most nine bits need at most two slots for each prefix. */
  lemma {:induction false} NineBitDemand(lens: seq<nat>, n: nat)
    requires forall s :: 0 <= s < |lens| ==> lens[s] <= 9
    ensures Demand(lens, n) <= 2 * n
  {
    hide Longest, Under, Pow2;
    if n > 0 {
      NineBitDemand(lens, n - 1);
      SmallSize(lens, n - 1);
    }
  }

  lemma SmallSize(lens: seq<nat>, p: nat)
    requires forall s :: 0 <= s < |lens| ==> lens[s] <= 9
    ensures Size(lens, p) <= 2
  {
    hide Longest, Under;
    assert Pow2(1) == 2;
  }

  /** The generator of the fixed tables never fails, and its tables decode the fixed codes. */
  method BuildFixed(tlit: array<nat>, tdist: array<nat>) returns (ok: bool)
    requires tlit.Length == TABLE_SIZE && tdist.Length == TABLE_SIZE && tlit != tdist
    modifies tlit, tdist
    ensures ok && TableFor(tlit[..], FIXED_LIT) && TableFor(tdist[..], FIXED_DIST)
  {
    hide Demand, TableFor, Valid, KraftSum, FixedLengths, Fives, Pow2;
    FixedComplete();
    FixedKraft(288);
    FivesKraft(32);
    NineBitDemand(FIXED_LIT, 256);
    NineBitDemand(FIXED_DIST, 256);
    ok := BuildTable(FIXED_LIT, tlit);
    if ok {
      ok := BuildTable(FIXED_DIST, tdist);
    }
  }

  lemma {:induction false} FixedAt(n: nat, s: nat)
    requires s < n
    ensures FixedLengths(n)[s] == if s < 144 then 8 else if s < 256 then 9 else if s < 280 then 7 else 8
  {
    if s < n - 1 { FixedAt(n - 1, s); }
  }

  // ----- the constants, in rows of eight

  datatype Row = Row(a: nat, b: nat, c: nat, d: nat, e: nat, f: nat, g: nat, h: nat)

  function Column(r: Row, i: nat): nat
  {
    if i == 0 then r.a else if i == 1 then r.b else if i == 2 then r.c else if i == 3 then r.d
    else if i == 4 then r.e else if i == 5 then r.f else if i == 6 then r.g else r.h
  }

  function Primary0(k: nat): Row
  {
    if k == 0 then Row(0xd00, 0xe50, 0xe10, 0xf18, 0xd10, 0xe70, 0xe30, 0x1230)
    else if k == 1 then Row(0xd08, 0xe60, 0xe20, 0x1210, 0xe00, 0xe80, 0xe40, 0x1250)
    else if k == 2 then Row(0xd04, 0xe58, 0xe18, 0x1200, 0xd14, 0xe78, 0xe38, 0x1240)
    else if k == 3 then Row(0xd0c, 0xe68, 0xe28, 0x1220, 0xe08, 0xe88, 0xe48, 0x1260)
    else if k == 4 then Row(0xd02, 0xe54, 0xe14, 0xf1c, 0xd12, 0xe74, 0xe34, 0x1238)
    else if k == 5 then Row(0xd0a, 0xe64, 0xe24, 0x1218, 0xe04, 0xe84, 0xe44, 0x1258)
    else if k == 6 then Row(0xd06, 0xe5c, 0xe1c, 0x1208, 0xd16, 0xe7c, 0xe3c, 0x1248)
    else Row(0xd0e, 0xe6c, 0xe2c, 0x1228, 0xe0c, 0xe8c, 0xe4c, 0x1268)
  }

  function Primary1(k: nat): Row
  {
    if k == 0 then Row(0xd01, 0xe52, 0xe12, 0xf1a, 0xd11, 0xe72, 0xe32, 0x1234)
    else if k == 1 then Row(0xd09, 0xe62, 0xe22, 0x1214, 0xe02, 0xe82, 0xe42, 0x1254)
    else if k == 2 then Row(0xd05, 0xe5a, 0xe1a, 0x1204, 0xd15, 0xe7a, 0xe3a, 0x1244)
    else if k == 3 then Row(0xd0d, 0xe6a, 0xe2a, 0x1224, 0xe0a, 0xe8a, 0xe4a, 0x1264)
    else if k == 4 then Row(0xd03, 0xe56, 0xe16, 0xf1e, 0xd13, 0xe76, 0xe36, 0x123c)
    else if k == 5 then Row(0xd0b, 0xe66, 0xe26, 0x121c, 0xe06, 0xe86, 0xe46, 0x125c)
    else if k == 6 then Row(0xd07, 0xe5e, 0xe1e, 0x120c, 0xd17, 0xe7e, 0xe3e, 0x124c)
    else Row(0xd0f, 0xe6e, 0xe2e, 0x122c, 0xe0e, 0xe8e, 0xe4e, 0x126c)
  }

  function Primary2(k: nat): Row
  {
    if k == 0 then Row(0xd00, 0xe51, 0xe11, 0xf19, 0xd10, 0xe71, 0xe31, 0x1232)
    else if k == 1 then Row(0xd08, 0xe61, 0xe21, 0x1212, 0xe01, 0xe81, 0xe41, 0x1252)
    else if k == 2 then Row(0xd04, 0xe59, 0xe19, 0x1202, 0xd14, 0xe79, 0xe39, 0x1242)
    else if k == 3 then Row(0xd0c, 0xe69, 0xe29, 0x1222, 0xe09, 0xe89, 0xe49, 0x1262)
    else if k == 4 then Row(0xd02, 0xe55, 0xe15, 0xf1d, 0xd12, 0xe75, 0xe35, 0x123a)
    else if k == 5 then Row(0xd0a, 0xe65, 0xe25, 0x121a, 0xe05, 0xe85, 0xe45, 0x125a)
    else if k == 6 then Row(0xd06, 0xe5d, 0xe1d, 0x120a, 0xd16, 0xe7d, 0xe3d, 0x124a)
    else Row(0xd0e, 0xe6d, 0xe2d, 0x122a, 0xe0d, 0xe8d, 0xe4d, 0x126a)
  }

  function Primary3(k: nat): Row
  {
    if k == 0 then Row(0xd01, 0xe53, 0xe13, 0xf1b, 0xd11, 0xe73, 0xe33, 0x1236)
    else if k == 1 then Row(0xd09, 0xe63, 0xe23, 0x1216, 0xe03, 0xe83, 0xe43, 0x1256)
    else if k == 2 then Row(0xd05, 0xe5b, 0xe1b, 0x1206, 0xd15, 0xe7b, 0xe3b, 0x1246)
    else if k == 3 then Row(0xd0d, 0xe6b, 0xe2b, 0x1226, 0xe0b, 0xe8b, 0xe4b, 0x1266)
    else if k == 4 then Row(0xd03, 0xe57, 0xe17, 0xf1f, 0xd13, 0xe77, 0xe37, 0x123e)
    else if k == 5 then Row(0xd0b, 0xe67, 0xe27, 0x121e, 0xe07, 0xe87, 0xe47, 0x125e)
    else if k == 6 then Row(0xd07, 0xe5f, 0xe1f, 0x120e, 0xd17, 0xe7f, 0xe3f, 0x124e)
    else Row(0xd0f, 0xe6f, 0xe2f, 0x122e, 0xe0f, 0xe8f, 0xe4f, 0x126e)
  }

  function Secondary(k: nat): Row
  {
    if k == 0 then Row(0x290, 0x291, 0x292, 0x293, 0x294, 0x295, 0x296, 0x297)
    else if k == 1 then Row(0x298, 0x299, 0x29a, 0x29b, 0x29c, 0x29d, 0x29e, 0x29f)
    else if k == 2 then Row(0x2a0, 0x2a1, 0x2a2, 0x2a3, 0x2a4, 0x2a5, 0x2a6, 0x2a7)
    else if k == 3 then Row(0x2a8, 0x2a9, 0x2aa, 0x2ab, 0x2ac, 0x2ad, 0x2ae, 0x2af)
    else if k == 4 then Row(0x2b0, 0x2b1, 0x2b2, 0x2b3, 0x2b4, 0x2b5, 0x2b6, 0x2b7)
    else if k == 5 then Row(0x2b8, 0x2b9, 0x2ba, 0x2bb, 0x2bc, 0x2bd, 0x2be, 0x2bf)
    else if k == 6 then Row(0x2c0, 0x2c1, 0x2c2, 0x2c3, 0x2c4, 0x2c5, 0x2c6, 0x2c7)
    else if k == 7 then Row(0x2c8, 0x2c9, 0x2ca, 0x2cb, 0x2cc, 0x2cd, 0x2ce, 0x2cf)
    else if k == 8 then Row(0x2d0, 0x2d1, 0x2d2, 0x2d3, 0x2d4, 0x2d5, 0x2d6, 0x2d7)
    else if k == 9 then Row(0x2d8, 0x2d9, 0x2da, 0x2db, 0x2dc, 0x2dd, 0x2de, 0x2df)
    else if k == 10 then Row(0x2e0, 0x2e1, 0x2e2, 0x2e3, 0x2e4, 0x2e5, 0x2e6, 0x2e7)
    else if k == 11 then Row(0x2e8, 0x2e9, 0x2ea, 0x2eb, 0x2ec, 0x2ed, 0x2ee, 0x2ef)
    else if k == 12 then Row(0x2f0, 0x2f1, 0x2f2, 0x2f3, 0x2f4, 0x2f5, 0x2f6, 0x2f7)
    else Row(0x2f8, 0x2f9, 0x2fa, 0x2fb, 0x2fc, 0x2fd, 0x2fe, 0x2ff)
  }

  /** The rows of the distance table repeat after four. */
  function Distances(k: nat): Row
  {
    if k == 0 then Row(0x800, 0x810, 0x808, 0x818, 0x804, 0x814, 0x80c, 0x81c)
    else if k == 1 then Row(0x802, 0x812, 0x80a, 0x81a, 0x806, 0x816, 0x80e, 0x81e)
    else if k == 2 then Row(0x801, 0x811, 0x809, 0x819, 0x805, 0x815, 0x80d, 0x81d)
    else Row(0x803, 0x813, 0x80b, 0x81b, 0x807, 0x817, 0x80f, 0x81f)
  }

  function LitRow(k: nat): Row
  {
    if k < 8 then Primary0(k) else if k < 16 then Primary1(k - 8) else if k < 24 then Primary2(k - 16)
    else if k < 32 then Primary3(k - 24) else Secondary(k - 32)
  }

  const LIT_SIZE: nat := 0x170
  const DIST_SIZE: nat := 0x100

  /** The tables; the slots behind their ends are filled up with zeros. */
  function LitTable(): (t: seq<nat>)
    ensures |t| == TABLE_SIZE
  {
    seq(TABLE_SIZE, i => if 0 <= i < LIT_SIZE then Column(LitRow(i / 8), i % 8) else 0)
  }

  function DistTable(): (t: seq<nat>)
    ensures |t| == TABLE_SIZE
  {
    seq(TABLE_SIZE, i => if 0 <= i < DIST_SIZE then Column(Distances(i / 8 % 4), i % 8) else 0)
  }

  // ----- what they hold

  /** The slot of the streams whose first eight bits spell m. */
  function LitEntry(m: nat): nat
  {
    if m < 48 then 0xd00 + m / 2 else if m < 192 then 0xe00 + (m - 48)
    else if m < 200 then 0xf18 + (m - 192) else 0x1200 + 2 * (m - 200)
  }

  /** The row of the streams whose fourth to eighth bits spell m. */
  predicate LitRowIs(r: Row, m: nat)
  {
    r == Row(LitEntry(m), LitEntry(128 + m), LitEntry(64 + m), LitEntry(192 + m),
             LitEntry(32 + m), LitEntry(160 + m), LitEntry(96 + m), LitEntry(224 + m))
  }

  lemma PrimaryRows0(a: nat, b: nat, c: nat)
    requires a <= 1 && b <= 1 && c <= 1
    ensures LitRowIs(Primary0(a + 2 * b + 4 * c), 16 * a + 8 * b + 4 * c + 0)
  {}

  lemma PrimaryRows1(a: nat, b: nat, c: nat)
    requires a <= 1 && b <= 1 && c <= 1
    ensures LitRowIs(Primary1(a + 2 * b + 4 * c), 16 * a + 8 * b + 4 * c + 2)
  {}

  lemma PrimaryRows2(a: nat, b: nat, c: nat)
    requires a <= 1 && b <= 1 && c <= 1
    ensures LitRowIs(Primary2(a + 2 * b + 4 * c), 16 * a + 8 * b + 4 * c + 1)
  {}

  lemma PrimaryRows3(a: nat, b: nat, c: nat)
    requires a <= 1 && b <= 1 && c <= 1
    ensures LitRowIs(Primary3(a + 2 * b + 4 * c), 16 * a + 8 * b + 4 * c + 3)
  {}

  lemma LitRows(a: nat, b: nat, c: nat, d: nat, e: nat)
    requires a <= 1 && b <= 1 && c <= 1 && d <= 1 && e <= 1
    ensures LitRowIs(LitRow(a + 2 * b + 4 * c + 8 * d + 16 * e), 16 * a + 8 * b + 4 * c + 2 * d + e)
  {
    hide LitRowIs, Primary0, Primary1, Primary2, Primary3, Secondary;
    PrimaryRows0(a, b, c);
    PrimaryRows1(a, b, c);
    PrimaryRows2(a, b, c);
    PrimaryRows3(a, b, c);
  }

  lemma SecondaryRows(k: nat, i: nat)
    requires k < 14 && i < 8
    ensures Column(Secondary(k), i) == 0x290 + 8 * k + i
  {}

  // ----- bits

  lemma LowNext(n: nat, p: nat, v: nat)
    requires p == Pow2(n)
    ensures Low(n + 1, v) == Low(n, v) + p * Bit(n, v)
  {
    hide Low, Bit, Pow2;
    LowTop(n + 1, v);
  }

  /** The first eight bits, the first as the least significant. */
  lemma EightLow(v: nat)
    ensures Low(8, v) == Bit(0, v) + 2 * Bit(1, v) + 4 * Bit(2, v) + 8 * (Bit(3, v) + 2 * Bit(4, v) + 4 * Bit(5, v)
                         + 8 * Bit(6, v) + 16 * Bit(7, v))
  {
    Small();
    hide Low, Bit, Pow2;
    LowZero(v);
    LowNext(0, 1, v);
    LowNext(1, 2, v);
    LowNext(2, 4, v);
    LowNext(3, 8, v);
    LowNext(4, 16, v);
    LowNext(5, 32, v);
    LowNext(6, 64, v);
    LowNext(7, 128, v);
  }

  lemma Small()
    ensures Pow2(0) == 1 && Pow2(1) == 2 && Pow2(2) == 4 && Pow2(3) == 8 && Pow2(4) == 16 && Pow2(5) == 32
    ensures Pow2(6) == 64 && Pow2(7) == 128
  {}

  /** The first eight bits, the first as the most significant. */
  lemma EightHigh(v: nat)
    ensures Msb(5, v) == 16 * Bit(0, v) + 8 * Bit(1, v) + 4 * Bit(2, v) + 2 * Bit(3, v) + Bit(4, v)
    ensures Msb(8, v) == 8 * Msb(5, v) + 4 * Bit(5, v) + 2 * Bit(6, v) + Bit(7, v)
  {
    hide Bit;
    assert Msb(1, v) == 2 * Msb(0, v) + Bit(0, v);
    assert Msb(3, v) == 2 * (2 * Msb(1, v) + Bit(1, v)) + Bit(2, v);
    assert Msb(5, v) == 2 * (2 * Msb(3, v) + Bit(3, v)) + Bit(4, v);
    assert Msb(7, v) == 2 * (2 * Msb(5, v) + Bit(5, v)) + Bit(6, v);
  }

  lemma LitEntryAt(v: nat)
    ensures Low(8, v) < 256 && LitTable()[Low(8, v)] == LitEntry(Msb(8, v))
  {
    hide Low, Bit, Msb, LitRow, LitEntry, Column;
    EightLow(v);
    EightHigh(v);
    var k := Bit(3, v) + 2 * Bit(4, v) + 4 * Bit(5, v) + 8 * Bit(6, v) + 16 * Bit(7, v);
    var c := Bit(0, v) + 2 * Bit(1, v) + 4 * Bit(2, v);
    LitRows(Bit(3, v), Bit(4, v), Bit(5, v), Bit(6, v), Bit(7, v));
    var m := Msb(8, v) - 128 * Bit(0, v) - 64 * Bit(1, v) - 32 * Bit(2, v);
    LitColumns(LitRow(k), m, Bit(0, v), Bit(1, v), Bit(2, v));
    assert Low(8, v) == c + 8 * k && (c + 8 * k) / 8 == k && (c + 8 * k) % 8 == c;
  }

  lemma LitColumns(r: Row, m: nat, a: nat, b: nat, c: nat)
    requires LitRowIs(r, m) && a <= 1 && b <= 1 && c <= 1
    ensures Column(r, a + 2 * b + 4 * c) == LitEntry(128 * a + 64 * b + 32 * c + m)
  {
    hide LitEntry;
  }

  // ----- what the codes are

  lemma {:induction false} FixedCount(n: nat, l: nat)
    requires n <= 288
    ensures Count(FixedLengths(n), l) ==
            (if l == 8 then (if n <= 144 then n else if n <= 280 then 144 else n - 136)
             else if l == 9 then (if n <= 144 then 0 else if n <= 256 then n - 144 else 112)
             else if l == 7 then (if n <= 256 then 0 else if n <= 280 then n - 256 else 24)
             else 0)
  {
    if n > 0 {
      FixedCount(n - 1, l);
      assert FixedLengths(n)[..n - 1] == FixedLengths(n - 1);
    }
  }

  lemma {:induction false} FixedPrefix(n: nat, s: nat)
    requires s <= n
    ensures FixedLengths(n)[..s] == FixedLengths(s)
  {
    if s < n {
      FixedPrefix(n - 1, s);
      assert FixedLengths(n)[..s] == FixedLengths(n - 1)[..s];
    } else {
      assert FixedLengths(n)[..n] == FixedLengths(n);
    }
  }

  lemma FirstCodes()
    ensures FirstCode(FIXED_LIT, 7) == 0 && FirstCode(FIXED_LIT, 8) == 48 && FirstCode(FIXED_LIT, 9) == 400
  {
    hide FixedLengths, Count;
    FixedCount(288, 1);
    FixedCount(288, 2);
    FixedCount(288, 3);
    FixedCount(288, 4);
    FixedCount(288, 5);
    FixedCount(288, 6);
    FixedCount(288, 7);
    FixedCount(288, 8);
    assert FirstCode(FIXED_LIT, 4) == 0;
    assert FirstCode(FIXED_LIT, 6) == 0;
  }

  /** The codes of section 3.2.6. */
  lemma FixedCode(s: nat)
    requires s < 288
    ensures FIXED_LIT[s] == (if s < 144 then 8 else if s < 256 then 9 else if s < 280 then 7 else 8)
    ensures CodeOf(FIXED_LIT, s) ==
            (if s < 144 then 48 + s else if s < 256 then 400 + (s - 144)
             else if s < 280 then s - 256 else 192 + (s - 280))
  {
    hide FixedLengths, Count, FirstCode;
    FirstCodes();
    FixedAt(288, s);
    FixedPrefix(288, s);
    FixedCount(s, FIXED_LIT[s]);
  }

  /** The table decodes every fixed code, and no stream leads to a slot behind its end. */
  lemma LitTableDecodes()
    ensures TableFor(LitTable(), FIXED_LIT)
    ensures forall v: nat :: Slot(LitTable(), v) < LIT_SIZE
  {
    hide LitTable, Msb, CodeOf, FixedLengths;
    forall v: nat
      ensures Slot(LitTable(), v) < LIT_SIZE
    {
      LitSlot(v);
    }
    forall s: nat, v: nat | Matches(FIXED_LIT, s, v)
      ensures Lookup(LitTable(), v) == (s, FIXED_LIT[s])
    {
      LitLookup(s, v);
    }
  }

  /** The slot of a stream, and what stands there. */
  lemma LitSlot(v: nat)
    ensures var m, t := Msb(8, v), LitTable();
            && m < 256 && Slot(t, v) < LIT_SIZE
            && IsPointer(t[Low(8, v)]) == (m >= 200)
            && t[Slot(t, v)] == if m < 200 then LitEntry(m) else 0x290 + 2 * (m - 200) + Bit(8, v)
  {
    hide LitTable, Low, Msb, Bit;
    Small();
    assert Pow2(8) == 256;
    LitEntryAt(v);
    if Msb(8, v) >= 200 {
      OneBitLow(v);
      LitSecondaryAt(2 * (Msb(8, v) - 200) + Bit(8, v));
    }
  }

  lemma OneBitLow(v: nat)
    ensures Low(1, Shr(8, v)) == Bit(8, v)
  {}

  lemma LitSecondaryAt(j: nat)
    requires j < 112
    ensures LitTable()[256 + j] == 0x290 + j
  {
    SecondaryRows(j / 8, j % 8);
    hide Secondary;
    assert (256 + j) / 8 == 32 + j / 8 && (256 + j) % 8 == j % 8;
  }

  lemma LitLookup(s: nat, v: nat)
    requires Matches(FIXED_LIT, s, v)
    ensures Lookup(LitTable(), v) == (s, FIXED_LIT[s])
  {
    hide LitTable, CodeOf, FixedLengths, Slot, Bit, Msb, LitEntry, Value, Width;
    FixedCode(s);
    LitSlot(v);
    MsbSteps(v);
    LitFields(s, Msb(8, v), Bit(7, v), Bit(8, v));
  }

  lemma MsbSteps(v: nat)
    ensures Msb(8, v) == 2 * Msb(7, v) + Bit(7, v) && Msb(9, v) == 2 * Msb(8, v) + Bit(8, v)
  {}

  /** The entry of each symbol, from the first eight bits of its code and the ninth. */
  lemma LitFields(s: nat, m: nat, last: nat, ninth: nat)
    requires s < 288 && last <= 1 && ninth <= 1
    requires if s < 144 then m == 48 + s else if s < 256 then 2 * m + ninth == 400 + (s - 144)
             else if s < 280 then m == 2 * (s - 256) + last else m == 192 + (s - 280)
    ensures m >= 200 <==> 144 <= s < 256
    ensures var e := if m < 200 then LitEntry(m) else 0x290 + 2 * (m - 200) + ninth;
            Value(e) == s && Width(e) == (if s < 144 then 7 else if s < 256 then 1 else if s < 280 then 6 else 7)
  {}

  // ----- distances

  lemma DistRows(a: nat, b: nat, i: nat, j: nat, k: nat)
    requires a <= 1 && b <= 1 && i <= 1 && j <= 1 && k <= 1
    ensures Column(Distances(a + 2 * b), i + 2 * j + 4 * k) == 0x800 + 16 * i + 8 * j + 4 * k + 2 * a + b
  {}

  lemma DistEntryAt(v: nat)
    ensures Low(8, v) < 256 && DistTable()[Low(8, v)] == 0x800 + Msb(5, v)
  {
    hide Low, Bit, Msb, Column, Distances;
    EightLow(v);
    EightHigh(v);
    var k := Bit(3, v) + 2 * Bit(4, v) + 4 * Bit(5, v) + 8 * Bit(6, v) + 16 * Bit(7, v);
    var c := Bit(0, v) + 2 * Bit(1, v) + 4 * Bit(2, v);
    DistRows(Bit(3, v), Bit(4, v), Bit(0, v), Bit(1, v), Bit(2, v));
    assert Low(8, v) == c + 8 * k && (c + 8 * k) / 8 == k && (c + 8 * k) % 8 == c;
    assert k % 4 == Bit(3, v) + 2 * Bit(4, v);
  }

  lemma {:induction false} FivesCount(n: nat, l: nat)
    ensures Count(Fives(n), l) == if l == 5 then n else 0
    ensures forall s :: 0 <= s < n ==> Fives(n)[s] == 5
  {
    if n > 0 {
      FivesCount(n - 1, l);
      assert Fives(n)[..n - 1] == Fives(n - 1);
    }
  }

  lemma {:induction false} FivesPrefix(n: nat, s: nat)
    requires s <= n
    ensures Fives(n)[..s] == Fives(s)
  {
    if s < n {
      FivesPrefix(n - 1, s);
      assert Fives(n)[..s] == Fives(n - 1)[..s];
    } else {
      assert Fives(n)[..n] == Fives(n);
    }
  }

  lemma DistCode(s: nat)
    requires s < 32
    ensures FIXED_DIST[s] == 5 && CodeOf(FIXED_DIST, s) == s
  {
    hide Fives, Count;
    FivesCount(32, 1);
    FivesCount(32, 2);
    FivesCount(32, 3);
    FivesCount(32, 4);
    FivesPrefix(32, s);
    FivesCount(s, 5);
    assert FirstCode(FIXED_DIST, 3) == 0;
    assert FirstCode(FIXED_DIST, 5) == 0;
  }

  lemma DistTableDecodes()
    ensures TableFor(DistTable(), FIXED_DIST)
    ensures forall v: nat :: Slot(DistTable(), v) < DIST_SIZE
  {
    hide DistTable, Msb, CodeOf, Fives, Low;
    forall v: nat
      ensures Slot(DistTable(), v) < DIST_SIZE
    {
      DistSlot(v);
    }
    forall s: nat, v: nat | Matches(FIXED_DIST, s, v)
      ensures Lookup(DistTable(), v) == (s, FIXED_DIST[s])
    {
      DistCode(s);
      DistSlot(v);
    }
  }

  lemma DistSlot(v: nat)
    ensures Slot(DistTable(), v) == Low(8, v) < DIST_SIZE && Msb(5, v) < 32
    ensures DistTable()[Low(8, v)] == 0x800 + Msb(5, v) && !IsPointer(DistTable()[Low(8, v)])
  {
    hide DistTable, Msb, Low;
    Small();
    DistEntryAt(v);
  }
}
