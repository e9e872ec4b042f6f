/** How many secondary slots a code can ask for. Codes are handed out in order of length, so the
    table of a prefix is never larger than the number of codes under the next one, as long as that
    one is full. */
module DemandBound {
  import opened Bits
  import opened Canonical
  import opened HuffmanTable
  import opened ReverseCounter
  import opened SecondaryDemand

  /** The code of the long symbol s starts with the eight bits of q. */
  ghost predicate Beneath(lens: seq<nat>, s: nat, q: nat)
  {
    s < |lens| && lens[s] > 8 && Shr(lens[s] - 8, CodeOf(lens, s)) == q
  }

  /** How many of the first m symbols do. */
  ghost function Row(lens: seq<nat>, q: nat, m: nat): nat
    requires m <= |lens|
  {
    if m == 0 then 0 else Row(lens, q, m - 1) + (if Beneath(lens, m - 1, q) then 1 else 0)
  }

  // ----- one prefix and the next

  /** The first len bits of the code of t, if it has as many. */
  ghost function Top(lens: seq<nat>, t: nat, len: nat): int
    requires t < |lens|
  {
    if lens[t] < len then -1 else Shr(lens[t] - len, CodeOf(lens, t))
  }

  /** How many of the first m symbols start with one of the k words from c0. */
  ghost function Tops(lens: seq<nat>, len: nat, c0: nat, k: nat, m: nat): nat
    requires m <= |lens|
  {
    if m == 0 then 0 else Tops(lens, len, c0, k, m - 1) + (if c0 <= Top(lens, m - 1, len) < c0 + k then 1 else 0)
  }

  lemma {:induction false} TopsGrow(lens: seq<nat>, len: nat, c0: nat, k: nat, m: nat, t: nat)
    requires m <= |lens| && t < |lens| && Top(lens, t, len) == c0 + k
    ensures Tops(lens, len, c0, k + 1, m) >= Tops(lens, len, c0, k, m) + (if t < m then 1 else 0)
  {
    hide Top;
    if m > 0 { TopsGrow(lens, len, c0, k, m - 1, t); }
  }

  /** A stream whose first len bits are c. */
  lemma StreamOf(len: nat, c: nat) returns (v: nat)
    requires c < Pow2(len)
    ensures Msb(len, v) == c
  {
    hide Msb, Low, Pow2, IncTimes;
    ZeroFits(len);
    v := IncTimes(len, 0, c);
    IncTimesAdds(len, 0, c);
    MsbZero(len);
    LowSmall(len, c);
  }

  lemma ZeroFits(len: nat)
    ensures 0 < Pow2(len)
  {}

  lemma ShrLess(n: nat, x: nat, y: nat)
    requires Shr(n, y) < x
    ensures y < Shl(n, x)
  {
    if Shl(n, x) <= y { ShlShrBound(n, x, y); }
  }

  /** Behind the code of s, as long as there is code space, every word of as many bits starts some
      code: no shorter one can come that late. */
  lemma WordIsUsed(lens: seq<nat>, s: nat, c: nat) returns (t: nat)
    requires s < |lens| && 1 <= lens[s] <= MAX_LENGTH && CodeOf(lens, s) < c < Pow2(lens[s])
    requires Shl(MAX_LENGTH - lens[s], c + 1) <= KraftSum(lens)
    ensures t < |lens| && Top(lens, t, lens[s]) == c
  {
    hide Msb, Low, Shr, Shl, Pow2, KraftSum, FirstCode, Count;
    var len := lens[s];
    var v := StreamOf(len, c);
    MsbPrefix(MAX_LENGTH, len, v);
    ShrLess(MAX_LENGTH - len, c + 1, Msb(MAX_LENGTH, v));
    t := CodeAt(lens, v);
    if lens[t] < len {
      MsbPrefix(len, lens[t], v);
      LongerCodesAreGreater(lens, lens[t], len);
      RankBelowCount(lens, t);
      ShlShrBound(len - lens[t], FirstCode(lens, lens[t]) + Count(lens, lens[t]), c);
      assert false;
    } else {
      MsbPrefix(lens[t], len, v);
    }
  }

  /** So the k words from c0 start at least k different codes. */
  lemma {:induction false} WordsAreUsed(lens: seq<nat>, s: nat, c0: nat, k: nat)
    requires s < |lens| && 1 <= lens[s] <= MAX_LENGTH && CodeOf(lens, s) < c0 && c0 + k <= Pow2(lens[s])
    requires Shl(MAX_LENGTH - lens[s], c0 + k) <= KraftSum(lens)
    ensures Tops(lens, lens[s], c0, k, |lens|) >= k
  {
    hide CodeOf, Top, Tops, Shl, Pow2, KraftSum;
    if k > 0 {
      ShlUp(MAX_LENGTH - lens[s], c0 + k - 1, c0 + k);
      WordsAreUsed(lens, s, c0, k - 1);
      var t := WordIsUsed(lens, s, c0 + k - 1);
      TopsGrow(lens, lens[s], c0, k - 1, |lens|, t);
    }
  }

  lemma {:induction false} ShlUp(n: nat, x: nat, y: nat)
    requires x <= y
    ensures Shl(n, x) <= Shl(n, y)
  {
    if n > 0 { ShlUp(n - 1, x, y); }
  }

  /** Codes that start with one of the words of prefix q are beneath it. */
  lemma {:induction false} TopsBeneath(lens: seq<nat>, len: nat, q: nat, m: nat)
    requires m <= |lens| && len > 8
    ensures Tops(lens, len, Shl(len - 8, q), Pow2(len - 8), m) <= Row(lens, q, m)
  {
    if m > 0 {
      TopsBeneath(lens, len, q, m - 1);
      hide CodeOf, Shl, Shr, Pow2, Tops, Row;
      if Shl(len - 8, q) <= Top(lens, m - 1, len) < Shl(len - 8, q) + Pow2(len - 8) {
        OneBeneath(lens, len, q, m - 1);
      }
      TopsUnfold(lens, len, Shl(len - 8, q), Pow2(len - 8), m);
    }
  }

  lemma TopsUnfold(lens: seq<nat>, len: nat, c0: nat, k: nat, m: nat)
    requires 0 < m <= |lens|
    ensures Tops(lens, len, c0, k, m) ==
            Tops(lens, len, c0, k, m - 1) + (if c0 <= Top(lens, m - 1, len) < c0 + k then 1 else 0)
    ensures forall q :: Row(lens, q, m) == Row(lens, q, m - 1) + (if Beneath(lens, m - 1, q) then 1 else 0)
  {}

  lemma OneBeneath(lens: seq<nat>, len: nat, q: nat, t: nat)
    requires t < |lens| && len > 8 && Shl(len - 8, q) <= Top(lens, t, len) < Shl(len - 8, q) + Pow2(len - 8)
    ensures Beneath(lens, t, q)
  {
    hide CodeOf, Shl, Shr, Pow2;
    var n, c := len - 8, Top(lens, t, len);
    ShrShr(lens[t] - len, n, CodeOf(lens, t));
    Join(n, c - Shl(n, q), q);
  }

  /** If the next prefix is full, it has as many codes as this prefix needs slots. */
  lemma NextIsFull(lens: seq<nat>, p: nat)
    requires Valid(lens) && p < 256 && Size(lens, p) > 0 && Shl(7, Msb(8, p) + 2) <= KraftSum(lens) &&
             Msb(8, p) + 2 <= 256
    ensures Size(lens, p) <= Row(lens, Msb(8, p) + 1, |lens|)
  {
    hide Longest, Msb, Shl, Shr, Pow2, KraftSum, CodeOf, Tops, Row;
    var q, len := Msb(8, p), Longest(lens, p, |lens|);
    var s :| 0 <= s < |lens| && Under(lens, s, p) && lens[s] == len;
    var c0, k := Shl(len - 8, q + 1), Pow2(len - 8);
    ShrLess(len - 8, q + 1, CodeOf(lens, s));
    NextWords(len, q);
    WordsAreUsed(lens, s, c0, k);
    TopsBeneath(lens, len, q + 1, |lens|);
  }

  lemma NextWords(len: nat, q: nat)
    requires 9 <= len <= MAX_LENGTH && q + 2 <= 256
    ensures Shl(len - 8, q + 1) + Pow2(len - 8) == Shl(len - 8, q + 2) <= Pow2(len)
    ensures Shl(MAX_LENGTH - len, Shl(len - 8, q + 2)) == Shl(7, q + 2)
  {
    hide Shl, Pow2;
    var n := len - 8;
    ShlAdd(n, q + 1, 1);
    ShlIsMul(n, 1);
    ShlShl(MAX_LENGTH - len, n, q + 2);
    ShlUp(n, q + 2, 256);
    ShlIsMul(n, 256);
    TwoToEight();
    Pow2Add(8, n);
  }

  lemma TwoToEight()
    ensures Pow2(8) == 256
  {}

  // ----- all prefixes

  /** How many of the first n bytes read as c. */
  ghost function Hits(c: int, n: nat): nat
  {
    if n == 0 then 0 else Hits(c, n - 1) + (if Msb(8, n - 1) == c then 1 else 0)
  }

  lemma {:induction false} HitsNone(c: int, n: nat)
    requires forall p: nat :: p < n ==> Msb(8, p) != c
    ensures Hits(c, n) == 0
  {
    if n > 0 { HitsNone(c, n - 1); }
  }

  /** Each prefix is that of one byte. */
  lemma {:induction false} HitsOnce(c: int, n: nat)
    requires n <= 256
    ensures Hits(c, n) <= 1
  {
    if n > 0 {
      HitsOnce(c, n - 1);
      hide Msb, Low, Pow2;
      TwoToEight();
      if Msb(8, n - 1) == c {
        forall p: nat | p < n - 1
          ensures Msb(8, p) != c
        {
          MsbInjective(8, p, n - 1);
          LowSmall(8, p);
          LowSmall(8, n - 1);
        }
        HitsNone(c, n - 1);
      }
    }
  }

  /** The codes of the first m symbols beneath the prefixes that follow those of the first n bytes,
      by byte and by symbol. */
  ghost function RowSum(lens: seq<nat>, n: nat, m: nat): nat
    requires m <= |lens|
  {
    if n == 0 then 0 else RowSum(lens, n - 1, m) + Row(lens, Msb(8, n - 1) + 1, m)
  }

  ghost function Column(lens: seq<nat>, n: nat, s: nat): nat
  {
    if n == 0 then 0 else Column(lens, n - 1, s) + (if Beneath(lens, s, Msb(8, n - 1) + 1) then 1 else 0)
  }

  lemma {:induction false} AddColumn(lens: seq<nat>, n: nat, m: nat)
    requires 0 < m <= |lens|
    ensures RowSum(lens, n, m) == RowSum(lens, n, m - 1) + Column(lens, n, m - 1)
  {
    hide Beneath, Msb;
    if n > 0 { AddColumn(lens, n - 1, m); }
  }

  lemma {:induction false} ColumnHits(lens: seq<nat>, n: nat, s: nat, q: nat)
    requires forall c :: Beneath(lens, s, c) ==> c == q
    ensures Column(lens, n, s) <= Hits(q - 1, n)
  {
    hide Beneath, Msb;
    if n > 0 { ColumnHits(lens, n - 1, s, q); }
  }

  lemma {:induction false} RowSumAtMost(lens: seq<nat>, n: nat, m: nat)
    requires m <= |lens| && n <= 256
    ensures RowSum(lens, n, m) <= m
    decreases m
  {
    hide RowSum, Column, Hits;
    if m == 0 {
      RowSumNone(lens, n);
    } else {
      RowSumAtMost(lens, n, m - 1);
      AddColumn(lens, n, m);
      var q := if lens[m - 1] > 8 then Shr(lens[m - 1] - 8, CodeOf(lens, m - 1)) else 0;
      ColumnHits(lens, n, m - 1, q);
      HitsOnce(q - 1, n);
    }
  }

  lemma {:induction false} RowSumNone(lens: seq<nat>, n: nat)
    ensures RowSum(lens, n, 0) == 0
  {
    if n > 0 { RowSumNone(lens, n - 1); }
  }

  /** The last prefix in use. */
  ghost function LastPrefix(lens: seq<nat>): int { (KraftSum(lens) - 1) / 128 }

  /** A prefix in use that is not followed by a full one is the last or the one before. */
  lemma EdgeIsLast(lens: seq<nat>, p: nat)
    requires Valid(lens) && p < 256 && Size(lens, p) > 0
    requires !(Msb(8, p) + 2 <= 256 && Shl(7, Msb(8, p) + 2) <= KraftSum(lens))
    ensures Msb(8, p) == LastPrefix(lens) || (Msb(8, p) == LastPrefix(lens) - 1 && KraftSum(lens) < Pow2(MAX_LENGTH))
  {
    hide Longest, Msb, Shl, Shr, Pow2, KraftSum, CodeOf;
    var q := Msb(8, p);
    PrefixInSpace(lens, p);
    ShlIsMul(7, q + 2);
    ShlIsMul(7, q);
    SevenAndEight();
  }

  lemma SevenAndEight()
    ensures Pow2(7) == 128 && Pow2(8) == 256 && Pow2(MAX_LENGTH) == 32768
  {
    Pow2Add(7, 8);
  }

  /** A prefix with a code starts below the end of the code space. */
  lemma PrefixInSpace(lens: seq<nat>, p: nat)
    requires Valid(lens) && Size(lens, p) > 0
    ensures Shl(7, Msb(8, p)) < KraftSum(lens)
  {
    hide Longest, Msb, Shl, Shr, Pow2, KraftSum, FirstCode, Count;
    var q := Msb(8, p);
    var s :| 0 <= s < |lens| && Under(lens, s, p);
    var len := lens[s];
    RankBelowCount(lens, s);
    CodeSpaceOf(lens, len);
    ShlUp(MAX_LENGTH - len, CodeOf(lens, s) + 1, FirstCode(lens, len) + Count(lens, len));
    ShlStep(MAX_LENGTH - len, CodeOf(lens, s));
    Split(len - 8, CodeOf(lens, s));
    ShlUp(MAX_LENGTH - len, Shl(len - 8, q), CodeOf(lens, s));
    ShlShl(MAX_LENGTH - len, len - 8, q);
  }

  lemma ShlStep(n: nat, x: nat)
    ensures Shl(n, x) < Shl(n, x + 1)
  {
    ShlAdd(n, x, 1);
    ShlIsMul(n, 1);
  }

  lemma CodeSpaceOf(lens: seq<nat>, len: nat)
    requires 1 <= len <= MAX_LENGTH
    ensures Shl(MAX_LENGTH - len, FirstCode(lens, len) + Count(lens, len)) <= KraftSum(lens)
  {
    hide Count, FirstCode, KraftSum;
    KraftIsCodeSpace(lens);
    if len < MAX_LENGTH { LongerCodesAreGreater(lens, len, MAX_LENGTH); }
  }

  lemma SizeAtMost(lens: seq<nat>, p: nat)
    requires Valid(lens)
    ensures Size(lens, p) <= 128
  {
    hide Longest, Under, KraftSum;
    if Longest(lens, p, |lens|) > 0 { SmallWidth(Longest(lens, p, |lens|) - 8); }
  }

  lemma {:induction false} DemandUpTo(lens: seq<nat>, n: nat)
    requires Valid(lens) && n <= 256
    ensures Demand(lens, n) <= RowSum(lens, n, |lens|) + 128 * Hits(LastPrefix(lens), n)
                               + (if KraftSum(lens) < Pow2(MAX_LENGTH) then 128 * Hits(LastPrefix(lens) - 1, n) else 0)
  {
    hide Size, Row, Msb, KraftSum, Pow2, LastPrefix, Valid, Shl;
    if n > 0 {
      DemandUpTo(lens, n - 1);
      var p := n - 1;
      SizeAtMost(lens, p);
      if Size(lens, p) > 0 {
        if Msb(8, p) + 2 <= 256 && Shl(7, Msb(8, p) + 2) <= KraftSum(lens) {
          NextIsFull(lens, p);
        } else {
          EdgeIsLast(lens, p);
        }
      }
    }
  }

  /** Any code of n symbols asks for at most n + 256 slots, a complete one for at most n + 128: a
      table of 512 slots is enough for every code of 256 symbols, and for a complete one of 384. */
  lemma DemandAtMost(lens: seq<nat>)
    requires Valid(lens)
    ensures Demand(lens, 256) <= |lens| + 256
    ensures KraftSum(lens) == Pow2(MAX_LENGTH) ==> Demand(lens, 256) <= |lens| + 128
  {
    hide Demand, RowSum, Hits, KraftSum, Pow2, LastPrefix, Valid;
    DemandUpTo(lens, 256);
    RowSumAtMost(lens, 256, |lens|);
    HitsOnce(LastPrefix(lens), 256);
    HitsOnce(LastPrefix(lens) - 1, 256);
  }

  // ----- a code that asks for too much

  const HEAD: seq<nat> := [9, 9, 9, 10, 11, 12, 13, 14]

  /** Lengths that rise to 15, and k symbols of 15 bits. */
  function Rising(k: nat): (lens: seq<nat>)
    ensures |lens| == 8 + k
  {
    if k == 0 then HEAD else Rising(k - 1) + [15]
  }

  lemma {:induction false} RisingPrefix(k: nat, j: nat)
    requires j <= k
    ensures Rising(k)[..8 + j] == Rising(j)
    ensures forall s :: 8 <= s < 8 + k ==> Rising(k)[s] == 15
    ensures Rising(k)[..8] == HEAD
  {
    if j < k { RisingPrefix(k - 1, j); }
    else if k > 0 { RisingPrefix(k - 1, k - 1); }
  }

  lemma {:induction false} RisingCount(k: nat, len: nat)
    ensures Count(Rising(k), len) == (if len == 15 then k else Count(HEAD, len))
  {
    hide Count;
    if k > 0 {
      RisingCount(k - 1, len);
      assert Rising(k)[..7 + k] == Rising(k - 1);
      CountLast(Rising(k), len);
    } else {
      HeadCount();
    }
  }

  lemma CountLast(lens: seq<nat>, len: nat)
    requires |lens| > 0
    ensures Count(lens, len) == Count(lens[..|lens| - 1], len) + (if lens[|lens| - 1] == len then 1 else 0)
  {}

  lemma HeadCount()
    ensures forall len :: 0 <= len <= 8 || len == 15 ==> Count(HEAD, len) == 0
    ensures Count(HEAD, 9) == 3 && forall len :: 10 <= len <= 14 ==> Count(HEAD, len) == 1
  {
    hide Count;
    forall len: nat
      ensures Count(HEAD, len) == (if len == 9 then 3 else if 10 <= len <= 14 then 1 else 0)
    {
      var h := HEAD;
      CountLast(h, len);
      CountLast(h[..7], len);
      CountLast(h[..6], len);
      CountLast(h[..5], len);
      CountLast(h[..4], len);
      CountLast(h[..3], len);
      CountLast(h[..2], len);
      CountLast(h[..1], len);
      assert h[..7][..6] == h[..6] && h[..6][..5] == h[..5] && h[..5][..4] == h[..4] && h[..4][..3] == h[..3];
      assert h[..3][..2] == h[..2] && h[..2][..1] == h[..1] && h[..1][..0] == h[..0] == [];
      CountNone(len);
    }
  }

  lemma CountNone(len: nat)
    ensures Count([], len) == 0
  {}

  /** Canonical codes of 15 bits start at 254. */
  lemma RisingFirst(k: nat)
    ensures FirstCode(Rising(k), 15) == 254 && FirstCode(Rising(k), 9) == 0
  {
    hide Count, Rising;
    HeadCount();
    forall len: nat
      ensures Count(Rising(k), len) == (if len == 15 then k else Count(HEAD, len))
    {
      RisingCount(k, len);
    }
    var lens := Rising(k);
    assert FirstCode(lens, 2) == 0;
    assert FirstCode(lens, 4) == 0;
    assert FirstCode(lens, 6) == 0;
    assert FirstCode(lens, 8) == 0;
    assert FirstCode(lens, 10) == 6;
    assert FirstCode(lens, 12) == 30;
    assert FirstCode(lens, 14) == 126;
  }

  lemma RisingCode(k: nat, r: nat)
    requires r < k
    ensures Rising(k)[8 + r] == 15 && CodeOf(Rising(k), 8 + r) == 254 + r
  {
    hide Count, FirstCode, Rising;
    RisingPrefix(k, r);
    RisingCount(r, 15);
    RisingFirst(k);
  }

  /** A byte whose prefix begins a code of 15 bits needs 128 slots. */
  lemma RisingSize(k: nat, r: nat, p: nat)
    requires r < k && Shr(7, 254 + r) == Msb(8, p) && Valid(Rising(k))
    ensures Size(Rising(k), p) == 128
  {
    hide CodeOf, Rising, Longest, Valid, Msb, Shr;
    RisingCode(k, r);
    assert Under(Rising(k), 8 + r, p);
    SizeAtMost(Rising(k), p);
    SevenAndEight();
    LongestUp(Rising(k), p);
  }

  lemma LongestUp(lens: seq<nat>, p: nat)
    requires Valid(lens)
    ensures forall s :: 0 <= s < |lens| && Under(lens, s, p) ==> Longest(lens, p, |lens|) >= lens[s]
    ensures Longest(lens, p, |lens|) <= 15
  {
    hide Under, KraftSum;
  }

  lemma {:induction false} DemandGrows(lens: seq<nat>, p: nat, n: nat)
    requires p < n
    ensures Demand(lens, n) >= Demand(lens, p) + Size(lens, p)
  {
    hide Size;
    if p + 1 < n { DemandGrows(lens, p, n - 1); }
  }

  /** 267 lengths with a Kraft sum far below one that ask for at least 514 slots: table building
      refuses them. */
  lemma RisingIsGreedy()
    ensures Valid(Rising(259)) && |Rising(259)| == 267 && Demand(Rising(259), 256) >= 514
  {
    hide Demand, Size, Rising, KraftSum, Valid, Msb, Shr;
    var lens := Rising(259);
    RisingValid(259);
    Mirrors();
    Quotients();
    RisingSize(259, 0, 128);
    RisingSize(259, 2, 64);
    RisingSize(259, 130, 192);
    RisingSize(259, 258, 32);
    RisingNine();
    DemandGrows(lens, 0, 32);
    DemandGrows(lens, 32, 64);
    DemandGrows(lens, 64, 128);
    DemandGrows(lens, 128, 192);
    DemandGrows(lens, 192, 256);
  }

  lemma Quotients()
    ensures Shr(7, 254) == 1 && Shr(7, 256) == 2 && Shr(7, 384) == 3 && Shr(7, 512) == 4
  {}

  lemma Mirrors()
    ensures Msb(8, 128) == 1 && Msb(8, 64) == 2 && Msb(8, 192) == 3 && Msb(8, 32) == 4
  {
    hide *;
    HighBits(4);
    HighBits(2);
    HighBits(6);
    HighBits(1);
  }

  /** A byte of three high bits, backwards. */
  lemma HighBits(h: nat)
    requires h < 8
    ensures Msb(8, 32 * h) == h / 4 + h / 2 % 2 * 2 + h % 2 * 4
  {
    hide Shr, Msb;
    MsbOf(5, 32 * h);
    assert Shl(5, h) == 32 * h by { ShlIsMul(5, h); assert Pow2(5) == 32; }
    Join(5, 0, h);
    MsbZero(5);
    MsbInjective(5, 32 * h, 0);
    LowSmall(5, 0);
    ShrShr(5, 1, 32 * h);
    ShrShr(5, 2, 32 * h);
    HalfTwice(h);
  }

  lemma MsbOf(n: nat, v: nat)
    ensures Msb(n + 3, v) == 8 * Msb(n, v) + 4 * (Shr(n, v) % 2) + 2 * (Shr(n + 1, v) % 2) + Shr(n + 2, v) % 2
  {
    hide Shr;
    assert Msb(n + 1, v) == 2 * Msb(n, v) + Bit(n, v);
    assert Msb(n + 2, v) == 2 * Msb(n + 1, v) + Bit(n + 1, v);
  }

  lemma HalfTwice(h: nat)
    ensures Shr(1, h) == h / 2 && Shr(2, h) == h / 4
  {
    assert Shr(1, h / 2) == h / 4;
  }

  lemma RisingValid(k: nat)
    requires k <= 32000
    ensures Valid(Rising(k))
  {
    hide Count, FirstCode, KraftSum, Pow2;
    RisingPrefix(k, 0);
    RisingFirst(k);
    RisingCount(k, 15);
    KraftIsCodeSpace(Rising(k));
    SevenAndEight();
    forall s | 0 <= s < |Rising(k)|
      ensures Rising(k)[s] <= 15
    {
      if s < 8 { assert Rising(k)[s] == Rising(k)[..8][s] == HEAD[s]; }
    }
  }

  lemma RisingNine()
    ensures Size(Rising(259), 0) >= 2
  {
    hide Count, FirstCode, Rising, Longest, KraftSum, Valid, Size, Shr, Msb;
    var lens := Rising(259);
    RisingPrefix(259, 0);
    assert lens[0] == lens[..8][0] == 9;
    RisingFirst(259);
    RisingValid(259);
    assert lens[..0] == [];
    CountNone(9);
    ZeroUnder(lens);
    LongestUp(lens, 0);
    AtLeastTwo(lens, 0);
  }

  lemma ZeroUnder(lens: seq<nat>)
    requires |lens| > 0 && lens[0] == 9 && CodeOf(lens, 0) == 0
    ensures Under(lens, 0, 0)
  {
    MsbZero(8);
    assert Shr(1, 0) == 0;
  }

  lemma AtLeastTwo(lens: seq<nat>, p: nat)
    requires Longest(lens, p, |lens|) >= 9
    ensures Size(lens, p) >= 2
  {
    hide Longest;
    Pow2Mono(1, Longest(lens, p, |lens|) - 8);
  }
}
