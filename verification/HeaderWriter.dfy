/** Writing dynamic blocks (section 3.2.7 of RFC 1951): any numbers of codes, and their lengths cut into runs
    in any way. Reading the header gives back the lengths, and reading the block what its tokens stand for. */
module HeaderWriter {
  import opened Bits
  import opened Words
  import opened Canonical
  import opened BitReader
  import opened BitWriter
  import opened BlockWriter
  import opened DeflateSpec
  import opened DynamicBlock
  import Inflate

  // ----- what the repeat codes mean

  /** Behind symbol 16 every new length equals the one before it; 17 and 18 give zeros. The number of new
      lengths is in the bits behind the symbol. */
  lemma RepeatsMean(cl: seq<nat>, data: seq<byte>, pos: nat, total: nat, lens: seq<nat>)
    requires |lens| < total && ReadStep(cl, data, pos, total, lens).Lengths? && ReadSymbol(cl, data, pos).value >= 16
    ensures var r, s := ReadStep(cl, data, pos, total, lens).lens, ReadSymbol(cl, data, pos);
            && |lens| < |r| && r[..|lens|] == lens
            && (s.value == 16 ==> |r| == |lens| + 3 + Low(2, Rest(data, s.pos)) <= |lens| + 6)
            && (s.value == 16 ==> |lens| > 0 && forall k :: |lens| <= k < |r| ==> r[k] == r[k - 1])
            && (s.value == 17 ==> |r| == |lens| + 3 + Low(3, Rest(data, s.pos)) <= |lens| + 10)
            && (s.value == 18 ==> |r| == |lens| + 11 + Low(7, Rest(data, s.pos)) <= |lens| + 138)
            && (s.value > 16 ==> s.value <= 18 && forall k :: |lens| <= k < |r| ==> r[k] == 0)
  {
    hide ReadSymbol, Low, Rest;
    Inflate.Powers();
  }

  // ----- the stored order

  /** First the repeat codes, then 0, then outward from 8. */
  function Outward(i: nat): (k: nat)
    requires i < 19
    ensures k < 19
  {
    if i < 3 then 16 + i else if i == 3 then 0
    else if i % 2 == 0 then 8 + (i - 4) / 2 else 8 - (i - 3) / 2
  }

  lemma OrderIsOutward(i: nat)
    requires i < 19
    ensures Order(i) == Outward(i)
  {}

  /** Where the length of code length code k is stored. */
  function Place(k: nat): (i: nat)
    requires k < 19
    ensures i < 19 && Outward(i) == k
  {
    if k >= 16 then k - 16 else if k == 0 then 3 else if k >= 8 then 4 + 2 * (k - 8) else 19 - 2 * k
  }

  lemma OutwardUnique(i: nat, j: nat)
    requires i < 19 && j < 19 && Outward(i) == Outward(j)
    ensures i == j
  {}

  // ----- runs of lengths

  datatype Run = One(v: nat) | Same(n: nat) | Zeros(n: nat)

  function Copies(v: nat, n: nat): (r: seq<nat>)
    ensures |r| == n && forall i :: 0 <= i < n ==> r[i] == v
  {
    if n == 0 then [] else [v] + Copies(v, n - 1)
  }

  /** The run can be written behind lens by the code cl. */
  predicate GoodRun(cl: seq<nat>, run: Run, lens: seq<nat>)
  {
    match run
    case One(v) => v < 16 && HasCode(cl, v)
    case Same(n) => |lens| > 0 && 3 <= n <= 6 && HasCode(cl, 16)
    case Zeros(n) => 3 <= n <= 138 && HasCode(cl, if n <= 10 then 17 else 18)
  }

  function RunBits(cl: seq<nat>, run: Run, lens: seq<nat>): (bits: seq<nat>)
    requires GoodRun(cl, run, lens)
    ensures Binary(bits)
  {
    match run
    case One(v) => CodeBits(cl, v)
    case Same(n) => CodeBits(cl, 16) + LowBits(2, n - 3)
    case Zeros(n) => if n <= 10 then CodeBits(cl, 17) + LowBits(3, n - 3) else CodeBits(cl, 18) + LowBits(7, n - 11)
  }

  /** The lengths behind the run. */
  function Behind(run: Run, lens: seq<nat>): (r: seq<nat>)
    requires run.Same? ==> |lens| > 0
    ensures |r| >= |lens|
  {
    match run
    case One(v) => lens + [v]
    case Same(n) => lens + Copies(lens[|lens| - 1], n)
    case Zeros(n) => lens + Copies(0, n)
  }

  predicate GoodRuns(cl: seq<nat>, runs: seq<Run>, lens: seq<nat>)
  {
    |runs| > 0 ==> GoodRun(cl, runs[0], lens) && GoodRuns(cl, runs[1..], Behind(runs[0], lens))
  }

  function RunsBits(cl: seq<nat>, runs: seq<Run>, lens: seq<nat>): (bits: seq<nat>)
    requires GoodRuns(cl, runs, lens)
    ensures Binary(bits)
  {
    if |runs| == 0 then [] else RunBits(cl, runs[0], lens) + RunsBits(cl, runs[1..], Behind(runs[0], lens))
  }

  function Unrolled(cl: seq<nat>, runs: seq<Run>, lens: seq<nat>): (r: seq<nat>)
    requires GoodRuns(cl, runs, lens)
    ensures |r| >= |lens|
  {
    if |runs| == 0 then lens else Unrolled(cl, runs[1..], Behind(runs[0], lens))
  }

  lemma RunBack(cl: seq<nat>, run: Run, data: seq<byte>, pos: nat, total: nat, lens: seq<nat>)
    requires Valid(cl) && GoodRun(cl, run, lens) && |lens| < total && |Behind(run, lens)| <= total
    requires Holds(data, pos, RunBits(cl, run, lens))
    ensures ReadStep(cl, data, pos, total, lens) == Lengths(pos + |RunBits(cl, run, lens)|, Behind(run, lens))
  {
    hide Binary, Valid, Holds, CodeBits, ReadSymbol, LowBits, Rest, Low;
    Inflate.Powers();
    match run
    case One(v) => SymbolBack(cl, data, pos, v);
    case Same(n) => SymbolAndBits(cl, data, pos, 16, 2, n - 3);
    case Zeros(n) =>
      if n <= 10 { SymbolAndBits(cl, data, pos, 17, 3, n - 3); } else { SymbolAndBits(cl, data, pos, 18, 7, n - 11); }
  }

  lemma SymbolAndBits(cl: seq<nat>, data: seq<byte>, pos: nat, s: nat, n: nat, x: nat)
    requires Valid(cl) && HasCode(cl, s) && x < Pow2(n) && Holds(data, pos, CodeBits(cl, s) + LowBits(n, x))
    ensures ReadSymbol(cl, data, pos) == Got(s, pos + cl[s])
    ensures ReadBits(data, pos + cl[s], n) == Got(x, pos + cl[s] + n)
  {
    hide Binary, Valid, Holds, ReadSymbol, CodeBits, LowBits, ReadBits;
    HoldsParts(data, pos, CodeBits(cl, s), LowBits(n, x));
    SymbolBack(cl, data, pos, s);
    NumberBack(data, pos + cl[s], n, x);
  }

  /** However the lengths are cut into runs, reading them gives them back. */
  lemma {:induction false} RunsBack(cl: seq<nat>, runs: seq<Run>, data: seq<byte>, pos: nat, total: nat, lens: seq<nat>)
    requires Valid(cl) && GoodRuns(cl, runs, lens) && |Unrolled(cl, runs, lens)| == total
    requires Holds(data, pos, RunsBits(cl, runs, lens))
    ensures ReadLengths(cl, data, pos, total, lens) ==
            Lengths(pos + |RunsBits(cl, runs, lens)|, Unrolled(cl, runs, lens))
    decreases |runs|
  {
    hide Binary, Valid, Holds, RunBits, ReadStep;
    if |runs| > 0 {
      var run, rest := runs[0], runs[1..];
      var a, b := RunBits(cl, run, lens), RunsBits(cl, rest, Behind(run, lens));
      HoldsParts(data, pos, a, b);
      RunBack(cl, run, data, pos, total, lens);
      RunsBack(cl, rest, data, pos + |a|, total, Behind(run, lens));
    }
  }

  /** Any lengths can be written: one by one, at least. */
  lemma {:induction false} OneByOne(cl: seq<nat>, lens: seq<nat>, done: seq<nat>) returns (runs: seq<Run>)
    requires forall i :: 0 <= i < |lens| ==> lens[i] < 16 && HasCode(cl, lens[i])
    ensures GoodRuns(cl, runs, done) && Unrolled(cl, runs, done) == done + lens
    decreases |lens|
  {
    if |lens| == 0 {
      runs := [];
      assert done + lens == done;
    } else {
      var rest := OneByOne(cl, lens[1..], done + [lens[0]]);
      runs := [One(lens[0])] + rest;
      assert runs[1..] == rest;
      assert done + [lens[0]] + lens[1..] == done + lens;
    }
  }

  // ----- the header

  /** The lengths of the first n code length codes in the stored order, three bits each. */
  function ClBits(cl: seq<nat>, n: nat): (bits: seq<nat>)
    requires |cl| == 19 && n <= 19
    ensures |bits| == 3 * n && Binary(bits)
  {
    if n == 0 then [] else ClBits(cl, n - 1) + LowBits(3, cl[Outward(n - 1)])
  }

  lemma {:induction false} ClBack(cl: seq<nat>, data: seq<byte>, pos: nat, n: nat, i: nat)
    requires |cl| == 19 && (forall k :: 0 <= k < 19 ==> cl[k] <= 7) && n <= 19 && i < 19
    requires Holds(data, pos, ClBits(cl, n))
    ensures CodeLengthCode(data, pos, n)[Outward(i)] == if i < n then cl[Outward(i)] else 0
  {
    hide Holds, LowBits, Low, Rest, Order, Outward;
    if n > 0 {
      HoldsParts(data, pos, ClBits(cl, n - 1), LowBits(3, cl[Outward(n - 1)]));
      ClBack(cl, data, pos, n - 1, i);
      Inflate.Powers();
      LowBack(data, pos + 3 * (n - 1), 3, cl[Outward(n - 1)]);
      OrderIsOutward(n - 1);
      if i != n - 1 && Outward(i) == Outward(n - 1) { OutwardUnique(i, n - 1); }
    }
  }

  lemma WholeClBack(cl: seq<nat>, data: seq<byte>, pos: nat, n: nat)
    requires |cl| == 19 && (forall k :: 0 <= k < 19 ==> cl[k] <= 7) && n <= 19
    requires Holds(data, pos, ClBits(cl, n)) && forall i :: n <= i < 19 ==> cl[Outward(i)] == 0
    ensures CodeLengthCode(data, pos, n) == cl
  {
    hide Holds, ClBits, CodeLengthCode, Outward;
    forall k: nat | k < 19
      ensures CodeLengthCode(data, pos, n)[k] == cl[k]
    {
      ClBack(cl, data, pos, n, Place(k));
    }
  }

  /** A header: how many codes there are of each kind, the code for the lengths, and the lengths. */
  datatype Head = Head(nlit: nat, ndist: nat, nclen: nat, cl: seq<nat>, runs: seq<Run>)

  ghost predicate GoodHead(h: Head)
  {
    && 257 <= h.nlit <= 286 && 1 <= h.ndist <= 30 && 4 <= h.nclen <= 19
    && |h.cl| == 19 && Valid(h.cl) && (forall k :: 0 <= k < 19 ==> h.cl[k] <= 7)
    && (forall i :: h.nclen <= i < 19 ==> h.cl[Outward(i)] == 0)
    && GoodRuns(h.cl, h.runs, []) && |Unrolled(h.cl, h.runs, [])| == h.nlit + h.ndist
  }

  ghost function HeadBits(h: Head): (bits: seq<nat>)
    requires GoodHead(h)
    ensures Binary(bits)
  {
    LowBits(5, h.nlit - 257) + (LowBits(5, h.ndist - 1) + (LowBits(4, h.nclen - 4) +
      (ClBits(h.cl, h.nclen) + RunsBits(h.cl, h.runs, []))))
  }

  lemma SizesBack(data: seq<byte>, pos: nat, nlit: nat, ndist: nat, nclen: nat, rest: seq<nat>)
    requires 257 <= nlit <= 286 && 1 <= ndist <= 30 && 4 <= nclen <= 19
    requires Holds(data, pos, LowBits(5, nlit - 257) + (LowBits(5, ndist - 1) + (LowBits(4, nclen - 4) + rest)))
    ensures ReadSizes(data, pos) == Sizes(nlit, ndist, nclen) && Holds(data, pos + 14, rest)
  {
    hide Holds, LowBits, Low, Rest;
    var a, b, c := LowBits(5, nlit - 257), LowBits(5, ndist - 1), LowBits(4, nclen - 4);
    HoldsParts(data, pos, a, b + (c + rest));
    HoldsParts(data, pos + 5, b, c + rest);
    HoldsParts(data, pos + 10, c, rest);
    Inflate.Powers();
    LowBack(data, pos, 5, nlit - 257);
    LowBack(data, pos + 5, 5, ndist - 1);
    LowBack(data, pos + 10, 4, nclen - 4);
  }

  /** A written header is read back. */
  lemma HeaderBack(h: Head, data: seq<byte>, pos: nat)
    requires GoodHead(h) && Holds(data, pos, HeadBits(h))
    ensures ReadSizes(data, pos) == Sizes(h.nlit, h.ndist, h.nclen)
    ensures Header(data, pos) == Lengths(pos + |HeadBits(h)|, Unrolled(h.cl, h.runs, []))
  {
    hide Binary, Valid, Holds, HeadBits, ReadSizes, ReadLengths, CodeLengthCode, GoodRuns, RunsBits, Unrolled, ClBits,
         Outward;
    HeadFits(h, data, pos);
    HeadParts(h, data, pos);
    WholeClBack(h.cl, data, pos + 14, h.nclen);
    RunsBack(h.cl, h.runs, data, pos + 14 + 3 * h.nclen, h.nlit + h.ndist, []);
  }

  lemma HeadParts(h: Head, data: seq<byte>, pos: nat)
    requires GoodHead(h) && Holds(data, pos, HeadBits(h))
    ensures ReadSizes(data, pos) == Sizes(h.nlit, h.ndist, h.nclen)
    ensures Holds(data, pos + 14, ClBits(h.cl, h.nclen))
    ensures Holds(data, pos + 14 + 3 * h.nclen, RunsBits(h.cl, h.runs, []))
  {
    hide Binary, Valid, Holds, LowBits, ReadSizes, GoodRuns, RunsBits, Unrolled, ClBits, Outward;
    var c, d := ClBits(h.cl, h.nclen), RunsBits(h.cl, h.runs, []);
    SizesBack(data, pos, h.nlit, h.ndist, h.nclen, c + d);
    HoldsParts(data, pos + 14, c, d);
  }

  lemma HeadFits(h: Head, data: seq<byte>, pos: nat)
    requires GoodHead(h) && Holds(data, pos, HeadBits(h))
    ensures |HeadBits(h)| == 14 + 3 * h.nclen + |RunsBits(h.cl, h.runs, [])| && pos + |HeadBits(h)| <= 8 * |data|
  {}

  // ----- the block

  /** The header gives both codes, and they have one for every symbol that the tokens need. */
  ghost predicate GoodDynamic(h: Head, tokens: seq<Token>)
  {
    && GoodHead(h)
    && var lens := Unrolled(h.cl, h.runs, []);
       Valid(lens[..h.nlit]) && Valid(lens[h.nlit..]) && AllWritable(lens[..h.nlit], lens[h.nlit..], tokens)
  }

  ghost function DynamicBits(h: Head, tokens: seq<Token>): (bits: seq<nat>)
    requires GoodDynamic(h, tokens)
    ensures Binary(bits)
  {
    var lens := Unrolled(h.cl, h.runs, []);
    HeadBits(h) + BlockBits(lens[..h.nlit], lens[h.nlit..], tokens)
  }

  /** A written dynamic block is read back. */
  lemma DynamicBack(h: Head, tokens: seq<Token>, data: seq<byte>, size: nat, pos: nat, out: seq<byte>)
    requires GoodDynamic(h, tokens) && Fits(tokens, out, size) && Holds(data, pos, DynamicBits(h, tokens))
    ensures Dynamic(data, size, pos, out) == BlockEnd(pos + |DynamicBits(h, tokens)|, Expand(tokens, out, size))
  {
    hide Binary, Valid, Holds, HeadBits, BlockBits, Unrolled, Block, Header, ReadSizes, Fits, Expand, GoodRuns;
    var lens := Unrolled(h.cl, h.runs, []);
    HoldsParts(data, pos, HeadBits(h), BlockBits(lens[..h.nlit], lens[h.nlit..], tokens));
    HeaderBack(h, data, pos);
    BlockBack(lens[..h.nlit], lens[h.nlit..], tokens, data, size, pos + |HeadBits(h)|, out);
  }
}
