/** A dynamic deflate block as a whole: the header with its code lengths (section 3.2.7
    of RFC 1951), the tables built from them, and the compressed data. */
module DynamicBlock {
  import opened Bits
  import opened Canonical
  import opened HuffmanTable
  import opened HuffmanBuilder
  import opened DemandBound
  import opened SecondaryDemand
  import opened BitReader
  import opened DeflateSpec
  import opened Inflate
  import opened Words

  /** The order in which the lengths of the code length codes are stored. */
  const ORDER: seq<nat> := [16, 17, 18, 0, 8, 7, 9, 6, 10, 5, 11, 4, 12, 3, 13, 2, 14, 1, 15]

  function Order(i: nat): (k: nat)
    requires i < 19
    ensures k < 19
  {
    ORDER[i]
  }

  // ----- the meaning of the header

  /** The code length code after its first n stored lengths. */
  function CodeLengthCode(data: seq<byte>, pos: nat, n: nat): (cl: seq<nat>)
    requires n <= 19
    ensures |cl| == 19 && forall s :: 0 <= s < 19 ==> cl[s] <= 7
  {
    if n == 0 then seq(19, _ => 0)
    else
      assert Pow2(3) == 8;
      CodeLengthCode(data, pos, n - 1)[Order(n - 1) := Low(3, Rest(data, pos + 3 * (n - 1)))]
  }

  /** Code lengths read so far, or an error. */
  datatype Lengths = Lengths(pos: nat, lens: seq<nat>) | Undefined | Refused

  /** Append v to lens n times. */
  function Repeated(lens: seq<nat>, v: nat, n: nat): seq<nat>
  {
    lens + seq(n, _ => v)
  }

  /** A repeat count of base plus n more bits. */
  function ReadRepeat(data: seq<byte>, pos: nat, total: nat, lens: seq<nat>, v: nat, base: nat, n: nat): (r: Lengths)
    requires |lens| < total
    ensures r.Lengths? ==> pos <= r.pos <= 8 * |data| && |r.lens| <= total
  {
    match ReadBits(data, pos, n)
    case Got(x, p) => if |lens| + base + x <= total then Lengths(p, Repeated(lens, v, base + x)) else Refused
    case _ => Refused
  }

  /** One step: a length, or a repetition of the previous length or of zero. */
  ghost function ReadStep(cl: seq<nat>, data: seq<byte>, pos: nat, total: nat, lens: seq<nat>): (r: Lengths)
    requires |lens| < total
    ensures r.Lengths? ==> pos < r.pos <= 8 * |data| && |r.lens| <= total
  {
    match ReadSymbol(cl, data, pos)
    case NoSuchCode => Undefined
    case EndOfInput => Refused
    case Got(v, p) =>
      if v < 16 then Lengths(p, lens + [v])
      else if v == 16 then
        if |lens| == 0 then Refused else ReadRepeat(data, p, total, lens, lens[|lens| - 1], 3, 2)
      else if v == 17 then ReadRepeat(data, p, total, lens, 0, 3, 3)
      else if v == 18 then ReadRepeat(data, p, total, lens, 0, 11, 7)
      else Refused
  }

  /** All `total` code lengths. */
  ghost function ReadLengths(cl: seq<nat>, data: seq<byte>, pos: nat, total: nat, lens: seq<nat>): (r: Lengths)
    requires |lens| <= total
    ensures r.Lengths? ==> r.pos >= pos && |r.lens| == total
    decreases 8 * |data| - pos
  {
    if |lens| == total then Lengths(pos, lens)
    else
      match ReadStep(cl, data, pos, total, lens)
      case Undefined => Undefined
      case Refused => Refused
      case Lengths(p, l) => ReadLengths(cl, data, p, total, l)
  }

  /** The numbers of literal/length, distance and code length codes. */
  datatype Sizes = Sizes(nlit: nat, ndist: nat, nclen: nat)

  function ReadSizes(data: seq<byte>, pos: nat): (s: Sizes)
    ensures 257 <= s.nlit <= 288 && 1 <= s.ndist <= 32 && 4 <= s.nclen <= 19
  {
    assert Pow2(5) == 32 && Pow2(4) == 16;
    Sizes(Low(5, Rest(data, pos)) + 257, Low(5, Rest(data, pos + 5)) + 1, Low(4, Rest(data, pos + 10)) + 4)
  }

  /** The code lengths of the block whose header starts at pos. */
  ghost function Header(data: seq<byte>, pos: nat): (r: Lengths)
    ensures r.Lengths? ==> r.pos > pos && |r.lens| == ReadSizes(data, pos).nlit + ReadSizes(data, pos).ndist
  {
    var n := ReadSizes(data, pos);
    var p := pos + 14 + 3 * n.nclen;
    if p > 8 * |data| || n.nlit > 286 || n.ndist > 30 then Refused
    else
      ReadLengths(CodeLengthCode(data, pos + 14, n.nclen), data, p, n.nlit + n.ndist, [])
  }

  /** The whole block. The end-of-block symbol must have a code, and lengths that are no
      prefix code give the block no meaning. */
  ghost function Dynamic(data: seq<byte>, size: nat, pos: nat, out: seq<byte>): Outcome
  {
    match Header(data, pos)
    case Undefined => NoCode
    case Refused => Reject
    case Lengths(p, lens) =>
      var n := ReadSizes(data, pos).nlit;
      if lens[256] == 0 then Reject
      else if Valid(lens[..n]) && Valid(lens[n..]) then Block(lens[..n], lens[n..], data, size, p, out)
      else NoCode
  }

  /** The block has a match that fits and is refused all the same. */
  ghost predicate DynamicCut(data: seq<byte>, size: nat, pos: nat, out: seq<byte>)
  {
    var h, n := Header(data, pos), ReadSizes(data, pos).nlit;
    h.Lengths? && h.lens[256] != 0 && Cut(h.lens[..n], h.lens[n..], data, size, h.pos, out)
  }

  lemma DynamicGoesOn(data: seq<byte>, size: nat, pos: nat, out: seq<byte>)
    ensures var r := Dynamic(data, size, pos, out);
            r.BlockEnd? ==>
              && Header(data, pos).Lengths? && |Header(data, pos).lens| > 256
              && pos < Header(data, pos).pos &&
                 Header(data, pos).pos + Header(data, pos).lens[256] <= r.pos <= 8 * |data|
  {
    var h, n := Header(data, pos), ReadSizes(data, pos).nlit;
    if h.Lengths? {
      BlockGoesOn(h.lens[..n], h.lens[n..], data, size, h.pos, out);
    }
  }

  // ----- reading the header

  method ReadCounts(r: Reader) returns (ok: bool, n: Sizes)
    requires r.Valid()
    modifies r
    ensures r.Valid() && r.Position() >= old(r.Position())
    ensures ok ==> n == ReadSizes(r.data, old(r.Position())) && r.Position() == old(r.Position()) + 14
    ensures !ok ==> r.Position() == old(r.Position()) && Missed(r.address, |r.data|, r.Position())
  {
    n := Sizes(257, 1, 4);
    ok := r.Fetch();
    if ok {
      var nlit := TakeBits(r, 5);
      var ndist := TakeBits(r, 5);
      var nclen := TakeBits(r, 4);
      n := Sizes(nlit + 257, ndist + 1, nclen + 4);
    }
  }

  lemma NoCodeLengths(data: seq<byte>, pos: nat)
    ensures CodeLengthCode(data, pos, 0) == seq(19, _ => 0)
  {}

  lemma OneCodeLength(data: seq<byte>, pos: nat, n: nat)
    requires n < 19
    ensures CodeLengthCode(data, pos, n + 1) ==
              CodeLengthCode(data, pos, n)[Order(n) := Low(3, Rest(data, pos + 3 * n))]
  {}

  /** The lengths of the code length codes, five to a fetch. */
  method ReadCodeLengthCode(r: Reader, nclen: nat) returns (ok: bool, codebits: seq<nat>)
    requires r.Valid() && 4 <= nclen <= 19
    modifies r
    ensures r.Valid() && old(r.Position()) <= r.Position() <= old(r.Position()) + 3 * nclen
    ensures ok ==> codebits == CodeLengthCode(r.data, old(r.Position()), nclen)
    ensures ok ==> r.Position() == old(r.Position()) + 3 * nclen <= 8 * |r.data|
    ensures !ok ==> Missed(r.address, |r.data|, r.Position())
  {
    hide Low, Rest, CodeLengthCode, Order;
    ghost var pos := r.Position();
    codebits := seq(19, _ => 0);
    NoCodeLengths(r.data, pos);
    var i, left := 0, 0;
    while i < nclen
      invariant 0 <= i <= nclen && r.Valid() && r.Position() == pos + 3 * i <= 8 * |r.data|
      invariant 0 <= left < 5 && r.bits >= 3 * left
      invariant codebits == CodeLengthCode(r.data, pos, i)
    {
      if left == 0 {
        ok := r.Fetch();
        if !ok {
          return;
        }
        left := 5;
      }
      OneCodeLength(r.data, pos, i);
      var x := TakeBits(r, 3);
      codebits := codebits[Order(i) := x];
      i, left := i + 1, left - 1;
    }
    ok := true;
  }

  /** One code length symbol and what it appends. */
  method ReadLengthStep(r: Reader, t: seq<nat>, ghost cl: seq<nat>, total: nat, lens0: seq<nat>)
    returns (ok: bool, lens: seq<nat>)
    requires r.Valid() && (forall s :: 0 <= s < |cl| ==> cl[s] <= 7) && Decodes(t, cl)
    requires |lens0| < total
    modifies r
    ensures r.Valid() && r.Position() >= old(r.Position())
    ensures ok ==> r.Position() > old(r.Position()) && |lens0| < |lens| <= total
    ensures var spec := ReadStep(cl, r.data, old(r.Position()), total, lens0);
            spec == Undefined ||
            (if ok then spec == Lengths(r.Position(), lens)
             else spec == Refused || (r.Position() == old(r.Position()) && Missed(r.address, |r.data|, r.Position())))
  {
    hide Low, Rest, Decodes, Pow2, Msb;
    lens := lens0;
    ok := r.Fetch();
    if !ok {
      return;
    }
    TableSize(t, cl);
    ShortCode(cl, r.data, r.Position());
    SymbolRead(cl, t, r.data, r.Position(), r.bits, r.val);
    LowEight(r.val);
    var e := t[Low(8, r.val)];
    if IsPointer(e) {
      return false, lens;
    }
    r.Drop(Width(e) + 1);
    var v := Value(e);
    if v < 16 {
      lens := lens + [v];
    } else if v == 16 {
      if |lens| == 0 {
        return false, lens;
      }
      var c := TakeBits(r, 2);
      ok, lens := Append(lens, lens[|lens| - 1], 3 + c, total);
    } else if v == 17 {
      var c := TakeBits(r, 3);
      ok, lens := Append(lens, 0, 3 + c, total);
    } else if v == 18 {
      var c := TakeBits(r, 7);
      ok, lens := Append(lens, 0, 11 + c, total);
    } else {
      ok := false;
    }
  }

  lemma TableSize(t: seq<nat>, lens: seq<nat>)
    requires Decodes(t, lens)
    ensures |t| == TABLE_SIZE
  {}

  lemma ShortCode(cl: seq<nat>, data: seq<byte>, pos: nat)
    requires forall s :: 0 <= s < |cl| ==> cl[s] <= 7
    ensures var r := ReadSymbol(cl, data, pos); r.Got? ==> r.pos <= pos + 7
  {}

  /** The stores of a repetition, refused when they would pass the end. */
  method Append(lens0: seq<nat>, v: nat, c: nat, total: nat) returns (ok: bool, lens: seq<nat>)
    requires |lens0| <= total
    ensures ok <==> |lens0| + c <= total
    ensures lens == if ok then Repeated(lens0, v, c) else lens0
  {
    lens := lens0;
    ok := total - |lens| >= c;
    if ok {
      var i := 0;
      while i < c
        invariant 0 <= i <= c && lens == Repeated(lens0, v, i)
      {
        lens := lens + [v];
        i := i + 1;
      }
    }
  }

  /** All code lengths. */
  method ReadAllLengths(r: Reader, t: seq<nat>, ghost cl: seq<nat>, total: nat) returns (ok: bool, lens: seq<nat>)
    requires r.Valid() && (forall s :: 0 <= s < |cl| ==> cl[s] <= 7) && Decodes(t, cl)
    modifies r
    ensures r.Valid() && r.Position() >= old(r.Position()) && (ok ==> |lens| == total)
    ensures var spec := ReadLengths(cl, r.data, old(r.Position()), total, []);
            spec == Undefined ||
            (if ok then spec == Lengths(r.Position(), lens)
             else spec == Refused || (Missed(r.address, |r.data|, r.Position()) && spec.pos >= r.Position()))
  {
    hide Decodes, ReadStep;
    lens := [];
    ghost var spec := ReadLengths(cl, r.data, r.Position(), total, []);
    while |lens| < total
      invariant r.Valid() && |lens| <= total && r.Position() >= old(r.Position())
      invariant spec == Undefined || spec == ReadLengths(cl, r.data, r.Position(), total, lens)
      decreases total - |lens|
    {
      ok, lens := ReadLengthStep(r, t, cl, total, lens);
      if !ok {
        return;
      }
    }
    ok := true;
  }

  lemma {:induction false} NoLongNoDemand(lens: seq<nat>, n: nat)
    requires forall s :: 0 <= s < |lens| ==> lens[s] <= 8
    ensures Demand(lens, n) == 0
  {
    if n > 0 { NoLongNoDemand(lens, n - 1); }
  }

  lemma NoPrefixCode(cl: seq<nat>, data: seq<byte>, pos: nat, total: nat)
    requires !Valid(cl) && total > 0
    ensures ReadLengths(cl, data, pos, total, []) == Undefined
  {}

  /** The header: the code lengths, literal/length codes first. */
  method ReadHeader(r: Reader, table: array<nat>) returns (ok: bool, nlit: nat, lens: seq<nat>)
    requires r.Valid() && table.Length == TABLE_SIZE
    modifies r, table
    ensures r.Valid() && r.Position() >= old(r.Position())
    ensures ok ==> 257 <= nlit <= 286 && nlit < |lens| <= nlit + 30
    ensures var spec := Header(r.data, old(r.Position()));
            spec == Undefined ||
            (if ok then spec == Lengths(r.Position(), lens) && nlit == ReadSizes(r.data, old(r.Position())).nlit
             else spec == Refused || (Missed(r.address, |r.data|, r.Position()) && spec.pos >= r.Position()))
  {
    hide ReadSizes, CodeLengthCode, ReadLengths, Demand, Valid, TableFor;
    nlit, lens := 0, [];
    var n, codebits;
    ok, n := ReadCounts(r);
    if !ok {
      return;
    }
    if n.nlit > 286 || n.ndist > 30 {
      return false, nlit, lens;
    }
    nlit := n.nlit;
    ok, codebits := ReadCodeLengthCode(r, n.nclen);
    if !ok {
      return;
    }
    NoLongNoDemand(codebits, 256);
    ok := BuildTable(codebits, table);
    if !ok {
      NoPrefixCode(codebits, r.data, r.Position(), n.nlit + n.ndist);
      return;
    }
    ok, lens := ReadAllLengths(r, table[..], codebits, n.nlit + n.ndist);
  }

  /** A code in the header at pos needs more than the 512 secondary slots of a table. */
  ghost predicate GreedyHeader(data: seq<byte>, pos: nat)
  {
    var h := Header(data, pos);
    var n := ReadSizes(data, pos).nlit;
    h.Lengths? && (Demand(h.lens[..n], 256) > VALUES || Demand(h.lens[n..], 256) > VALUES)
  }

  /** Complete literal codes do not, nor do distance codes. */
  lemma CompleteNotGreedy(data: seq<byte>, pos: nat)
    requires Header(data, pos).Lengths?
    requires var h, n := Header(data, pos), ReadSizes(data, pos).nlit;
             Valid(h.lens[..n]) && KraftSum(h.lens[..n]) == Pow2(MAX_LENGTH) && Valid(h.lens[n..])
    ensures !GreedyHeader(data, pos)
  {
    hide Demand, Valid, KraftSum, Pow2, ReadLengths, CodeLengthCode;
    var h, n := Header(data, pos), ReadSizes(data, pos).nlit;
    DemandAtMost(h.lens[..n]);
    DemandAtMost(h.lens[n..]);
  }

  /** The length of the end-of-block code in the header at pos. */
  ghost function HeaderEndBits(data: seq<byte>, pos: nat): nat
  {
    var h := Header(data, pos);
    if h.Lengths? then EndBits(h.lens) else 0
  }

  /** How a block that has a meaning is refused all the same: the last fetch finds too little, a code
      needs more than 512 secondary slots, or the bounds check of a copy is cut. */
  ghost predicate DynamicMayFail(whole: Outcome, cut: bool, address: nat, data: seq<byte>, pos: nat)
  {
    whole.BlockEnd? ==>
      Missed(address, |data|, whole.pos - HeaderEndBits(data, pos)) || GreedyHeader(data, pos) || cut
  }

  /** The tables for the data of the block. */
  method BuildBoth(lens: seq<nat>, nlit: nat, tlit: array<nat>, tdist: array<nat>) returns (ok: bool)
    requires 257 <= nlit <= 286 && nlit < |lens| <= nlit + 30
    requires tlit.Length == TABLE_SIZE && tdist.Length == TABLE_SIZE && tlit != tdist
    modifies tlit, tdist
    ensures ok ==> Decodes(tlit[..], lens[..nlit]) && Decodes(tdist[..], lens[nlit..])
    ensures Valid(lens[..nlit]) && Valid(lens[nlit..]) ==>
              (ok <==> Demand(lens[..nlit], 256) <= VALUES && Demand(lens[nlit..], 256) <= VALUES)
  {
    hide Valid, TableFor, Demand;
    ok := BuildTable(lens[..nlit], tlit);
    if ok {
      ok := BuildTable(lens[nlit..], tdist);
    }
  }

  /** A dynamic block from its header to its end: for every input, either the stream holds
      bits to which no code belongs, or success means exactly the output and the end
      position that the format defines, and refusal means one of the stated reasons. */
  method InflateDynamic(r: Reader, tlit: array<nat>, tdist: array<nat>, out: array<byte>, pout0: nat)
    returns (ok: bool, pout: nat)
    requires r.Valid() && pout0 <= out.Length
    requires tlit.Length == TABLE_SIZE && tdist.Length == TABLE_SIZE && tlit != tdist
    requires tlit as object != out && tdist as object != out
    modifies r, tlit, tdist, out
    ensures r.Valid() && r.Position() >= old(r.Position()) && (ok ==> pout <= out.Length)
    ensures var whole := Dynamic(r.data, out.Length, old(r.Position()), old(out[..pout0]));
            var cut := DynamicCut(r.data, out.Length, old(r.Position()), old(out[..pout0]));
            whole == NoCode ||
            (if ok then pout <= out.Length && whole == BlockEnd(r.Position(), out[..pout]) && !cut &&
                        !Missed(r.address, |r.data|, whole.pos - HeaderEndBits(r.data, old(r.Position()))) &&
                        !GreedyHeader(r.data, old(r.Position()))
             else DynamicMayFail(whole, cut, r.address, r.data, old(r.Position())))
  {
    hide Header, Block, Cut, ReadSizes, Demand, Valid, Decodes, Reach;
    pout := pout0;
    ghost var pos := r.Position();
    var nlit, lens;
    DynamicGoesOn(r.data, out.Length, pos, out[..pout0]);
    ok, nlit, lens := ReadHeader(r, tlit);
    assert out[..pout0] == old(out[..pout0]);
    if !ok {
      return;
    }
    if lens[256] == 0 {
      return false, pout;
    }
    ok := BuildBoth(lens, nlit, tlit, tdist);
    if !ok {
      return;
    }
    ok, pout := InflateBlock(r, tlit[..], tdist[..], lens[..nlit], lens[nlit..], out, pout);
  }
}
