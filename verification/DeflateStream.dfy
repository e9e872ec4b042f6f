/** Whole deflate streams: blocks of every type up to the last (section 3.2.3 of RFC 1951). */
module DeflateStream {
  import opened Bits
  import opened Words
  import opened BitReader
  import opened Canonical
  import opened HuffmanTable
  import opened DeflateSpec
  import opened Inflate
  import opened DynamicBlock
  import opened StoredBlock
  import opened FixedTables

  /** Where a stored block starts: on the next byte boundary, or as elf_zlib_inflate has it, on the
      next one that is not the current position. */
  datatype Rule = Standard | AsCoded

  function StoredByte(rule: Rule, pos: nat): nat
  {
    if rule.Standard? then Boundary(pos) / 8 else pos / 8 + 1
  }

  ghost function StoredEnd(rule: Rule, data: seq<byte>, size: nat, pos: nat, out: seq<byte>): Outcome
  {
    var b := BlockAt(data, StoredByte(rule, pos));
    if b.Bytes? && |out| + b.len <= size
    then BlockEnd(8 * (b.from + b.len), out + data[b.from..b.from + b.len])
    else Reject
  }

  /** One block of the given type, its three header bits read. */
  ghost function OneBlock(rule: Rule, data: seq<byte>, size: nat, kind: nat, pos: nat, out: seq<byte>): (b: Outcome)
    ensures b.BlockEnd? ==> pos <= b.pos <= 8 * |data|
  {
    BlockGoesOn(FIXED_LIT, FIXED_DIST, data, size, pos, out);
    DynamicGoesOn(data, size, pos, out);
    if kind == 0 then StoredEnd(rule, data, size, pos, out)
    else if kind == 1 then Block(FIXED_LIT, FIXED_DIST, data, size, pos, out)
    else if kind == 2 then Dynamic(data, size, pos, out)
    else Reject
  }

  /** What a stream means: blocks until one is marked as the last. */
  ghost function Stream(rule: Rule, data: seq<byte>, size: nat, pos: nat, out: seq<byte>): Outcome
    decreases 8 * |data| - pos
  {
    var h := ReadBits(data, pos, 3);
    if !h.Got? then Reject
    else
      var b := OneBlock(rule, data, size, h.value / 2, pos + 3, out);
      if !b.BlockEnd? || h.value % 2 == 1 then b else Stream(rule, data, size, b.pos, b.out)
  }

  // ----- where the code agrees with the standard

  /** No stored block's header ends on a byte boundary. */
  ghost predicate Unaligned(data: seq<byte>, size: nat, pos: nat, out: seq<byte>)
    decreases 8 * |data| - pos
  {
    var h := ReadBits(data, pos, 3);
    h.Got? ==>
      && (h.value / 2 == 0 ==> (pos + 3) % 8 != 0)
      && (var b := OneBlock(Standard, data, size, h.value / 2, pos + 3, out);
          b.BlockEnd? && h.value % 2 == 0 ==> Unaligned(data, size, b.pos, b.out))
  }

  /** On such streams the code's reading is the standard's. */
  lemma {:induction false} RulesAgree(data: seq<byte>, size: nat, pos: nat, out: seq<byte>)
    requires Unaligned(data, size, pos, out)
    ensures Stream(AsCoded, data, size, pos, out) == Stream(Standard, data, size, pos, out)
    decreases 8 * |data| - pos
  {
    hide Block, Dynamic, BlockAt, ReadBits;
    var h := ReadBits(data, pos, 3);
    if h.Got? {
      var b := OneBlock(Standard, data, size, h.value / 2, pos + 3, out);
      SameByteIff(pos + 3);
      assert OneBlock(AsCoded, data, size, h.value / 2, pos + 3, out) == b;
      if b.BlockEnd? && h.value % 2 == 0 {
        RulesAgree(data, size, b.pos, b.out);
      }
    }
  }

  /** The two rules give the same byte if and only if the header does not end on a boundary. */
  lemma SameByteIff(pos: nat)
    ensures StoredByte(AsCoded, pos) == StoredByte(Standard, pos) <==> pos % 8 != 0
  {}

  // ----- the loop

  /** Re-aligning behind a stored block that ends at bit `end` reads past the input. */
  predicate Past(address: nat, size: nat, end: nat) { Padding(address + end / 8) > size - end / 8 }

  /** The bit position of the last fetch for a block from pos, behind its header, to end. A stored
      block fetches nothing but its header. */
  ghost function BlockFetch(data: seq<byte>, kind: nat, pos: nat, end: nat): int
  {
    if kind == 0 then pos - 3 else end - EndCode(data, kind, pos)
  }

  /** The length of the end-of-block code, where the type of block has one. */
  ghost function EndCode(data: seq<byte>, kind: nat, pos: nat): nat
  {
    if kind == 1 then EndBits(FIXED_LIT) else if kind == 2 then HeaderEndBits(data, pos) else 0
  }

  lemma BlockFetchIn(data: seq<byte>, size: nat, kind: nat, pos: nat, out: seq<byte>)
    ensures var b := OneBlock(AsCoded, data, size, kind, pos, out);
            b.BlockEnd? ==> pos - 3 <= BlockFetch(data, kind, pos, b.pos) <= b.pos
  {
    hide Block, Dynamic, Header, FixedLengths, BlockAt;
    BlockGoesOn(FIXED_LIT, FIXED_DIST, data, size, pos, out);
    DynamicGoesOn(data, size, pos, out);
  }

  /** The bounds check of a block that fits, or of one of its matches, is cut to 32 bits. */
  ghost predicate OneCut(data: seq<byte>, size: nat, kind: nat, pos: nat, out: seq<byte>)
  {
    if kind == 0 then StoredCut(BlockAt(data, StoredByte(AsCoded, pos)), |data|, |out|, size)
    else if kind == 1 then Cut(FIXED_LIT, FIXED_DIST, data, size, pos, out)
    else kind == 2 && DynamicCut(data, size, pos, out)
  }

  /** What decides how the loop ends: what the stream means, the type of its last block and the
      length of that block's end code, where the last fetch is, whether a dynamic block asks for
      too many slots, whether a bounds check is cut, whether re-aligning leaves the input, and
      whether it does so in front of another block. */
  datatype Fate = Fate(end: Outcome, kind: nat, endBits: nat, fetch: int, greedy: bool, cut: bool, over: bool,
                       lost: bool)

  ghost function OneFate(address: nat, data: seq<byte>, size: nat, kind: nat, pos: nat, out: seq<byte>): Fate
  {
    var b := OneBlock(AsCoded, data, size, kind, pos, out);
    Fate(b, kind, EndCode(data, kind, pos), if b.BlockEnd? then BlockFetch(data, kind, pos, b.pos) else pos,
         kind == 2 && GreedyHeader(data, pos), OneCut(data, size, kind, pos, out),
         kind == 0 && b.BlockEnd? && Past(address, |data|, b.pos), false)
  }

  ghost function FateOf(address: nat, data: seq<byte>, size: nat, pos: nat, out: seq<byte>): Fate
    decreases 8 * |data| - pos
  {
    var h := ReadBits(data, pos, 3);
    if !h.Got? then Fate(Reject, 3, 0, pos, false, false, false, false)
    else
      var f := OneFate(address, data, size, h.value / 2, pos + 3, out);
      if !f.end.BlockEnd? || h.value % 2 == 1 then f
      else
        var rest := FateOf(address, data, size, f.end.pos, f.end.out);
        rest.(greedy := f.greedy || rest.greedy, cut := f.cut || rest.cut,
              over := f.over || rest.over, lost := f.over || rest.lost)
  }

  lemma {:induction false} FateIsStream(address: nat, data: seq<byte>, size: nat, pos: nat, out: seq<byte>)
    ensures FateOf(address, data, size, pos, out).end == Stream(AsCoded, data, size, pos, out)
    decreases 8 * |data| - pos
  {
    hide OneBlock, OneCut, GreedyHeader, BlockFetch, Past;
    var h := ReadBits(data, pos, 3);
    if h.Got? {
      var b := OneBlock(AsCoded, data, size, h.value / 2, pos + 3, out);
      if b.BlockEnd? && h.value % 2 == 0 { FateIsStream(address, data, size, b.pos, b.out); }
    }
  }

  /** The last fetch is the last, and re-aligning leaves the input only near its end. */
  lemma {:induction false} FateIn(address: nat, data: seq<byte>, size: nat, pos: nat, out: seq<byte>)
    ensures var f := FateOf(address, data, size, pos, out);
            && (f.lost ==> f.over)
            && (f.end.BlockEnd? ==>
                  pos <= f.fetch <= f.end.pos <= 8 * |data| && (f.over ==> f.end.pos + 24 > 8 * |data|))
    decreases 8 * |data| - pos
  {
    hide OneBlock, OneCut, GreedyHeader, BlockFetch;
    var h := ReadBits(data, pos, 3);
    if h.Got? {
      var b := OneBlock(AsCoded, data, size, h.value / 2, pos + 3, out);
      BlockFetchIn(data, size, h.value / 2, pos + 3, out);
      if b.BlockEnd? && h.value % 2 == 0 { FateIn(address, data, size, b.pos, b.out); }
    }
  }

  /** How far the last fetch is from the end, by the type of the last block. */
  lemma {:induction false} FetchByKind(address: nat, data: seq<byte>, size: nat, pos: nat, out: seq<byte>)
    ensures var f := FateOf(address, data, size, pos, out);
            f.end.BlockEnd? ==>
              && f.kind < 3
              && (f.kind == 0 ==> f.fetch + 36 <= f.end.pos && f.end.pos % 8 == 0)
              && (f.kind == 1 ==> f.fetch + 7 == f.end.pos)
              && (f.kind == 2 ==> f.fetch + f.endBits == f.end.pos)
    decreases 8 * |data| - pos
  {
    hide Block, Dynamic, OneCut, GreedyHeader, FixedLengths, Past, HeaderEndBits;
    FixedAt(288, 256);
    var h := ReadBits(data, pos, 3);
    if h.Got? {
      var b := OneBlock(AsCoded, data, size, h.value / 2, pos + 3, out);
      if b.BlockEnd? && h.value % 2 == 0 { FetchByKind(address, data, size, b.pos, b.out); }
    }
  }

  /** Below 4 GiB no check is cut. */
  lemma {:induction false} SmallFateNotCut(address: nat, data: seq<byte>, size: nat, pos: nat, out: seq<byte>)
    requires |data| < TWO32 && size < TWO32
    ensures !FateOf(address, data, size, pos, out).cut
    decreases 8 * |data| - pos
  {
    hide OneBlock, OneCut, GreedyHeader, BlockFetch, Past;
    var h := ReadBits(data, pos, 3);
    if h.Got? {
      OneNotCut(data, size, h.value / 2, pos + 3, out);
      var b := OneBlock(AsCoded, data, size, h.value / 2, pos + 3, out);
      if b.BlockEnd? && h.value % 2 == 0 { SmallFateNotCut(address, data, size, b.pos, b.out); }
    }
  }

  lemma OneNotCut(data: seq<byte>, size: nat, kind: nat, pos: nat, out: seq<byte>)
    requires |data| < TWO32 && size < TWO32
    ensures !OneCut(data, size, kind, pos, out)
  {
    hide Cut, Header, FixedLengths, Fives, BlockAt, Cast;
    SmallNotCut(FIXED_LIT, FIXED_DIST, data, size, pos, out);
    var h, n := Header(data, pos), ReadSizes(data, pos).nlit;
    if h.Lengths? { SmallNotCut(h.lens[..n], h.lens[n..], data, size, h.pos, out); }
  }

  /** A stream that is refused: it is wrong, its last fetch finds too little, it asks for too many
      slots, or a bounds check is cut. */
  ghost predicate MayRefuse(f: Fate, address: nat, data: seq<byte>)
  {
    f.end.BlockEnd? ==> Missed(address, |data|, f.fetch) || f.greedy || f.cut
  }

  /** One block after its header bits, of any type. */
  method InflateOne(r: Reader, kind: nat, tlit: array<nat>, tdist: array<nat>,
                    out: array<byte>, pout0: nat)
    returns (ok: bool, pout: nat, over: bool)
    requires r.Valid() && r.bits > 0 && pout0 <= out.Length && kind < 4
    requires r.Position() >= 3 && !Missed(r.address, |r.data|, r.Position() - 3)
    requires tlit.Length == TABLE_SIZE && tdist.Length == TABLE_SIZE && tlit != tdist
    requires tlit as object != out && tdist as object != out
    modifies r, tlit, tdist, out
    ensures r.Loose() && (ok && !over ==> r.Valid()) && r.Position() >= old(r.Position()) && (ok ==> pout <= out.Length)
    ensures over ==> ok && kind == 0
    ensures var f := OneFate(r.address, r.data, out.Length, kind, old(r.Position()), old(out[..pout0]));
            f.end == NoCode ||
            (if ok then f.end == BlockEnd(r.Position(), out[..pout]) && !Missed(r.address, |r.data|, f.fetch) &&
                        !f.greedy && !f.cut && over == f.over
             else MayRefuse(f, r.address, r.data))
  {
    hide Block, Cut, Dynamic, DynamicCut, GreedyHeader, HeaderEndBits, BlockAt, FixedLengths, Fives, LitTable,
         DistTable, TableFor, Reach, Padding, Cast;
    pout, over := pout0, false;
    if kind == 3 {
      ok := false;
    } else if kind == 0 {
      ok, pout := CopyStored(r, out, pout);
      if ok {
        over := r.Align();
      }
    } else if kind == 1 {
      LitTableDecodes();
      DistTableDecodes();
      ok, pout := InflateBlock(r, LitTable(), DistTable(), FIXED_LIT, FIXED_DIST, out, pout);
    } else {
      ok, pout := InflateDynamic(r, tlit, tdist, out, pout);
    }
  }

  /** The loop over the blocks, for every stream that has a meaning. Success gives its output and
      position; it comes exactly if the stream is right, the last fetch finds a word, no code asks
      for too many slots, and no bounds check is cut. `over` tells that re-aligning read past the
      input, which is no failure in itself: only if more blocks follow is nothing said. */
  method InflateBlocks(r: Reader, tlit: array<nat>, tdist: array<nat>,
                       out: array<byte>, pout0: nat)
    returns (ok: bool, pout: nat, over: bool)
    requires r.Valid() && pout0 <= out.Length
    requires tlit.Length == TABLE_SIZE && tdist.Length == TABLE_SIZE && tlit != tdist
    requires tlit as object != out && tdist as object != out
    modifies r, tlit, tdist, out
    ensures r.Loose() && r.Position() >= old(r.Position()) && (ok ==> pout <= out.Length)
    ensures var f := FateOf(r.address, r.data, out.Length, old(r.Position()), old(out[..pout0]));
            f.end == Stream(AsCoded, r.data, out.Length, old(r.Position()), old(out[..pout0])) &&
            (f.end == NoCode ||
             (if ok then f.end == BlockEnd(r.Position(), out[..pout]) && !Missed(r.address, |r.data|, f.fetch) &&
                         !f.greedy && !f.cut && over == f.over
              else if over then f.over && f.lost
              else MayRefuse(f, r.address, r.data)))
  {
    hide FateOf, OneFate, MayRefuse, Stream, Missed;
    pout, over := pout0, false;
    var last := false;
    ghost var size, start, given := out.Length, r.Position(), out[..pout0];
    ghost var f := FateOf(r.address, r.data, size, start, given);
    FateIsStream(r.address, r.data, size, start, given);
    while !last
      invariant r.Loose() && r.Position() >= start && pout <= out.Length
      invariant !last ==> r.Valid() && !over
      invariant !last && f.end != NoCode ==> f == FateOf(r.address, r.data, size, r.Position(), out[..pout])
      invariant last && f.end != NoCode ==>
                  && f.end == BlockEnd(r.Position(), out[..pout]) && !Missed(r.address, |r.data|, f.fetch)
                  && !f.greedy && !f.cut && over == f.over
      decreases !last, 8 * |r.data| - r.Position()
    {
      ghost var pos, before := r.Position(), out[..pout];
      FateStep(f, r.address, r.data, size, pos, before);
      ok := r.Fetch();
      if !ok {
        TooNear(f, r.address, r.data, size, pos, before);
        return;
      }
      var header := TakeBits(r, 3);
      SmallHeader(r.data, pos);
      last := header % 2 == 1;
      ok, pout, over := InflateOne(r, header / 2, tlit, tdist, out, pout);
      if !ok {
        FailedBlock(f, r.address, r.data, size, pos, before);
        return;
      }
      if over && !last {
        return false, pout, true;
      }
    }
    ok := true;
  }

  lemma SmallHeader(data: seq<byte>, pos: nat)
    ensures Low(3, Rest(data, pos)) < 8
  {
    assert Pow2(3) == 8;
  }

  /** The fate, one block further. */
  lemma FateStep(f: Fate, address: nat, data: seq<byte>, size: nat, pos: nat, out: seq<byte>)
    requires f.end != NoCode ==> f == FateOf(address, data, size, pos, out)
    ensures var h := ReadBits(data, pos, 3);
            h.Got? && f.end != NoCode ==>
              var one := OneFate(address, data, size, h.value / 2, pos + 3, out);
              && one.end != NoCode
              && (one.end.BlockEnd? && h.value % 2 == 1 ==> f == one)
              && (one.end.BlockEnd? && h.value % 2 == 0 ==>
                    && (one.over ==> f.over && f.lost)
                    && (!one.greedy && !one.cut && !one.over ==>
                          f == FateOf(address, data, size, one.end.pos, one.end.out)))
  {
    hide OneFate;
  }

  lemma TooNear(f: Fate, address: nat, data: seq<byte>, size: nat, pos: nat, out: seq<byte>)
    requires Missed(address, |data|, pos) && (f.end != NoCode ==> f == FateOf(address, data, size, pos, out))
    ensures f.end == NoCode || MayRefuse(f, address, data)
  {
    hide FateOf;
    FateIn(address, data, size, pos, out);
  }

  /** A block that is refused makes the loop refuse the stream for the same reason. */
  lemma FailedBlock(f: Fate, address: nat, data: seq<byte>, size: nat, pos: nat, out: seq<byte>)
    requires f.end != NoCode ==> f == FateOf(address, data, size, pos, out)
    requires ReadBits(data, pos, 3).Got?
    requires var one := OneFate(address, data, size, ReadBits(data, pos, 3).value / 2, pos + 3, out);
             one.end == NoCode || MayRefuse(one, address, data)
    ensures f.end == NoCode || MayRefuse(f, address, data)
  {
    hide OneBlock, OneCut, GreedyHeader, BlockFetch, Past;
    var h := ReadBits(data, pos, 3);
    var b := OneBlock(AsCoded, data, size, h.value / 2, pos + 3, out);
    BlockFetchIn(data, size, h.value / 2, pos + 3, out);
    if b.BlockEnd? && h.value % 2 == 0 { FateIn(address, data, size, b.pos, b.out); }
  }
}
