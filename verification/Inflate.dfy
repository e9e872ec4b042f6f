/** The compressed-block loop of elf_zlib_inflate, proved against the meaning of the block. */
module Inflate {
  import opened Bits
  import opened Canonical
  import opened HuffmanTable
  import opened BitReader
  import opened DeflateSpec
  import opened Words
  import opened Lz77

  /** What the table lookup at a position gives, when the bits there are a code. */
  lemma SymbolRead(lens: seq<nat>, t: seq<nat>, data: seq<byte>, pos: nat, bits: nat, val: nat)
    requires Decodes(t, lens)
    requires 15 <= bits && val == Low(bits, Rest(data, pos)) && pos + bits <= 8 * |data|
    ensures var r := ReadSymbol(lens, data, pos);
            r == NoSuchCode || (r.Got? && Lookup(t, val) == (r.value, r.pos - pos))
  {
    var v := Rest(data, pos);
    if s: nat :| Valid(lens) && Matches(lens, s, v) {
      var r: nat :| Matches(lens, r, v) && (ReadSymbol(lens, data, pos) == Got(r, pos + lens[r]));
      MsbLow(lens[r], bits, v);
      assert Matches(lens, r, val);
    }
  }

  /** The table lookup, consuming the code. Even for bits that are no code, one to fifteen
      bits are consumed and the symbol is below 512. */
  method DecodeSymbol(r: Reader, t: seq<nat>, ghost lens: seq<nat>) returns (sym: nat)
    requires r.Valid() && r.bits >= 15 && Decodes(t, lens)
    modifies r
    ensures r.Valid() && old(r.Position()) < r.Position() <= 8 * |r.data| && sym < 512
    ensures var spec := ReadSymbol(lens, r.data, old(r.Position()));
            spec == NoSuchCode || spec == Got(sym, r.Position())
  {
    hide Low, Shr, Rest, ReadSymbol, Valid, TableFor;
    SymbolRead(lens, t, r.data, r.Position(), r.bits, r.val);
    LowEight(r.val);
    var e := t[Low(8, r.val)];
    var b, v := Width(e), Value(e);
    if !IsPointer(e) {
      sym := v;
      r.Drop(b + 1);
    } else {
      SmallWidth(b);
      e := t[v + 256 + Low(b, Shr(8, r.val))];
      b := Width(e);
      sym := Value(e);
      r.Drop(b + 8);
    }
  }

  /** The shift formula for lengths is the table of section 3.2.5 of RFC 1951. */
  lemma LengthFormula(sym: nat)
    requires 265 <= sym < 285
    ensures var x := sym - 265; var extra := x / 4 + 1;
            && LENGTH_EXTRA[sym - 257] == extra
            && LENGTH_BASE[sym - 257] == Shl(extra, x % 4) + 11 + Shl(3, Pow2(extra - 1) - 1)
  {
    hide Shl, Pow2;
    var x := sym - 265;
    var extra := x / 4 + 1;
    ShlIsMul(extra, x % 4);
    ShlIsMul(3, Pow2(extra - 1) - 1);
    Powers();
  }

  /** The shift formula for distances is the table of section 3.2.5 of RFC 1951. */
  lemma DistanceFormula(d: nat)
    requires 4 <= d <= 29
    ensures var x := d - 4; var extra := x / 2 + 1;
            && DIST_EXTRA[d] == extra
            && DIST_BASE[d] == Shl(extra, x % 2) + 5 + Shl(2, Pow2(extra - 1) - 1)
  {
    hide Shl, Pow2;
    var x := d - 4;
    var extra := x / 2 + 1;
    Shifted(extra);
    FourTimes(Pow2(extra - 1) - 1);
    Powers();
    if x % 2 == 0 { assert x == 2 * (extra - 1); } else { assert x == 2 * (extra - 1) + 1; }
  }

  lemma {:induction false} Shifted(n: nat)
    ensures Shl(n, 0) == 0 && Shl(n, 1) == Pow2(n)
  {
    if n > 0 { Shifted(n - 1); }
  }

  lemma FourTimes(v: nat)
    ensures Shl(2, v) == 4 * v
  {
    assert Shl(1, v) == 2 * v;
  }

  lemma Powers()
    ensures Pow2(0) == 1 && Pow2(1) == 2 && Pow2(2) == 4 && Pow2(3) == 8 && Pow2(4) == 16 && Pow2(5) == 32
         && Pow2(6) == 64 && Pow2(7) == 128 && Pow2(8) == 256 && Pow2(9) == 512 && Pow2(10) == 1024
         && Pow2(11) == 2048 && Pow2(12) == 4096 && Pow2(13) == 8192
  {}

  /** Take n bits as a number. */
  method TakeBits(r: Reader, n: nat) returns (x: nat)
    requires r.Valid() && n <= r.bits
    modifies r
    ensures r.Valid() && r.Position() == old(r.Position()) + n <= 8 * |r.data| && r.bits == old(r.bits) - n
    ensures ReadBits(r.data, old(r.Position()), n) == Got(x, r.Position())
  {
    LowLow(n, r.bits, Rest(r.data, r.Position()));
    x := Low(n, r.val);
    r.Drop(n);
  }

  /** Convert a literal/length symbol above 256 into a length. */
  method ReadLength(r: Reader, sym: nat) returns (ok: bool, len: nat)
    requires r.Valid() && 257 <= sym
    modifies r
    ensures r.Valid() && r.Position() >= old(r.Position())
    ensures ok ==> sym <= 285
    ensures ok ==> ReadExtra(LENGTH_BASE, LENGTH_EXTRA, r.data, old(r.Position()), sym - 257) == Got(len, r.Position())
    ensures !ok ==> r.Position() == old(r.Position()) && (sym > 285 || Missed(r.address, |r.data|, r.Position()))
  {
    hide Shl, Pow2, Low, Rest;
    LowZero(Rest(r.data, r.Position()));
    ok, len := true, 0;
    if sym < 265 {
      len := sym - 257 + 3;
    } else if sym == 285 {
      len := 258;
    } else if sym > 285 {
      ok := false;
    } else {
      ok, len := ReadLongLength(r, sym);
    }
  }

  /** The length codes with extra bits. */
  method ReadLongLength(r: Reader, sym: nat) returns (ok: bool, len: nat)
    requires r.Valid() && 265 <= sym < 285
    modifies r
    ensures r.Valid() && r.Position() >= old(r.Position())
    ensures if ok
            then ReadExtra(LENGTH_BASE, LENGTH_EXTRA, r.data, old(r.Position()), sym - 257) == Got(len, r.Position())
            else r.Position() == old(r.Position()) && Missed(r.address, |r.data|, r.Position())
  {
    hide Shl, Pow2, Low, Rest;
    len := 0;
    ok := r.Fetch();
    if ok {
      LengthFormula(sym);
      var x := sym - 265;
      var extra := x / 4 + 1;
      len := Shl(extra, x % 4);
      len := len + 11;
      len := len + Shl(3, Pow2(extra - 1) - 1);
      var more := TakeBits(r, extra);
      len := len + more;
    }
  }

  /** Read a distance symbol and convert it into a distance. */
  method ReadDistance(r: Reader, tdist: seq<nat>, ghost dist: seq<nat>) returns (ok: bool, d: nat)
    requires r.Valid() && Decodes(tdist, dist)
    modifies r
    ensures r.Valid() && r.Position() >= old(r.Position()) && (ok ==> d >= 1)
    ensures var sym := ReadSymbol(dist, r.data, old(r.Position()));
            sym == NoSuchCode ||
            (if ok then sym.Got? && sym.value <= 29 &&
               ReadExtra(DIST_BASE, DIST_EXTRA, r.data, sym.pos, sym.value) == Got(d, r.Position())
             else (sym.Got? && sym.value > 29) || Missed(r.address, |r.data|, r.Position()))
    ensures var sym := ReadSymbol(dist, r.data, old(r.Position())); !ok && sym.Got? ==> r.Position() <= sym.pos
  {
    hide Shl, Pow2, Low, Rest, Decodes;
    d := 0;
    ok := r.Fetch();
    if !ok {
      return;
    }
    var sym := DecodeSymbol(r, tdist, dist);
    LowZero(Rest(r.data, r.Position()));
    if sym == 0 {
      d := 1;
    } else if sym > 29 {
      ok := false;
    } else if sym < 4 {
      d := sym + 1;
    } else {
      ok, d := ReadFarDistance(r, sym);
    }
  }

  /** The distance codes with extra bits. */
  method ReadFarDistance(r: Reader, sym: nat) returns (ok: bool, d: nat)
    requires r.Valid() && 4 <= sym <= 29
    modifies r
    ensures r.Valid() && r.Position() >= old(r.Position()) && (ok ==> d >= 1)
    ensures if ok then ReadExtra(DIST_BASE, DIST_EXTRA, r.data, old(r.Position()), sym) == Got(d, r.Position())
            else r.Position() == old(r.Position()) && Missed(r.address, |r.data|, r.Position())
  {
    hide Shl, Pow2, Low, Rest;
    d := 0;
    ok := r.Fetch();
    if ok {
      DistanceFormula(sym);
      var x := sym - 4;
      var extra := x / 2 + 1;
      d := Shl(extra, x % 2);
      d := d + 5;
      d := d + Shl(2, Pow2(extra - 1) - 1);
      var more := TakeBits(r, extra);
      d := d + more;
    }
  }

  /** A whole match: its length, then its distance. */
  method ReadMatchCode(r: Reader, sym: nat, tdist: seq<nat>, ghost dist: seq<nat>)
    returns (ok: bool, len: nat, d: nat)
    requires r.Valid() && 257 <= sym && Decodes(tdist, dist)
    modifies r
    ensures r.Valid() && r.Position() >= old(r.Position()) && (ok ==> d >= 1 && sym <= 285)
    ensures sym <= 285 ==>
              var spec := ReadMatch(dist, r.data, old(r.Position()), sym);
              spec == NoDistanceCode ||
              (if ok then spec == Match(len, d, r.Position())
               else spec == Bad ||
                    (Missed(r.address, |r.data|, r.Position()) && (spec.Match? ==> r.Position() <= spec.pos)))
  {
    hide Decodes, ReadExtra, ReadSymbol;
    d := 0;
    ok, len := ReadLength(r, sym);
    if ok {
      ok, d := ReadDistance(r, tdist, dist);
    }
  }

  /** The bounds checks before a match is copied. The differences of pointers are cast to
      32 bits, so with 4 GiB of output or more a good match can be refused. */
  predicate CopyAllowed(pout: nat, size: nat, d: nat, len: nat)
    requires pout <= size
  {
    && (if d == 1 then pout != 0 else pout % TWO32 >= d)
    && (size - pout) % TWO32 >= len
  }

  /** A copy that is allowed fits. One that fits is refused if and only if the output so far is less
      than the distance above a positive multiple of 4 GiB, or the room left is less than the length
      above one. */
  lemma CopyAllowedIsFit(pout: nat, size: nat, d: nat, len: nat)
    requires pout <= size && d >= 1
    ensures CopyAllowed(pout, size, d, len) ==> d <= pout && pout + len <= size
    ensures d <= pout && pout + len <= size ==>
              (CopyAllowed(pout, size, d, len) <==>
                 !(d > 1 && JustAbove(pout, d)) && !JustAbove(size - pout, len))
  {}

  /** Less than n above a positive multiple of 4 GiB. */
  predicate JustAbove(x: nat, n: nat) { x >= TWO32 && x % TWO32 < n }

  /** The block has a match that fits and is refused all the same. */
  ghost predicate Cut(lit: seq<nat>, dist: seq<nat>, data: seq<byte>, size: nat, pos: nat, out: seq<byte>)
    decreases 8 * |data| - pos
  {
    match ReadSymbol(lit, data, pos)
    case EndOfInput => false
    case NoSuchCode => false
    case Got(s, p) =>
      if s < 256 then |out| < size && Cut(lit, dist, data, size, p, out + [s])
      else if s == 256 || s > 285 then false
      else
        match ReadMatch(dist, data, p, s)
        case Bad => false
        case NoDistanceCode => false
        case Match(len, d, e) =>
          && d <= |out| && |out| + len <= size
          && (!CopyAllowed(|out|, size, d, len) || Cut(lit, dist, data, size, e, LzCopy(out, d, len)))
  }

  /** The status of the loop: still on the meaning of the whole block, or already lost in
      bits that are no code. */
  ghost predicate OnTrack(whole: Outcome, cut: bool, lit: seq<nat>, dist: seq<nat>, data: seq<byte>, size: nat,
                          pos: nat, out: seq<byte>)
  {
    whole == NoCode || (whole == Block(lit, dist, data, size, pos, out) && cut == Cut(lit, dist, data, size, pos, out))
  }

  /** How the loop fails: the block is wrong, or the fetch in front of its end-of-block code,
      which is the last one, finds too little, or the bounds check of a copy is cut. */
  ghost predicate MayFail(whole: Outcome, cut: bool, lit: seq<nat>, address: nat, data: seq<byte>)
  {
    whole.BlockEnd? ==> Missed(address, |data|, whole.pos - EndBits(lit)) || cut
  }

  lemma FetchFailed(whole: Outcome, cut: bool, lit: seq<nat>, dist: seq<nat>, address: nat, data: seq<byte>, size: nat,
                    pos: nat, out: seq<byte>)
    requires OnTrack(whole, cut, lit, dist, data, size, pos, out) && Missed(address, |data|, pos)
    ensures MayFail(whole, cut, lit, address, data)
  {
    BlockGoesOn(lit, dist, data, size, pos, out);
  }

  /** One match of the block, and what the block then still means. */
  lemma BlockMatch(lit: seq<nat>, dist: seq<nat>, data: seq<byte>, size: nat, pos: nat, out: seq<byte>, sym: nat,
                   p: nat)
    requires ReadSymbol(lit, data, pos) == Got(sym, p) && 257 <= sym && p > pos
    ensures var b := Block(lit, dist, data, size, pos, out);
            if sym > 285 then b == Reject
            else match ReadMatch(dist, data, p, sym)
                 case Bad => b == Reject
                 case NoDistanceCode => b == NoCode
                 case Match(len, d, e) =>
                   && b == (if d <= |out| && |out| + len <= size
                            then Block(lit, dist, data, size, e, LzCopy(out, d, len)) else Reject)
                   && (b.BlockEnd? ==> e + EndBits(lit) <= b.pos)
                   && (d <= |out| && |out| + len <= size ==>
                         Cut(lit, dist, data, size, pos, out) ==
                         (!CopyAllowed(|out|, size, d, len) || Cut(lit, dist, data, size, e, LzCopy(out, d, len))))
  {
    if sym <= 285 && ReadMatch(dist, data, p, sym).Match? {
      var Match(len, d, e) := ReadMatch(dist, data, p, sym);
      if d <= |out| {
        BlockGoesOn(lit, dist, data, size, e, LzCopy(out, d, len));
      }
    }
  }

  /** The match branch of the loop. */
  method MatchStep(r: Reader, sym: nat, tdist: seq<nat>, ghost lit: seq<nat>, ghost dist: seq<nat>,
                   out: array<byte>, pout0: nat, ghost whole: Outcome, ghost cut: bool, ghost pos: nat)
    returns (ok: bool, pout: nat)
    requires r.Valid() && 257 <= sym && Decodes(tdist, dist) && pout0 <= out.Length
    requires pos < r.Position() && OnTrack(whole, cut, lit, dist, r.data, out.Length, pos, out[..pout0])
    requires whole == NoCode || ReadSymbol(lit, r.data, pos) == Got(sym, r.Position())
    modifies r, out
    ensures r.Valid() && r.Position() >= old(r.Position())
    ensures ok ==> pout0 <= pout <= out.Length
    ensures ok ==> OnTrack(whole, cut, lit, dist, r.data, out.Length, r.Position(), out[..pout])
    ensures !ok ==> MayFail(whole, cut, lit, r.address, r.data)
  {
    hide Decodes, ReadSymbol, ReadMatch, Block, Cut, LzCopy;
    pout := pout0;
    ghost var out0 := out[..pout0];
    if whole != NoCode {
      BlockMatch(lit, dist, r.data, out.Length, pos, out0, sym, r.Position());
    }
    var len, d;
    ok, len, d := ReadMatchCode(r, sym, tdist, dist);
    if ok {
      CopyAllowedIsFit(pout, out.Length, d, len);
      ok := CopyAllowed(pout, out.Length, d, len);
      if ok {
        pout := CopyMatch(out, pout, d, len);
      }
    }
  }

  /** Inflate one compressed block: the output grows by exactly what the block means and
      the reader stops exactly behind it. */
  method InflateBlock(r: Reader, tlit: seq<nat>, tdist: seq<nat>, ghost lit: seq<nat>, ghost dist: seq<nat>,
                      out: array<byte>, pout0: nat)
    returns (ok: bool, pout: nat)
    requires r.Valid() && pout0 <= out.Length
    requires Decodes(tlit, lit) && Decodes(tdist, dist)
    modifies r, out
    ensures r.Valid() && r.Position() >= old(r.Position()) && (ok ==> pout <= out.Length)
    ensures var whole := Block(lit, dist, r.data, out.Length, old(r.Position()), old(out[..pout0]));
            var cut := Cut(lit, dist, r.data, out.Length, old(r.Position()), old(out[..pout0]));
            whole == NoCode ||
            (if ok then pout <= out.Length && whole == BlockEnd(r.Position(), out[..pout]) && !cut &&
                        !Missed(r.address, |r.data|, whole.pos - EndBits(lit))
             else MayFail(whole, cut, lit, r.address, r.data))
  {
    hide Decodes, ReadSymbol, ReadMatch, Block, Cut, MayFail, Missed;
    pout := pout0;
    ghost var whole := Block(lit, dist, r.data, out.Length, r.Position(), out[..pout0]);
    ghost var cut := Cut(lit, dist, r.data, out.Length, r.Position(), out[..pout0]);
    while true
      invariant r.Valid() && r.Position() >= old(r.Position()) && pout <= out.Length
      invariant OnTrack(whole, cut, lit, dist, r.data, out.Length, r.Position(), out[..pout])
      decreases 8 * |r.data| - r.Position()
    {
      ghost var pos, before := r.Position(), out[..pout];
      ok := r.Fetch();
      if !ok {
        FetchFailed(whole, cut, lit, dist, r.address, r.data, out.Length, pos, before);
        return;
      }
      var sym := DecodeSymbol(r, tlit, lit);
      BlockSymbol(lit, dist, r.data, out.Length, pos, before);
      if sym < 256 {
        if pout == out.Length {
          RejectMayFail(whole, cut, lit, r.address, r.data);
          return false, pout;
        }
        out[pout] := sym;
        pout := pout + 1;
        assert out[..pout] == before + [sym];
      } else if sym == 256 {
        return true, pout;
      } else {
        ok, pout := MatchStep(r, sym, tdist, lit, dist, out, pout, whole, cut, pos);
        if !ok {
          return;
        }
      }
    }
  }

  lemma RejectMayFail(whole: Outcome, cut: bool, lit: seq<nat>, address: nat, data: seq<byte>)
    ensures !whole.BlockEnd? ==> MayFail(whole, cut, lit, address, data)
  {}

  /** The first symbol of a block. */
  lemma BlockSymbol(lit: seq<nat>, dist: seq<nat>, data: seq<byte>, size: nat, pos: nat, out: seq<byte>)
    ensures var b := Block(lit, dist, data, size, pos, out);
            match ReadSymbol(lit, data, pos)
            case NoSuchCode => b == NoCode
            case EndOfInput => b == Reject
            case Got(s, p) =>
              && (s < 256 ==> b == if |out| < size then Block(lit, dist, data, size, p, out + [s]) else Reject)
              && (s < 256 && |out| < size ==>
                    Cut(lit, dist, data, size, pos, out) == Cut(lit, dist, data, size, p, out + [s]))
              && (s == 256 ==> b == BlockEnd(p, out) && !Cut(lit, dist, data, size, pos, out))
  {
    hide ReadSymbol, ReadMatch, CopyAllowed, LzCopy;
  }

  /** Below 4 GiB no check is cut. */
  lemma {:induction false} SmallNotCut(lit: seq<nat>, dist: seq<nat>, data: seq<byte>, size: nat, pos: nat,
                                       out: seq<byte>)
    requires size < TWO32
    ensures !Cut(lit, dist, data, size, pos, out)
    decreases 8 * |data| - pos
  {
    hide ReadSymbol, ReadMatch, LzCopy;
    if ReadSymbol(lit, data, pos).Got? {
      var Got(s, p) := ReadSymbol(lit, data, pos);
      if s < 256 {
        SmallNotCut(lit, dist, data, size, p, out + [s]);
      } else if 257 <= s <= 285 && ReadMatch(dist, data, p, s).Match? {
        var Match(len, d, e) := ReadMatch(dist, data, p, s);
        if d <= |out| && |out| + len <= size {
          CopyAllowedIsFit(|out|, size, d, len);
          SmallNotCut(lit, dist, data, size, e, LzCopy(out, d, len));
        }
      }
    }
  }

  /** With complete codes there are no bits that are no code, so success always means the
      block was decoded. */
  lemma {:induction false} CompleteNeverNoCode(lit: seq<nat>, dist: seq<nat>, data: seq<byte>, size: nat, pos: nat,
                                               out: seq<byte>)
    requires Valid(lit) && KraftSum(lit) == Pow2(MAX_LENGTH)
    requires Valid(dist) && KraftSum(dist) == Pow2(MAX_LENGTH)
    ensures Block(lit, dist, data, size, pos, out) != NoCode
    decreases 8 * |data| - pos
  {
    hide Valid, KraftSum, Pow2;
    SymbolExists(lit, data, pos);
    if ReadSymbol(lit, data, pos).Got? {
      var Got(s, p) := ReadSymbol(lit, data, pos);
      if s < 256 {
        CompleteNeverNoCode(lit, dist, data, size, p, out + [s]);
      } else if 257 <= s <= 285 {
        CompleteMatch(dist, data, p, s);
        var m := ReadMatch(dist, data, p, s);
        if m.Match? && m.dist <= |out| && |out| + m.len <= size {
          CompleteNeverNoCode(lit, dist, data, size, m.pos, LzCopy(out, m.dist, m.len));
        }
      }
    }
  }

  lemma SymbolExists(lens: seq<nat>, data: seq<byte>, pos: nat)
    requires Valid(lens) && KraftSum(lens) == Pow2(MAX_LENGTH)
    ensures ReadSymbol(lens, data, pos) != NoSuchCode
    ensures ReadSymbol(lens, data, pos).Got? ==> ReadSymbol(lens, data, pos).pos > pos
  {
    var s := CompleteCode(lens, Rest(data, pos));
  }

  lemma CompleteMatch(dist: seq<nat>, data: seq<byte>, pos: nat, s: nat)
    requires 257 <= s <= 285 && Valid(dist) && KraftSum(dist) == Pow2(MAX_LENGTH)
    ensures ReadMatch(dist, data, pos, s) != NoDistanceCode
  {
    match ReadExtra(LENGTH_BASE, LENGTH_EXTRA, data, pos, s - 257)
    case EndOfInput =>
    case NoSuchCode =>
    case Got(len, p) => SymbolExists(dist, data, p);
  }
}
