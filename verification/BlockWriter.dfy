/** Writing compressed blocks (sections 3.2.3 and 3.2.5 of RFC 1951): literals and matches, by any codes.
    Reading a written block gives back what its tokens stand for. */
module BlockWriter {
  import opened Bits
  import opened Words
  import opened Canonical
  import opened BitReader
  import opened BitWriter
  import opened DeflateSpec
  import opened Lz77
  import Inflate

  // ----- the codes for lengths and distances tile their ranges

  /** Extra bits: none for the first two groups of `step` codes, then one more for each group. */
  function Extra(step: nat, i: nat): nat
    requires step > 0
  {
    if i < 2 * step then 0 else i / step - 1
  }

  /** Where code i starts: each one begins where the one before it ends. */
  function Start(first: nat, step: nat, i: nat): (s: nat)
    requires step > 0
    ensures s >= first
  {
    if i == 0 then first else Start(first, step, i - 1) + Pow2(Extra(step, i - 1))
  }

  lemma {:induction false} StartMono(first: nat, step: nat, i: nat, j: nat)
    requires step > 0 && i <= j
    ensures Start(first, step, i) <= Start(first, step, j)
  {
    if i < j { StartMono(first, step, i, j - 1); }
  }

  lemma LengthStep(i: nat)
    requires i < 28
    ensures LENGTH_EXTRA[i] == Extra(4, i) && LENGTH_BASE[0] == 3
    ensures LENGTH_BASE[i] + Pow2(LENGTH_EXTRA[i]) == if i < 27 then LENGTH_BASE[i + 1] else 259
  {
    hide Pow2;
    Inflate.Powers();
  }

  /** Lengths: four codes of a width, from 3 on. */
  lemma {:induction false} LengthsTile(i: nat)
    requires i < 28
    ensures LENGTH_BASE[i] == Start(3, 4, i) && LENGTH_EXTRA[i] == Extra(4, i)
  {
    hide Pow2, Extra, LENGTH_BASE, LENGTH_EXTRA;
    LengthStep(i);
    if i > 0 {
      LengthStep(i - 1);
      LengthsTile(i - 1);
    }
  }

  /** The last code stands for the greatest length, 258, alone. */
  lemma LastLength()
    ensures |LENGTH_BASE| == |LENGTH_EXTRA| == 29 && LENGTH_BASE[28] == 258 && LENGTH_EXTRA[28] == 0
    ensures Start(3, 4, 28) == 259
  {
    hide Pow2, Extra;
    LengthStep(27);
    LengthsTile(27);
  }

  lemma DistanceStep(i: nat)
    requires i < 30
    ensures DIST_EXTRA[i] == Extra(2, i) && DIST_BASE[0] == 1
    ensures DIST_BASE[i] + Pow2(DIST_EXTRA[i]) == if i < 29 then DIST_BASE[i + 1] else 32769
  {
    hide Pow2;
    Inflate.Powers();
  }

  /** Distances: two codes of a width, from 1 to 32768. */
  lemma {:induction false} DistancesTile(i: nat)
    requires i < 30
    ensures DIST_BASE[i] == Start(1, 2, i) && DIST_EXTRA[i] == Extra(2, i)
  {
    hide Pow2, Extra, DIST_BASE, DIST_EXTRA;
    DistanceStep(i);
    if i > 0 {
      DistanceStep(i - 1);
      DistancesTile(i - 1);
    }
  }

  lemma LastDistance()
    ensures |DIST_BASE| == |DIST_EXTRA| == 30 && Start(1, 2, 30) == 32769
  {
    hide Pow2, Extra;
    DistanceStep(29);
    DistancesTile(29);
  }

  /** The code whose part of the range holds x. */
  function Find(first: nat, step: nat, x: nat, i: nat): (r: nat)
    requires step > 0 && Start(first, step, i) <= x
    ensures Start(first, step, r) <= x < Start(first, step, r) + Pow2(Extra(step, r))
    decreases x - Start(first, step, i)
  {
    if x < Start(first, step, i + 1) then i else Find(first, step, x, i + 1)
  }

  lemma FindBelow(first: nat, step: nat, x: nat, n: nat)
    requires step > 0 && first <= x < Start(first, step, n)
    ensures Start(first, step, 0) == first && Find(first, step, x, 0) < n
  {
    var r := Find(first, step, x, 0);
    if r >= n { StartMono(first, step, n, r); }
  }

  // ----- tokens

  datatype Token = Literal(b: byte) | Copy(len: nat, dist: nat)

  function LengthCode(len: nat): (i: nat)
    requires 3 <= len <= 258
    ensures i < 29
  {
    hide Start, Extra, Pow2;
    LastLength();
    if len == 258 then 28 else FindBelow(3, 4, len, 28); Find(3, 4, len, 0)
  }

  function DistanceCode(dist: nat): (i: nat)
    requires 1 <= dist <= 32768
    ensures i < 30
  {
    hide Start, Extra, Pow2;
    LastDistance();
    FindBelow(1, 2, dist, 30);
    Find(1, 2, dist, 0)
  }

  /** The extra bits of a length: what is left of it above the start of its code. */
  function LengthBits(len: nat): (bits: seq<nat>)
    requires 3 <= len <= 258
    ensures Binary(bits)
  {
    var i := LengthCode(len);
    if len == 258 then [] else LowBits(Extra(4, i), len - Start(3, 4, i))
  }

  function DistanceBits(dist: nat): (bits: seq<nat>)
    requires 1 <= dist <= 32768
    ensures Binary(bits)
  {
    var i := DistanceCode(dist);
    LowBits(Extra(2, i), dist - Start(1, 2, i))
  }

  predicate HasCode(lens: seq<nat>, s: nat) { s < |lens| && lens[s] > 0 }

  /** The codes have one for every symbol that the token needs. */
  predicate Writable(lit: seq<nat>, dist: seq<nat>, t: Token)
  {
    match t
    case Literal(b) => HasCode(lit, b)
    case Copy(len, d) =>
      && 3 <= len <= 258 && 1 <= d <= 32768
      && HasCode(lit, 257 + LengthCode(len)) && HasCode(dist, DistanceCode(d))
  }

  function TokenBits(lit: seq<nat>, dist: seq<nat>, t: Token): (bits: seq<nat>)
    requires Writable(lit, dist, t)
    ensures Binary(bits)
  {
    match t
    case Literal(b) => CodeBits(lit, b)
    case Copy(len, d) =>
      CodeBits(lit, 257 + LengthCode(len)) + (LengthBits(len) + (CodeBits(dist, DistanceCode(d)) + DistanceBits(d)))
  }

  predicate AllWritable(lit: seq<nat>, dist: seq<nat>, tokens: seq<Token>)
  {
    HasCode(lit, 256) && forall i :: 0 <= i < |tokens| ==> Writable(lit, dist, tokens[i])
  }

  /** The tokens and the end of the block. */
  function BlockBits(lit: seq<nat>, dist: seq<nat>, tokens: seq<Token>): (bits: seq<nat>)
    requires AllWritable(lit, dist, tokens)
    ensures Binary(bits)
  {
    if |tokens| == 0 then CodeBits(lit, 256) else TokenBits(lit, dist, tokens[0]) + BlockBits(lit, dist, tokens[1..])
  }

  /** Distances stay inside the output, and the output inside the buffer. */
  predicate Fits(tokens: seq<Token>, out: seq<byte>, size: nat)
  {
    |tokens| > 0 ==>
      match tokens[0]
      case Literal(b) => |out| < size && Fits(tokens[1..], out + [b], size)
      case Copy(len, d) => 1 <= d <= |out| && |out| + len <= size && Fits(tokens[1..], LzCopy(out, d, len), size)
  }

  /** What the tokens stand for. */
  function Expand(tokens: seq<Token>, out: seq<byte>, size: nat): seq<byte>
    requires Fits(tokens, out, size)
  {
    if |tokens| == 0 then out
    else
      match tokens[0]
      case Literal(b) => Expand(tokens[1..], out + [b], size)
      case Copy(len, d) => Expand(tokens[1..], LzCopy(out, d, len), size)
  }

  // ----- reading back

  lemma LengthBack(data: seq<byte>, pos: nat, len: nat)
    requires 3 <= len <= 258 && Holds(data, pos, LengthBits(len))
    ensures ReadExtra(LENGTH_BASE, LENGTH_EXTRA, data, pos, LengthCode(len)) == Got(len, pos + |LengthBits(len)|)
  {
    hide Pow2, Extra, Start, Rest, Low;
    LastLength();
    var i := LengthCode(len);
    if len == 258 {
      LowZero(Rest(data, pos));
    } else {
      LengthsTile(i);
      NumberBack(data, pos, Extra(4, i), len - Start(3, 4, i));
    }
  }

  lemma DistanceBack(data: seq<byte>, pos: nat, d: nat)
    requires 1 <= d <= 32768 && Holds(data, pos, DistanceBits(d))
    ensures ReadExtra(DIST_BASE, DIST_EXTRA, data, pos, DistanceCode(d)) == Got(d, pos + |DistanceBits(d)|)
  {
    hide Pow2, Extra, Start, Rest, Low;
    var i := DistanceCode(d);
    DistancesTile(i);
    NumberBack(data, pos, Extra(2, i), d - Start(1, 2, i));
  }

  /** Every length and every distance, written by any codes, is read back. */
  lemma MatchBack(lit: seq<nat>, dist: seq<nat>, data: seq<byte>, pos: nat, len: nat, d: nat)
    requires Valid(lit) && Valid(dist) && Writable(lit, dist, Copy(len, d))
    requires Holds(data, pos, TokenBits(lit, dist, Copy(len, d)))
    ensures var s := 257 + LengthCode(len);
            && ReadSymbol(lit, data, pos) == Got(s, pos + lit[s])
            && ReadMatch(dist, data, pos + lit[s], s) == Match(len, d, pos + |TokenBits(lit, dist, Copy(len, d))|)
  {
    hide Binary, Valid, Holds, CodeBits, TokenBits, LengthBits, DistanceBits, ReadSymbol, ReadExtra, LengthCode,
         DistanceCode;
    var s, j := 257 + LengthCode(len), DistanceCode(d);
    MatchParts(lit, dist, data, pos, len, d);
    SymbolBack(lit, data, pos, s);
    LengthBack(data, pos + lit[s], len);
    SymbolBack(dist, data, pos + lit[s] + |LengthBits(len)|, j);
    DistanceBack(data, pos + lit[s] + |LengthBits(len)| + dist[j], d);
  }

  lemma MatchParts(lit: seq<nat>, dist: seq<nat>, data: seq<byte>, pos: nat, len: nat, d: nat)
    requires Writable(lit, dist, Copy(len, d)) && Holds(data, pos, TokenBits(lit, dist, Copy(len, d)))
    ensures var s, j, n := 257 + LengthCode(len), DistanceCode(d), |LengthBits(len)|;
            && |TokenBits(lit, dist, Copy(len, d))| == lit[s] + n + dist[j] + |DistanceBits(d)|
            && Holds(data, pos, CodeBits(lit, s)) && Holds(data, pos + lit[s], LengthBits(len))
            && Holds(data, pos + lit[s] + n, CodeBits(dist, j))
            && Holds(data, pos + lit[s] + n + dist[j], DistanceBits(d))
  {
    hide Binary, Holds, CodeBits, LengthBits, DistanceBits, LengthCode, DistanceCode;
    var a, b := CodeBits(lit, 257 + LengthCode(len)), LengthBits(len);
    var c, e := CodeBits(dist, DistanceCode(d)), DistanceBits(d);
    HoldsParts(data, pos, a, b + (c + e));
    HoldsParts(data, pos + |a|, b, c + e);
    HoldsParts(data, pos + |a| + |b|, c, e);
  }

  /** A written block is read back: it ends where its bits end, with what its tokens stand for. */
  lemma {:induction false} BlockBack(lit: seq<nat>, dist: seq<nat>, tokens: seq<Token>, data: seq<byte>, size: nat,
                                     pos: nat, out: seq<byte>)
    requires Valid(lit) && Valid(dist) && AllWritable(lit, dist, tokens) && Fits(tokens, out, size)
    requires Holds(data, pos, BlockBits(lit, dist, tokens))
    ensures Block(lit, dist, data, size, pos, out) ==
            BlockEnd(pos + |BlockBits(lit, dist, tokens)|, Expand(tokens, out, size))
    decreases |tokens|
  {
    hide Binary, Valid, Holds, CodeBits, TokenBits, ReadSymbol, ReadMatch, LzCopy, Writable;
    if |tokens| == 0 {
      SymbolBack(lit, data, pos, 256);
    } else {
      var t, rest := tokens[0], tokens[1..];
      var a := TokenBits(lit, dist, t);
      HoldsParts(data, pos, a, BlockBits(lit, dist, rest));
      match t
      case Literal(b) =>
        LiteralBack(lit, dist, data, pos, b);
        BlockBack(lit, dist, rest, data, size, pos + |a|, out + [b]);
      case Copy(len, d) =>
        CopySymbol(lit, dist, len, d);
        MatchBack(lit, dist, data, pos, len, d);
        BlockBack(lit, dist, rest, data, size, pos + |a|, LzCopy(out, d, len));
    }
  }

  lemma LiteralBack(lit: seq<nat>, dist: seq<nat>, data: seq<byte>, pos: nat, b: byte)
    requires Valid(lit) && Writable(lit, dist, Literal(b)) && Holds(data, pos, TokenBits(lit, dist, Literal(b)))
    ensures ReadSymbol(lit, data, pos) == Got(b, pos + |TokenBits(lit, dist, Literal(b))|)
  {
    hide Valid, Holds, CodeBits, ReadSymbol;
    SymbolBack(lit, data, pos, b);
  }

  lemma CopySymbol(lit: seq<nat>, dist: seq<nat>, len: nat, d: nat)
    requires Writable(lit, dist, Copy(len, d))
    ensures 3 <= len <= 258 && 1 <= d <= 32768 && 257 + LengthCode(len) < |lit|
  {}
}
