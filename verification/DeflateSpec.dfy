/** The meaning of a compressed deflate block (sections 3.2.3 and 3.2.5 of RFC 1951),
    stated on the bit stream with no tables and no buffering. */
module DeflateSpec {
  import opened Bits
  import opened Canonical
  import opened BitReader
  import opened Words
  import opened Lz77

  const LENGTH_BASE: seq<nat> :=
    [3, 4, 5, 6, 7, 8, 9, 10, 11, 13, 15, 17, 19, 23, 27, 31, 35, 43, 51, 59, 67, 83, 99, 115, 131, 163, 195, 227, 258]
  const LENGTH_EXTRA: seq<nat> :=
    [0, 0, 0, 0, 0, 0, 0, 0, 1, 1, 1, 1, 2, 2, 2, 2, 3, 3, 3, 3, 4, 4, 4, 4, 5, 5, 5, 5, 0]
  const DIST_BASE: seq<nat> :=
    [1, 2, 3, 4, 5, 7, 9, 13, 17, 25, 33, 49, 65, 97, 129, 193, 257, 385, 513, 769, 1025, 1537, 2049, 3073, 4097, 6145,
     8193, 12289, 16385, 24577]
  const DIST_EXTRA: seq<nat> :=
    [0, 0, 0, 0, 1, 1, 2, 2, 3, 3, 4, 4, 5, 5, 6, 6, 7, 7, 8, 8, 9, 9, 10, 10, 11, 11, 12, 12, 13, 13]

  /** Reading from the stream: a value and the new position, the end of the input, or bits
      that are no code. */
  datatype Read = Got(value: nat, pos: nat) | EndOfInput | NoSuchCode

  function ReadBits(data: seq<byte>, pos: nat, n: nat): Read
  {
    if pos + n <= 8 * |data| then Got(Low(n, Rest(data, pos)), pos + n) else EndOfInput
  }

  /** The symbol whose code is next. Lengths that are no prefix code have no codes. */
  ghost function ReadSymbol(lens: seq<nat>, data: seq<byte>, pos: nat): (r: Read)
    ensures r.Got? ==> pos < r.pos <= 8 * |data| && r.value < |lens| && r.pos == pos + lens[r.value]
  {
    if Valid(lens) && exists s: nat :: Matches(lens, s, Rest(data, pos)) then
      var s: nat :| Matches(lens, s, Rest(data, pos));
      if pos + lens[s] <= 8 * |data| then Got(s, pos + lens[s]) else EndOfInput
    else NoSuchCode
  }

  /** base[i] plus extra[i] more bits. */
  function ReadExtra(base: seq<nat>, extra: seq<nat>, data: seq<byte>, pos: nat, i: nat): (r: Read)
    requires i < |base| == |extra|
    ensures r.Got? ==> r.pos == pos + extra[i] && r.value >= base[i]
  {
    var r := ReadBits(data, pos, extra[i]);
    if r.Got? then Got(base[i] + r.value, r.pos) else r
  }

  /** A match is a length, which the literal/length symbol s starts, and a distance. */
  datatype Match = Match(len: nat, dist: nat, pos: nat) | Bad | NoDistanceCode

  ghost function ReadMatch(dist: seq<nat>, data: seq<byte>, pos: nat, s: nat): (r: Match)
    requires 257 <= s <= 285
    ensures r.Match? ==> r.pos >= pos && r.dist >= 1
  {
    match ReadExtra(LENGTH_BASE, LENGTH_EXTRA, data, pos, s - 257)
    case EndOfInput => Bad
    case NoSuchCode => Bad
    case Got(len, p) =>
      match ReadSymbol(dist, data, p)
      case EndOfInput => Bad
      case NoSuchCode => NoDistanceCode
      case Got(d, q) =>
        if d > 29 then Bad
        else
          match ReadExtra(DIST_BASE, DIST_EXTRA, data, q, d)
          case EndOfInput => Bad
          case NoSuchCode => Bad
          case Got(dd, e) => Match(len, dd, e)
  }

  /** The block ends at pos with this output, or holds bits that are no code, or is wrong
      in some other way (no end, symbols out of range, a distance before the start of the
      output, or more output than fits). */
  datatype Outcome = BlockEnd(pos: nat, out: seq<byte>) | NoCode | Reject

  ghost function Block(lit: seq<nat>, dist: seq<nat>, data: seq<byte>, size: nat, pos: nat, out: seq<byte>): Outcome
    decreases 8 * |data| - pos
  {
    match ReadSymbol(lit, data, pos)
    case EndOfInput => Reject
    case NoSuchCode => NoCode
    case Got(s, p) =>
      if s < 256 then
        if |out| < size then Block(lit, dist, data, size, p, out + [s]) else Reject
      else if s == 256 then BlockEnd(p, out)
      else if s > 285 then Reject
      else
        match ReadMatch(dist, data, p, s)
        case Bad => Reject
        case NoDistanceCode => NoCode
        case Match(len, d, e) =>
          if d <= |out| && |out| + len <= size
          then Block(lit, dist, data, size, e, LzCopy(out, d, len))
          else Reject
  }

  /** The length of the end-of-block code. */
  function EndBits(lit: seq<nat>): nat { if |lit| > 256 then lit[256] else 0 }

  /** Reading goes forward, and the end-of-block code comes last. */
  lemma {:induction false} BlockGoesOn(lit: seq<nat>, dist: seq<nat>, data: seq<byte>, size: nat, pos: nat,
                                       out: seq<byte>)
    ensures var r := Block(lit, dist, data, size, pos, out);
            r.BlockEnd? ==> pos + EndBits(lit) <= r.pos <= 8 * |data|
    decreases 8 * |data| - pos
  {
    hide ReadSymbol, ReadMatch, LzCopy;
    var r := Block(lit, dist, data, size, pos, out);
    if r.BlockEnd? {
      var Got(s, p) := ReadSymbol(lit, data, pos);
      if s < 256 {
        BlockGoesOn(lit, dist, data, size, p, out + [s]);
      } else if s != 256 {
        var Match(len, d, e) := ReadMatch(dist, data, p, s);
        BlockGoesOn(lit, dist, data, size, e, LzCopy(out, d, len));
      }
    }
  }
}
