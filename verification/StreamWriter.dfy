/** Writing whole deflate streams and zlib files (RFC 1951 and RFC 1950): any sequence of stored, fixed and
    dynamic blocks. What is written is read back, by the standard's reading and, unless a stored header ends on
    a byte boundary, by the code. */
module StreamWriter {
  import opened Bits
  import opened Words
  import opened BitReader
  import opened HuffmanTable
  import opened BitWriter
  import opened BlockWriter
  import opened HeaderWriter
  import opened DeflateSpec
  import opened DynamicBlock
  import opened StoredBlock
  import opened FixedTables
  import opened DeflateStream
  import opened Zlib
  import Adler32

  // ----- bytes

  function BytesBits(bytes: seq<byte>): (bits: seq<nat>)
    ensures |bits| == 8 * |bytes| && Binary(bits)
  {
    if |bytes| == 0 then [] else LowBits(8, bytes[0]) + BytesBits(bytes[1..])
  }

  lemma {:induction false} BytesBack(data: seq<byte>, p: nat, bytes: seq<byte>)
    requires Holds(data, 8 * p, BytesBits(bytes))
    ensures p + |bytes| <= |data| && data[p..p + |bytes|] == bytes
    decreases |bytes|
  {
    hide LowBits, BitAt, Rest, Low;
    if |bytes| > 0 {
      HoldsParts(data, 8 * p, LowBits(8, bytes[0]), BytesBits(bytes[1..]));
      assert Pow2(8) == 256;
      hide Holds, Pow2;
      LowBack(data, 8 * p, 8, bytes[0]);
      BytesBack(data, p + 1, bytes[1..]);
      ByteLow(data, p);
      assert data[p..p + |bytes|] == [data[p]] + data[p + 1..p + 1 + |bytes[1..]|];
    }
  }

  // ----- blocks

  datatype Part =
    | StoredPart(bytes: seq<byte>)
    | FixedPart(tokens: seq<Token>)
    | DynamicPart(head: Head, tokens: seq<Token>)

  /** The part can be written, and what it stands for fits behind out. */
  ghost predicate GoodPart(p: Part, out: seq<byte>, size: nat)
  {
    match p
    case StoredPart(bytes) => |bytes| <= 65535 && |out| + |bytes| <= size
    case FixedPart(tokens) => AllWritable(FIXED_LIT, FIXED_DIST, tokens) && Fits(tokens, out, size)
    case DynamicPart(h, tokens) => GoodDynamic(h, tokens) && Fits(tokens, out, size)
  }

  function Kind(p: Part): nat { if p.StoredPart? then 0 else if p.FixedPart? then 1 else 2 }

  /** The length of a stored block and its complement, low bytes first, and the bytes. */
  function StoredBytes(bytes: seq<byte>): seq<byte>
    requires |bytes| <= 65535
  {
    var n, c := |bytes|, 65535 - |bytes|;
    [n % 256, n / 256, c % 256, c / 256] + bytes
  }

  /** The bits behind the three header bits, which end at pos; a stored block goes on at the next byte. */
  ghost function PartBits(p: Part, pos: nat, out: seq<byte>, size: nat): (bits: seq<nat>)
    requires GoodPart(p, out, size)
    ensures Binary(bits)
  {
    match p
    case StoredPart(bytes) => Copies(0, (8 - pos % 8) % 8) + BytesBits(StoredBytes(bytes))
    case FixedPart(tokens) => BlockBits(FIXED_LIT, FIXED_DIST, tokens)
    case DynamicPart(h, tokens) => DynamicBits(h, tokens)
  }

  ghost function PartOut(p: Part, out: seq<byte>, size: nat): seq<byte>
    requires GoodPart(p, out, size)
  {
    match p
    case StoredPart(bytes) => out + bytes
    case FixedPart(tokens) => Expand(tokens, out, size)
    case DynamicPart(_, tokens) => Expand(tokens, out, size)
  }

  lemma StoredBack(data: seq<byte>, size: nat, pos: nat, out: seq<byte>, bytes: seq<byte>)
    requires GoodPart(StoredPart(bytes), out, size) && Holds(data, pos, PartBits(StoredPart(bytes), pos, out, size))
    ensures StoredEnd(Standard, data, size, pos, out) ==
            BlockEnd(pos + |PartBits(StoredPart(bytes), pos, out, size)|, out + bytes)
  {
    hide BytesBits, Holds, Copies, StoredBytes, Binary, BlockAt, Boundary;
    var pad, s := (8 - pos % 8) % 8, StoredBytes(bytes);
    var p := (pos + pad) / 8;
    Padded(pos);
    HoldsParts(data, pos, Copies(0, pad), BytesBits(s));
    BytesBack(data, p, s);
    SliceParts(data, p, s, bytes);
  }

  lemma Padded(pos: nat)
    ensures var pad := (8 - pos % 8) % 8; pos + pad == 8 * ((pos + pad) / 8) == Boundary(pos)
  {}

  lemma SliceParts(data: seq<byte>, p: nat, s: seq<byte>, bytes: seq<byte>)
    requires |bytes| <= 65535 && s == StoredBytes(bytes) && p + |s| <= |data| && data[p..p + |s|] == s
    ensures BlockAt(data, p) == Bytes(p + 4, |bytes|) && data[p + 4..p + 4 + |bytes|] == bytes && |s| == |bytes| + 4
  {
    var d := data[p..p + |s|];
    assert data[p] == d[0] && data[p + 1] == d[1] && data[p + 2] == d[2] && data[p + 3] == d[3];
    assert data[p + 4..p + 4 + |bytes|] == d[4..] == s[4..] == bytes;
  }

  /** One written block is read back. */
  lemma PartBack(p: Part, data: seq<byte>, size: nat, pos: nat, out: seq<byte>)
    requires GoodPart(p, out, size) && Holds(data, pos, PartBits(p, pos, out, size))
    ensures OneBlock(Standard, data, size, Kind(p), pos, out) ==
            BlockEnd(pos + |PartBits(p, pos, out, size)|, PartOut(p, out, size))
  {
    hide Holds, Block, Dynamic, StoredEnd, BlockBits, DynamicBits, Fits, Expand, AllWritable, GoodDynamic, BytesBits,
         FixedLengths, Fives;
    match p
    case StoredPart(bytes) => StoredBack(data, size, pos, out, bytes);
    case FixedPart(tokens) =>
      FixedComplete();
      BlockBack(FIXED_LIT, FIXED_DIST, tokens, data, size, pos, out);
    case DynamicPart(h, tokens) => DynamicBack(h, tokens, data, size, pos, out);
  }

  // ----- streams

  ghost predicate GoodParts(parts: seq<Part>, out: seq<byte>, size: nat)
  {
    |parts| > 0 && GoodPart(parts[0], out, size) &&
    (|parts| > 1 ==> GoodParts(parts[1..], PartOut(parts[0], out, size), size))
  }

  /** The three header bits: whether the block is the last, and its type. */
  function PartHead(last: bool, kind: nat): (bits: seq<nat>)
    ensures |bits| == 3 && Binary(bits)
  {
    [if last then 1 else 0] + LowBits(2, kind)
  }

  lemma BinaryJoin(a: seq<nat>, b: seq<nat>)
    requires Binary(a) && Binary(b)
    ensures Binary(a + b)
  {}

  ghost function StreamBits(parts: seq<Part>, pos: nat, out: seq<byte>, size: nat): (bits: seq<nat>)
    requires GoodParts(parts, out, size)
    ensures Binary(bits)
  {
    var p, last := parts[0], |parts| == 1;
    var body := PartBits(p, pos + 3, out, size);
    var rest := if last then [] else StreamBits(parts[1..], pos + 3 + |body|, PartOut(p, out, size), size);
    BinaryJoin(body, rest);
    BinaryJoin(PartHead(last, Kind(p)), body + rest);
    PartHead(last, Kind(p)) + (body + rest)
  }

  ghost function StreamOut(parts: seq<Part>, out: seq<byte>, size: nat): seq<byte>
    requires GoodParts(parts, out, size)
  {
    var o := PartOut(parts[0], out, size);
    if |parts| == 1 then o else StreamOut(parts[1..], o, size)
  }

  /** No stored block's header ends on a byte boundary. */
  ghost predicate OffBoundary(parts: seq<Part>, pos: nat, out: seq<byte>, size: nat)
    requires GoodParts(parts, out, size)
  {
    var p := parts[0];
    && (p.StoredPart? ==> (pos + 3) % 8 != 0)
    && (|parts| > 1 ==>
          OffBoundary(parts[1..], pos + 3 + |PartBits(p, pos + 3, out, size)|, PartOut(p, out, size), size))
  }

  lemma HeadBack(data: seq<byte>, pos: nat, last: bool, kind: nat)
    requires kind <= 3 && Holds(data, pos, PartHead(last, kind))
    ensures ReadBits(data, pos, 3) == Got((if last then 1 else 0) + 2 * kind, pos + 3)
  {
    hide Binary, Holds;
    var x := (if last then 1 else 0) + 2 * kind;
    assert LowBits(3, x) == [x % 2] + LowBits(2, x / 2);
    assert Pow2(3) == 8;
    NumberBack(data, pos, 3, x);
  }

  /** A written stream is read back. */
  lemma {:induction false} StreamBack(parts: seq<Part>, data: seq<byte>, size: nat, pos: nat, out: seq<byte>)
    requires GoodParts(parts, out, size) && Holds(data, pos, StreamBits(parts, pos, out, size))
    ensures Stream(Standard, data, size, pos, out) ==
            BlockEnd(pos + |StreamBits(parts, pos, out, size)|, StreamOut(parts, out, size))
    ensures OffBoundary(parts, pos, out, size) ==> Unaligned(data, size, pos, out)
    decreases |parts|
  {
    hide Binary, Holds, OneBlock, GoodPart, PartBits, PartOut, PartHead, ReadBits;
    var p, last := parts[0], |parts| == 1;
    var bits, o := PartBits(p, pos + 3, out, size), PartOut(p, out, size);
    var rest := if last then [] else StreamBits(parts[1..], pos + 3 + |bits|, o, size);
    HoldsParts(data, pos, PartHead(last, Kind(p)), bits + rest);
    HoldsParts(data, pos + 3, bits, rest);
    HeadBack(data, pos, last, Kind(p));
    PartBack(p, data, size, pos + 3, out);
    if !last { StreamBack(parts[1..], data, size, pos + 3 + |bits|, o); }
  }

  // ----- files

  /** A file: a zlib header without a dictionary, the stream from bit 16 on, and behind its last byte the checksum. */
  ghost predicate Written(data: seq<byte>, parts: seq<Part>, size: nat)
  {
    && GoodParts(parts, [], size) && |data| >= 2 && HeaderOk(data[0], data[1])
    && var bits := StreamBits(parts, 16, [], size);
       && Holds(data, 16, bits) && |data| == 2 + (|bits| + 7) / 8 + 4
       && data[|data| - 4..] == Adler32.CheckBytes(StreamOut(parts, [], size))
  }

  lemma WrittenIsFile(data: seq<byte>, parts: seq<Part>, size: nat)
    requires Written(data, parts, size)
    ensures FileOf(data, size, StreamOut(parts, [], size))
    ensures OffBoundary(parts, 16, [], size) ==> Unaligned(data, size, 16, [])
  {
    hide Stream, StreamBits, StreamOut, GoodParts, OffBoundary, Unaligned, Holds, HeaderOk, Adler32.CheckBytes;
    StreamBack(parts, data, size, 16, []);
  }

  /** What was written is inflated: the output is what the blocks stand for, unless one of the three exact
      reasons to refuse a right file holds. */
  method InflateWritten(data: seq<byte>, ghost parts: seq<Part>, tlit: array<nat>, tdist: array<nat>, out: array<byte>,
                        address: nat)
    returns (ok: bool)
    requires Written(data, parts, out.Length) && OffBoundary(parts, 16, [], out.Length)
    requires |StreamOut(parts, [], out.Length)| == out.Length
    requires tlit.Length == TABLE_SIZE && tdist.Length == TABLE_SIZE && tlit != tdist
    requires tlit as object != out && tdist as object != out
    modifies tlit, tdist, out
    ensures var f := BodyFate(address, data, out.Length);
            ok <==> !f.greedy && !f.cut && !ShortEnd(address, data, out.Length)
    ensures ok ==> out[..] == StreamOut(parts, [], out.Length)
  {
    assert GoodParts(parts, [], out.Length);
    hide Written, FileOf, Unaligned, StreamOut, GoodParts, OffBoundary, ShortEnd, BodyFate;
    WrittenIsFile(data, parts, out.Length);
    FileSize(data, out.Length, StreamOut(parts, [], out.Length));
    var over;
    ok, over := InflateAndVerify(data, tlit, tdist, out, address);
  }

  lemma FileSize(data: seq<byte>, size: nat, text: seq<byte>)
    requires FileOf(data, size, text)
    ensures |data| > 4
  {}

  // ----- such files exist

  /** The number that bits spell, lowest first. */
  function Spelled(bits: seq<nat>): (x: nat)
    requires Binary(bits)
    ensures x < Pow2(|bits|)
  {
    if |bits| == 0 then 0 else bits[0] + 2 * Spelled(bits[1..])
  }

  lemma {:induction false} SpelledBit(bits: seq<nat>, k: nat)
    requires Binary(bits) && k < |bits|
    ensures Spelled(bits) / Pow2(k) % 2 == bits[k]
  {
    Arithmetic(k, Spelled(bits));
    if k > 0 {
      SpelledBit(bits[1..], k - 1);
      Arithmetic(k - 1, Spelled(bits[1..]));
      assert Spelled(bits) / 2 == Spelled(bits[1..]);
    }
  }

  /** Bytes that hold the bits, the last one filled up with zeros. */
  function Pack(bits: seq<nat>): (bytes: seq<byte>)
    requires Binary(bits)
    ensures |bytes| == (|bits| + 7) / 8
  {
    assert Pow2(8) == 256;
    Pow2Mono(if |bits| <= 8 then |bits| else 8, 8);
    if |bits| == 0 then []
    else if |bits| <= 8 then [Spelled(bits)]
    else [Spelled(bits[..8])] + Pack(bits[8..])
  }

  lemma {:induction false} PackHolds(pre: seq<byte>, bits: seq<nat>, post: seq<byte>)
    requires Binary(bits)
    ensures Holds(pre + Pack(bits) + post, 8 * |pre|, bits)
    decreases |bits|
  {
    var data := pre + Pack(bits) + post;
    if |bits| > 8 {
      var a, b := bits[..8], bits[8..];
      var first := Spelled(a);
      PackHolds(pre + [first], b, post);
      assert pre + [first] + Pack(b) + post == data;
      hide Spelled, Pow2, Pack, Holds;
      FirstByte(data, |pre|, a);
      HoldsJoin(data, 8 * |pre|, a, b);
      assert a + b == bits;
    } else if |bits| > 0 {
      FirstByte(data, |pre|, bits);
    }
  }

  lemma FirstByte(data: seq<byte>, p: nat, bits: seq<nat>)
    requires Binary(bits) && |bits| <= 8 && p < |data| && data[p] == Spelled(bits)
    ensures Holds(data, 8 * p, bits)
  {
    hide Spelled, BitAt;
    forall i | 0 <= i < |bits|
      ensures BitAt(data, 8 * p + i) == bits[i]
    {
      FirstByteBit(data, p, bits, i);
    }
  }

  lemma FirstByteBit(data: seq<byte>, p: nat, bits: seq<nat>, i: nat)
    requires Binary(bits) && i < |bits| <= 8 && p < |data| && data[p] == Spelled(bits)
    ensures BitAt(data, 8 * p + i) == bits[i]
  {
    hide Spelled, Pow2;
    SpelledBit(bits, i);
    assert (8 * p + i) / 8 == p && (8 * p + i) % 8 == i;
  }

  ghost function FileFor(cmf: byte, flg: byte, parts: seq<Part>, size: nat): seq<byte>
    requires GoodParts(parts, [], size)
  {
    [cmf, flg] + Pack(StreamBits(parts, 16, [], size)) + Adler32.CheckBytes(StreamOut(parts, [], size))
  }

  /** Every sequence of blocks has its file, under every header. */
  lemma FileExists(cmf: byte, flg: byte, parts: seq<Part>, size: nat)
    requires GoodParts(parts, [], size) && HeaderOk(cmf, flg)
    ensures Written(FileFor(cmf, flg, parts, size), parts, size)
  {
    hide StreamBits, StreamOut, GoodParts, Pack, Holds, HeaderOk, Adler32.CheckBytes;
    var bits, check := StreamBits(parts, 16, [], size), Adler32.CheckBytes(StreamOut(parts, [], size));
    PackHolds([cmf, flg], bits, check);
    var data := FileFor(cmf, flg, parts, size);
    assert data[|data| - 4..] == check;
  }
}
