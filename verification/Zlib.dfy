/** elf_zlib_inflate and elf_zlib_inflate_and_verify on a zlib stream (RFC 1950). */
module Zlib {
  import opened Words
  import opened BitReader
  import opened HuffmanTable
  import opened DeflateSpec
  import opened DeflateStream
  import Adler32

  /** The two header bytes of section 2.2: method 8, a window of at most 32K, no dictionary, and
      the check bits. */
  predicate HeaderOk(cmf: nat, flg: nat)
  {
    cmf % 16 == 8 && cmf / 16 <= 7 && flg / 32 % 2 == 0 && (cmf * 256 + flg) % 31 == 0
  }

  /** The same by the fields of section 2.2: deflate with every window up to 32K and every level is accepted
      with a check value that fits, and nothing with a dictionary. */
  lemma HeaderByFields(cm: nat, info: nat, level: nat, dictionary: nat, check: nat)
    requires cm < 16 && info < 16 && level < 4 && dictionary < 2 && check < 32
    ensures var cmf, flg := cm + 16 * info, check + 32 * dictionary + 64 * level;
            HeaderOk(cmf, flg) <==> cm == 8 && info <= 7 && dictionary == 0 && (256 * cmf + flg) % 31 == 0
  {
    var cmf, flg := cm + 16 * info, check + 32 * dictionary + 64 * level;
    assert cmf % 16 == cm && cmf / 16 == info;
    assert flg / 32 == dictionary + 2 * level && flg / 32 % 2 == dictionary;
    assert cmf * 256 + flg == 256 * cmf + flg;
  }

  /** The headers of the four levels are accepted; one with a dictionary, right otherwise, is refused. */
  lemma UsualHeaders()
    ensures HeaderOk(0x78, 0x01) && HeaderOk(0x78, 0x5e) && HeaderOk(0x78, 0x9c) && HeaderOk(0x78, 0xda)
    ensures (256 * 0x78 + 0xbb) % 31 == 0 && !HeaderOk(0x78, 0xbb)
  {}

  /** The deflate stream behind the header, as the code reads it. */
  ghost function Body(data: seq<byte>, size: nat): Outcome { Stream(AsCoded, data, size, 16, []) }

  ghost function BodyFate(address: nat, data: seq<byte>, size: nat): Fate { FateOf(address, data, size, 16, []) }

  /** One stream fills the input: behind it there is room for the checksum and no more. */
  ghost predicate Single(data: seq<byte>, size: nat)
  {
    |data| > 4 && HeaderOk(data[0], data[1]) && Body(data, size).BlockEnd? && Body(data, size).pos + 40 > 8 * |data|
  }

  /** The loop over streams. On a single stream, success means that the whole output buffer holds
      what the stream decodes to, and a failure is the block loop's or a length that differs. */
  method Inflate(data: seq<byte>, tlit: array<nat>, tdist: array<nat>,
                 out: array<byte>, address: nat)
    returns (ok: bool, over: bool)
    requires tlit.Length == TABLE_SIZE && tdist.Length == TABLE_SIZE && tlit != tdist
    requires tlit as object != out && tdist as object != out
    modifies tlit, tdist, out
    ensures |data| <= 4 ==> (ok <==> out.Length == 0) && !over
    ensures |data| > 4 && ok ==> HeaderOk(data[0], data[1]) && Body(data, out.Length) != Reject
    ensures Single(data, out.Length) ==>
              var f := BodyFate(address, data, out.Length);
              && (over ==> f.over)
              && if ok then out[..] == Body(data, out.Length).out && !Missed(address, |data|, f.fetch) &&
                            !f.greedy && !f.cut && over == f.over
                 else |Body(data, out.Length).out| < out.Length || f.lost || MayRefuse(f, address, data)
  {
    hide Body, BodyFate, HeaderOk, MayRefuse, Missed;
    var pin, pout := 0, 0;
    over := false;
    ghost var body, f, first := Body(data, out.Length), BodyFate(address, data, out.Length), true;
    while |data| - pin > 4
      invariant pin <= |data| && 0 <= pout <= out.Length
      invariant first ==> pin == 0 && pout == 0 && !over
      invariant !first ==> |data| > 4 && HeaderOk(data[0], data[1]) && body != Reject
      invariant !first && Single(data, out.Length) ==>
                  && |data| - pin <= 4 && out[..pout] == body.out && !Missed(address, |data|, f.fetch)
                  && !f.greedy && !f.cut && over == f.over
      decreases |data| - pin
    {
      if !HeaderOk(data[pin], data[pin + 1]) {
        return false, over;
      }
      var past;
      ok, pin, pout, past := InflateOne(data, pin, tlit, tdist, out, pout, address);
      over := over || past;
      if !ok {
        return;
      }
      first := false;
    }
    ok := pout == out.Length;
    if ok { assert out[..pout] == out[..]; }
  }

  /** One stream behind its header, which stands at pin. */
  method InflateOne(data: seq<byte>, pin0: nat, tlit: array<nat>, tdist: array<nat>,
                    out: array<byte>, pout0: nat, address: nat)
    returns (ok: bool, pin: nat, pout: nat, over: bool)
    requires pin0 + 4 < |data| && pout0 <= out.Length
    requires tlit.Length == TABLE_SIZE && tdist.Length == TABLE_SIZE && tlit != tdist
    requires tlit as object != out && tdist as object != out
    modifies tlit, tdist, out
    ensures ok ==> pin0 < pin <= |data| && pout <= out.Length
    ensures pin0 == 0 && pout0 == 0 ==>
              var f := BodyFate(address, data, out.Length);
              && f.end == Body(data, out.Length)
              && (f.end == NoCode ||
                  (if ok then f.end.BlockEnd? && f.end.out == out[..pout] && 8 * pin >= f.end.pos &&
                              !Missed(address, |data|, f.fetch) && !f.greedy && !f.cut && over == f.over
                   else if over then f.over && f.lost
                   else MayRefuse(f, address, data)))
  {
    hide FateOf, Stream, MayRefuse, Missed;
    var r := new Reader(data, address, pin0 + 2);
    var past := r.Align(); // at least three bytes are left here
    assert out[..0] == [];
    ok, pout, over := InflateBlocks(r, tlit, tdist, out, pout0);
    pin := r.pin;
  }

  /** The stream is followed by the four bytes of the checksum and nothing else. */
  ghost predicate FourBehind(data: seq<byte>, size: nat)
  {
    Single(data, size) && Boundary(Body(data, size).pos) + 32 == 8 * |data|
  }

  /** The stream ends in a dynamic block whose end code is so short, in an input that starts and ends
      so, that the fetch in front of that code does not find the word it wants. */
  ghost predicate ShortEnd(address: nat, data: seq<byte>, size: nat)
  {
    var f := BodyFate(address, data, size);
    f.kind == 2 && (address + |data|) % 4 == 3 &&
    f.end.BlockEnd? && f.endBits + (Boundary(f.end.pos) - f.end.pos) <= 6
  }

  /** With a checksum behind it, that is the only way for a stream to end too near the end of the
      input: one that ends in a stored or fixed block never does. Nor does re-aligning leave the
      input. */
  lemma NearIffShortEnd(address: nat, data: seq<byte>, size: nat)
    requires FourBehind(data, size)
    ensures var f := BodyFate(address, data, size);
            !f.over && !f.lost && (Missed(address, |data|, f.fetch) <==> ShortEnd(address, data, size))
  {
    hide FateOf, Stream, HeaderOk;
    FateIsStream(address, data, size, 16, []);
    FateIn(address, data, size, 16, []);
    FetchByKind(address, data, size, 16, []);
  }

  /** A zlib file of RFC 1950 whose deflate stream, by the standard, decodes to text: the header, the
      stream, and the checksum of the text. */
  ghost predicate FileOf(data: seq<byte>, size: nat, text: seq<byte>)
  {
    |data| > 4 && HeaderOk(data[0], data[1]) && data[|data| - 4..] == Adler32.CheckBytes(text) &&
    var b := Stream(Standard, data, size, 16, []);
    b.BlockEnd? && b.out == text && Boundary(b.pos) + 32 == 8 * |data|
  }

  lemma FileIsSingle(data: seq<byte>, size: nat, text: seq<byte>)
    requires FileOf(data, size, text) && Unaligned(data, size, 16, [])
    ensures FourBehind(data, size) && Body(data, size).out == text
    ensures data[|data| - 4..] == Adler32.CheckBytes(text)
  {
    hide Stream, Unaligned, Adler32.CheckBytes, HeaderOk;
    RulesAgree(data, size, 16, []);
  }

  /** Inflate, then check the last four bytes of the input. A file of the standard is accepted, with
      its text as output, if and only if the size is right and none of the stated reasons holds; only
      files with a stored block whose header ends on a byte boundary are not read as the standard
      has them. */
  method InflateAndVerify(data: seq<byte>, tlit: array<nat>, tdist: array<nat>,
                          out: array<byte>, address: nat)
    returns (ok: bool, over: bool)
    requires |data| >= 4
    requires tlit.Length == TABLE_SIZE && tdist.Length == TABLE_SIZE && tlit != tdist
    requires tlit as object != out && tdist as object != out
    modifies tlit, tdist, out
    ensures ok ==> data[|data| - 4..] == Adler32.CheckBytes(out[..])
    ensures Single(data, out.Length) && ok ==> out[..] == Body(data, out.Length).out
    ensures FourBehind(data, out.Length) ==>
              var body, f := Body(data, out.Length), BodyFate(address, data, out.Length);
              !over &&
              (ok <==> && |body.out| == out.Length && data[|data| - 4..] == Adler32.CheckBytes(body.out)
                       && !f.greedy && !f.cut && !ShortEnd(address, data, out.Length))
    ensures forall text :: FileOf(data, out.Length, text) && Unaligned(data, out.Length, 16, []) ==>
              var f := BodyFate(address, data, out.Length);
              && (ok ==> out[..] == text)
              && (ok <==> |text| == out.Length && !f.greedy && !f.cut && !ShortEnd(address, data, out.Length))
  {
    hide Body, BodyFate, HeaderOk, Missed, Adler32.CheckBytes, ShortEnd, FileOf, Unaligned;
    forall text | FileOf(data, out.Length, text) && Unaligned(data, out.Length, 16, [])
      ensures FourBehind(data, out.Length) && Body(data, out.Length).out == text
      ensures data[|data| - 4..] == Adler32.CheckBytes(text)
    {
      FileIsSingle(data, out.Length, text);
    }
    if FourBehind(data, out.Length) {
      NearIffShortEnd(address, data, out.Length);
      BodyEnds(address, data, out.Length);
    }
    ok, over := Inflate(data, tlit, tdist, out, address);
    if ok {
      ok := Adler32.VerifyChecksum(data[|data| - 4..], out[..]);
    }
  }

  lemma BodyEnds(address: nat, data: seq<byte>, size: nat)
    ensures BodyFate(address, data, size).end == Body(data, size)
  {
    FateIsStream(address, data, size, 16, []);
  }
}
