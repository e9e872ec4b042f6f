/** The match copy of the LZMA decoder. Distances are stored less one in 32 bits, and `dist[0] + 1`
    is computed in 32 bits wherever it stands. */
module LzmaCopy {
  import opened Bits
  import opened Words
  import opened Lz77

  const LAST: nat := 0xffff_ffff

  /** dist[0] + 1, as the source computes it. */
  function Next(dist: nat): (d: nat)
    ensures dist < LAST ==> d == dist + 1
    ensures dist == LAST ==> d == 0
  {
    (dist + 1) % TWO32
  }

  /** The checks in front of the copy. */
  predicate Allowed(dictStart: nat, off: nat, size: nat, dist: nat, len: nat)
    requires dictStart <= off
  {
    off - dictStart >= Next(dist) && off + len <= size
  }

  /** For every other distance they are what is needed: no byte before the dictionary is read, and none
      behind the buffer is written. */
  lemma AllowedMeans(dictStart: nat, off: nat, size: nat, dist: nat, len: nat)
    requires dictStart <= off && dist < LAST
    ensures Allowed(dictStart, off, size, dist, len) <==> dictStart + dist + 1 <= off && off + len <= size
  {}

  /** What one round of the copying loop copies. */
  function Round(dist: nat, len: nat): nat { if len < Next(dist) then len else Next(dist) }

  /** Every round copies something if and only if the distance is not the last one. */
  lemma RoundMovesIff(dist: nat, len: nat)
    requires dist < TWO32 && len >= 1
    ensures Round(dist, len) >= 1 <==> dist != LAST
  {}

  /** The checks and the copy. `stuck` tells that the loop cannot end: a round copies nothing and
      changes nothing. That is so exactly for the last distance, which the checks let through; any
      other match that they let through is the byte-by-byte copy. */
  method CopyMatch(a: array<byte>, dictStart: nat, off0: nat, dist: nat, len0: nat)
    returns (ok: bool, stuck: bool, off: nat)
    requires dictStart <= off0 <= a.Length && dist < TWO32 && 1 <= len0 < TWO32
    modifies a
    ensures ok <==> Allowed(dictStart, off0, a.Length, dist, len0)
    ensures stuck <==> ok && dist == LAST
    ensures ok && !stuck ==> off == off0 + len0 && dist + 1 <= off0
    ensures ok && !stuck ==> a[..off] == LzCopy(old(a[..off0]), dist + 1, len0)
    ensures ok && !stuck ==> a[off..] == old(a[off0 + len0..])
    ensures !ok || stuck ==> off == off0 && a[..] == old(a[..])
  {
    hide LzCopy;
    off, stuck := off0, false;
    ok := !(off0 - dictStart < Next(dist)) && !(off0 + len0 > a.Length);
    if !ok {
      return;
    }
    if dist == 0 {
      Memset(a, off, a[off - 1], len0);
      off := off + len0;
    } else if Next(dist) >= len0 {
      CopyPiece(a, off0, off, dist + 1, len0);
      off := off + len0;
    } else {
      stuck, off := CopyRounds(a, off0, dist, len0);
      if stuck {
        return;
      }
    }
    MatchDone(old(a[..]), a[..], off0, off, dist + 1);
    assert a[..][..off] == a[..off] && old(a[..])[..off0] == old(a[..off0]);
    assert a[..][off..] == a[off..] && old(a[..])[off..] == old(a[off0 + len0..]);
  }

  /** The loop, left as soon as it is clear that it would go on for ever. */
  method CopyRounds(a: array<byte>, off0: nat, dist: nat, len0: nat) returns (stuck: bool, off: nat)
    requires dist < TWO32 && len0 >= 1 && off0 + len0 <= a.Length && Next(dist) <= off0
    modifies a
    ensures stuck <==> dist == LAST
    ensures stuck ==> off == off0 && a[..] == old(a[..])
    ensures !stuck ==> off == off0 + len0
    ensures !stuck ==> Repeats(a[..], off0, off, dist + 1) && Framed(old(a[..]), a[..], off0, off)
  {
    off, stuck := off0, false;
    var len := len0;
    while len > 0
      invariant 0 <= len <= len0 && off == off0 + len0 - len && (len < len0 ==> dist != LAST)
      invariant dist == LAST ==> a[..] == old(a[..])
      invariant dist != LAST ==> Repeats(a[..], off0, off, dist + 1) && Framed(old(a[..]), a[..], off0, off)
    {
      RoundMovesIff(dist, len);
      var copy := Round(dist, len);
      if copy == 0 {
        return true, off;
      }
      ghost var s := a[..];
      CopyPiece(a, off0, off, dist + 1, copy);
      FrameChain(old(a[..]), s, a[..], off0, off, off + copy);
      len := len - copy;
      off := off + copy;
    }
  }

  // ----- where the last distance comes from

  /** A distance from a slot of 14 or more: the slot's two high bits, direct bits, four low bits. */
  function FarDistance(slot: nat, direct: nat, low: nat): nat
    requires 14 <= slot < 64
  {
    Shl(4, Shl(slot / 2 - 5, 2 + slot % 2) + direct) + low
  }

  /** Every such distance fits in 32 bits, and the last one is that of slot 63 with all bits one. */
  lemma FarDistanceFits(slot: nat, direct: nat, low: nat)
    requires 14 <= slot < 64 && direct < Pow2(slot / 2 - 5) && low < 16
    ensures FarDistance(slot, direct, low) < TWO32
    ensures FarDistance(slot, direct, low) == LAST <==> slot == 63 && direct == Pow2(26) - 1 && low == 15
  {
    hide Pow2, Shl;
    var n := slot / 2 - 5;
    ShlIsMul(n, 2 + slot % 2);
    ShlIsMul(4, Shl(n, 2 + slot % 2) + direct);
    Pow2Mono(n, 26);
    TwoTo26();
    if n < 26 { Pow2Mono(n, 25); }
    if slot % 2 == 0 {
      assert (2 + slot % 2) * Pow2(n) == 2 * Pow2(n);
    } else {
      assert (2 + slot % 2) * Pow2(n) == 3 * Pow2(n);
    }
  }

  /** The slots tile the distances: each goes on where the one before it ends, from 128 to 2^32 - 1. */
  lemma FarDistancesTile(slot: nat, direct: nat, low: nat)
    requires 14 <= slot < 64
    ensures FarDistance(slot, direct, low) == FarDistance(slot, 0, 0) + 16 * direct + low
    ensures FarDistance(14, 0, 0) == 128
    ensures FarDistance(slot, 0, 0) + 16 * Pow2(slot / 2 - 5) ==
            if slot < 63 then FarDistance(slot + 1, 0, 0) else TWO32
  {
    var n := slot / 2 - 5;
    assert Pow2(2) == 4 && Pow2(n + 1) == 2 * Pow2(n);
    hide Pow2, FarDistance;
    FarSum(slot, direct, low);
    FarSum(slot, 0, 0);
    FarSum(14, 0, 0);
    if slot < 63 { FarSum(slot + 1, 0, 0); }
    TwoTo26();
  }

  lemma FarSum(slot: nat, direct: nat, low: nat)
    requires 14 <= slot < 64
    ensures FarDistance(slot, direct, low) ==
            16 * ((if slot % 2 == 0 then 2 * Pow2(slot / 2 - 5) else 3 * Pow2(slot / 2 - 5)) + direct) + low
  {
    hide Pow2, Shl;
    TwoTo26();
    ShlIsMul(slot / 2 - 5, 2 + slot % 2);
    ShlIsMul(4, Shl(slot / 2 - 5, 2 + slot % 2) + direct);
  }

  lemma TwoTo26()
    ensures Pow2(4) == 16 && Pow2(25) == 0x200_0000 && Pow2(26) == 0x400_0000
  {
    assert Pow2(5) == 32;
    Pow2Add(5, 5);
    Pow2Add(10, 10);
    Pow2Add(20, 5);
    Pow2Add(25, 1);
  }

  /** A match of two bytes at the last distance passes the checks with no output before it, and the
      loop never ends. */
  lemma LastDistanceHangs()
    ensures FarDistance(63, 0x3ff_ffff, 15) == LAST
    ensures Allowed(0, 0, 2, LAST, 2) && !(Next(LAST) >= 2) && Round(LAST, 2) == 0
  {
    hide Pow2, Shl;
    TwoTo26();
    FarDistanceFits(63, 0x3ff_ffff, 15);
  }
}
