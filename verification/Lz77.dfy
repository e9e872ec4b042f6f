/** Copying a match that may overlap its own output, as the zlib inflater does it: by a fill,
    one memcpy, or a chain of memcpys. */
module Lz77 {
  import opened Words

  /** The meaning of a match: append, len times, the byte dist positions back. */
  function LzCopy(out: seq<byte>, dist: nat, len: nat): (r: seq<byte>)
    requires 1 <= dist <= |out|
    ensures |r| == |out| + len && r[..|out|] == out
    decreases len
  {
    if len == 0 then out
    else
      var o := out + [out[|out| - dist]];
      var r := LzCopy(o, dist, len - 1);
      assert r[..|o|][..|out|] == o[..|out|];
      r
  }

  /** Any extension in which every new byte repeats the one dist back is the match. */
  lemma {:induction false} LzUnique(out: seq<byte>, dist: nat, r: seq<byte>)
    requires 1 <= dist <= |out| <= |r| && r[..|out|] == out
    requires forall k :: |out| <= k < |r| ==> r[k] == r[k - dist]
    ensures r == LzCopy(out, dist, |r| - |out|)
    decreases |r| - |out|
  {
    if |out| < |r| {
      var o := out + [out[|out| - dist]];
      assert r[..|o|] == o by {
        assert r[|out|] == r[|out| - dist] == out[|out| - dist];
      }
      LzUnique(o, dist, r);
    } else {
      assert r[..|out|] == r;
    }
  }

  /** C memcpy, with its precondition: the regions do not overlap. */
  method Memcpy(a: array<byte>, dst: nat, src: nat, n: nat)
    requires dst + n <= a.Length && src + n <= a.Length
    requires src + n <= dst || dst + n <= src
    modifies a
    ensures forall k :: dst <= k < dst + n ==> a[k] == old(a[src + (k - dst)])
    ensures forall k :: 0 <= k < a.Length && !(dst <= k < dst + n) ==> a[k] == old(a[k])
  {
    var i := 0;
    while i < n
      invariant 0 <= i <= n
      invariant forall k :: dst <= k < dst + i ==> a[k] == old(a[src + (k - dst)])
      invariant forall k :: 0 <= k < a.Length && !(dst <= k < dst + i) ==> a[k] == old(a[k])
    {
      a[dst + i] := a[src + i];
      i := i + 1;
    }
  }

  method Memset(a: array<byte>, dst: nat, b: byte, n: nat)
    requires dst + n <= a.Length
    modifies a
    ensures forall k :: dst <= k < dst + n ==> a[k] == b
    ensures forall k :: 0 <= k < a.Length && !(dst <= k < dst + n) ==> a[k] == old(a[k])
  {
    var i := 0;
    while i < n
      invariant 0 <= i <= n
      invariant forall k :: dst <= k < dst + i ==> a[k] == b
      invariant forall k :: 0 <= k < a.Length && !(dst <= k < dst + i) ==> a[k] == old(a[k])
    {
      a[dst + i] := b;
      i := i + 1;
    }
  }

  /** From lo up to hi, every byte repeats the one dist positions back. */
  ghost predicate Repeats(s: seq<byte>, lo: nat, hi: nat, dist: nat)
  {
    dist <= lo && hi <= |s| && forall k :: lo <= k < hi ==> s[k] == s[k - dist]
  }

  /** Only positions from lo up to hi may differ. */
  ghost predicate Framed(s: seq<byte>, t: seq<byte>, lo: nat, hi: nat)
  {
    lo <= hi <= |s| && |t| == |s| && t[..lo] == s[..lo] && t[hi..] == s[hi..]
  }

  method CopyPiece(a: array<byte>, ghost pout0: nat, pout: nat, dist: nat, n: nat)
    requires n <= dist <= pout0 <= pout && pout + n <= a.Length && Repeats(a[..], pout0, pout, dist)
    modifies a
    ensures Repeats(a[..], pout0, pout + n, dist) && Framed(old(a[..]), a[..], pout, pout + n)
  {
    Memcpy(a, pout, pout - dist, n);
    forall k | pout <= k < pout + n
      ensures a[k] == a[k - dist]
    {
      assert a[k] == old(a[pout - dist + (k - pout)]);
    }
    forall k | pout0 <= k < pout
      ensures a[k] == a[k - dist]
    {
      assert old(a[..])[k] == old(a[..])[k - dist];
    }
  }

  /** The match copy of the zlib inflater: a distance of one fills, a distance of at least the
      length is one memcpy, anything else is copied in pieces of at most the distance. */
  method CopyMatch(a: array<byte>, pout0: nat, dist: nat, len0: nat) returns (pout: nat)
    requires 1 <= dist <= pout0 && pout0 + len0 <= a.Length
    modifies a
    ensures pout == pout0 + len0
    ensures a[..pout] == LzCopy(old(a[..pout0]), dist, len0)
    ensures a[pout..] == old(a[pout0 + len0..])
  {
    pout := pout0;
    if dist == 1 {
      Memset(a, pout, a[pout - 1], len0);
      pout := pout + len0;
    } else if dist >= len0 {
      CopyPiece(a, pout0, pout, dist, len0);
      pout := pout + len0;
    } else {
      var len := len0;
      while len > 0
        invariant 0 <= len <= len0 && pout == pout0 + len0 - len
        invariant Repeats(a[..], pout0, pout, dist) && Framed(old(a[..]), a[..], pout0, pout)
      {
        var copy := if len < dist then len else dist;
        ghost var s := a[..];
        CopyPiece(a, pout0, pout, dist, copy);
        FrameChain(old(a[..]), s, a[..], pout0, pout, pout + copy);
        len := len - copy;
        pout := pout + copy;
      }
    }
    assert Repeats(a[..], pout0, pout, dist) && Framed(old(a[..]), a[..], pout0, pout);
    MatchDone(old(a[..]), a[..], pout0, pout, dist);
    assert a[..][..pout] == a[..pout] && old(a[..])[..pout0] == old(a[..pout0]);
    assert a[..][pout..] == a[pout..] && old(a[..])[pout..] == old(a[pout0 + len0..]);
  }

  lemma FrameChain(s: seq<byte>, t: seq<byte>, u: seq<byte>, lo: nat, mid: nat, hi: nat)
    requires Framed(s, t, lo, mid) && Framed(t, u, mid, hi)
    ensures Framed(s, u, lo, hi)
  {
    assert u[..lo] == u[..mid][..lo] == t[..mid][..lo] == t[..lo];
    assert t[hi..] == t[mid..][hi - mid..] == s[mid..][hi - mid..] == s[hi..];
  }

  lemma MatchDone(s: seq<byte>, t: seq<byte>, lo: nat, hi: nat, dist: nat)
    requires 1 <= dist && Framed(s, t, lo, hi) && Repeats(t, lo, hi, dist)
    ensures t[..hi] == LzCopy(s[..lo], dist, hi - lo)
  {
    assert t[..hi][..lo] == t[..lo] == s[..lo];
    LzUnique(s[..lo], dist, t[..hi]);
  }
}
