/** The in-place sort of sort.c: pivot from the middle, recursion into the smaller part,
    a loop over the larger one. */
module Qsort {

  /** The sign of cmp orders its arguments, as qsort demands of a comparison. */
  ghost predicate TotalPreorder<T(!new)>(cmp: (T, T) -> int)
  {
    && (forall x, y :: cmp(x, y) > 0 <==> cmp(y, x) < 0)
    && (forall x, y, z :: cmp(x, y) <= 0 && cmp(y, z) <= 0 ==> cmp(x, z) <= 0)
  }

  ghost predicate Sorted<T>(cmp: (T, T) -> int, s: seq<T>, lo: nat, hi: nat)
    requires lo <= hi <= |s|
  {
    forall i, j :: lo <= i < j < hi ==> cmp(s[i], s[j]) <= 0
  }

  /** t is s with the elements from lo up to hi rearranged. */
  ghost predicate Permuted<T>(s: seq<T>, t: seq<T>, lo: nat, hi: nat)
  {
    && lo <= hi <= |s| == |t|
    && s[..lo] == t[..lo] && s[hi..] == t[hi..]
    && multiset(s[lo..hi]) == multiset(t[lo..hi])
  }

  lemma PermutedTrans<T>(s: seq<T>, t: seq<T>, u: seq<T>, lo: nat, hi: nat)
    requires Permuted(s, t, lo, hi) && Permuted(t, u, lo, hi)
    ensures Permuted(s, u, lo, hi)
  {}

  /** Rearranging a part rearranges the whole. */
  lemma PermutedWider<T>(s: seq<T>, t: seq<T>, lo: nat, hi: nat, lo': nat, hi': nat)
    requires Permuted(s, t, lo, hi) && lo' <= lo && hi <= hi' <= |s|
    ensures Permuted(s, t, lo', hi')
  {
    assert s[lo'..hi'] == s[lo'..lo] + s[lo..hi] + s[hi..hi'];
    assert t[lo'..hi'] == t[lo'..lo] + t[lo..hi] + t[hi..hi'];
    assert s[lo'..lo] == s[..lo][lo'..] == t[..lo][lo'..] == t[lo'..lo];
    assert s[hi..hi'] == s[hi..][..hi' - hi] == t[hi..][..hi' - hi] == t[hi..hi'];
    assert s[..lo'] == s[..lo][..lo'] == t[..lo][..lo'] == t[..lo'];
    assert s[hi'..] == s[hi..][hi' - hi..] == t[hi..][hi' - hi..] == t[hi'..];
  }

  /** After a rearrangement every element was somewhere in the part before. */
  lemma PermutedFrom<T>(s: seq<T>, t: seq<T>, lo: nat, hi: nat, k: nat) returns (j: nat)
    requires Permuted(s, t, lo, hi) && lo <= k < hi
    ensures lo <= j < hi && s[j] == t[k]
  {
    assert t[lo..hi][k - lo] in multiset(t[lo..hi]);
    assert t[k] in multiset(s[lo..hi]);
    var i :| 0 <= i < hi - lo && s[lo..hi][i] == t[k];
    j := lo + i;
  }

  lemma PermutedOutside<T>(s: seq<T>, t: seq<T>, lo: nat, hi: nat, k: nat)
    requires Permuted(s, t, lo, hi) && k < |s| && !(lo <= k < hi)
    ensures s[k] == t[k]
  {
    if k < lo { assert s[..lo][k] == t[..lo][k]; } else { assert s[hi..][k - hi] == t[hi..][k - hi]; }
  }

  lemma SwapPermutes<T>(s: seq<T>, i: nat, j: nat, lo: nat, hi: nat)
    requires lo <= i < hi <= |s| && lo <= j < hi
    ensures Permuted(s, s[i := s[j]][j := s[i]], lo, hi)
  {
    var t := s[i := s[j]][j := s[i]];
    var p, q := s[lo..hi], t[lo..hi];
    assert q == p[i - lo := p[j - lo]][j - lo := p[i - lo]];
    assert multiset(q) == multiset(p);
  }

  method Swap<T>(a: array<T>, i: nat, j: nat, ghost lo: nat, ghost hi: nat)
    requires lo <= i < hi <= a.Length && lo <= j < hi
    modifies a
    ensures a[..] == Swapped(old(a[..]), i, j)
    ensures Permuted(old(a[..]), a[..], lo, hi)
  {
    SwapPermutes(a[..], i, j, lo, hi);
    a[i], a[j] := a[j], a[i];
  }

  /** The pivot at base is above everything up to mid, and not above anything after it
      up to i. */
  ghost predicate Split<T>(cmp: (T, T) -> int, s: seq<T>, base: nat, mid: nat, i: nat)
    requires base + mid < base + i <= |s|
  {
    && (forall k :: base < k <= base + mid ==> cmp(s[base], s[k]) > 0)
    && (forall k :: base + mid < k < base + i ==> cmp(s[base], s[k]) <= 0)
  }

  /** s with positions i and j exchanged. */
  function Swapped<T>(s: seq<T>, i: nat, j: nat): seq<T>
    requires i < |s| && j < |s|
  {
    s[i := s[j]][j := s[i]]
  }

  lemma SplitStep<T>(cmp: (T, T) -> int, s: seq<T>, base: nat, mid: nat, i: nat)
    requires base + mid < base + i < |s| && Split(cmp, s, base, mid, i)
    ensures cmp(s[base], s[base + i]) <= 0 ==> Split(cmp, s, base, mid, i + 1)
    ensures cmp(s[base], s[base + i]) > 0 ==> Split(cmp, Swapped(s, base + mid + 1, base + i), base, mid + 1, i + 1)
    ensures mid + 1 == i ==> Swapped(s, base + mid + 1, base + i) == s
  {}

  lemma SplitDone<T>(cmp: (T, T) -> int, s: seq<T>, base: nat, mid: nat, count: nat)
    requires base + mid < base + count <= |s| && Split(cmp, s, base, mid, count)
    ensures Around(cmp, Swapped(s, base, base + mid), base, mid, count)
    ensures mid == 0 ==> Swapped(s, base, base + mid) == s
  {}

  /** The element at mid has the smaller elements before it, and the others after it. */
  ghost predicate Around<T>(cmp: (T, T) -> int, s: seq<T>, base: nat, mid: nat, count: nat)
  {
    && mid < count && base + count <= |s|
    && (forall k :: base <= k < base + mid ==> cmp(s[base + mid], s[k]) > 0)
    && (forall k :: base + mid < k < base + count ==> cmp(s[base + mid], s[k]) <= 0)
  }

  lemma SplitStart<T>(cmp: (T, T) -> int, s: seq<T>, base: nat)
    requires base < |s|
    ensures Split(cmp, s, base, 0, 1)
  {}

  /** One round of the partition loop. */
  method PartitionStep<T(!new)>(a: array<T>, base: nat, mid0: nat, i: nat, cmp: (T, T) -> int,
                                ghost start: seq<T>, ghost hi: nat)
    returns (mid: nat)
    requires base + mid0 < base + i < hi <= a.Length
    requires Permuted(start, a[..], base, hi) && Split(cmp, a[..], base, mid0, i)
    modifies a
    ensures mid <= i && Permuted(start, a[..], base, hi) && Split(cmp, a[..], base, mid, i + 1)
  {
    hide Permuted, Split, Swapped;
    ghost var s := a[..];
    mid := mid0;
    SplitStep(cmp, s, base, mid, i);
    if cmp(a[base], a[base + i]) > 0 {
      mid := mid + 1;
      if i != mid {
        Swap(a, base + mid, base + i, base, hi);
        PermutedTrans(start, s, a[..], base, hi);
      }
    }
  }

  /** The partition loop. */
  method Partition<T(!new)>(a: array<T>, base: nat, count: nat, cmp: (T, T) -> int) returns (mid: nat)
    requires base + count <= a.Length && count >= 2
    modifies a
    ensures mid < count && Permuted(old(a[..]), a[..], base, base + count)
    ensures Around(cmp, a[..], base, mid, count)
  {
    hide Permuted, Split, Around, Swapped;
    ghost var hi := base + count;
    Swap(a, base, base + count / 2, base, hi);
    mid := 0;
    var i := 1;
    SplitStart(cmp, a[..], base);

    while i < count
      invariant 1 <= i <= count && mid < i
      invariant Permuted(old(a[..]), a[..], base, hi) && Split(cmp, a[..], base, mid, i)
    {
      mid := PartitionStep(a, base, mid, i, cmp, old(a[..]), hi);
      i := i + 1;
    }
    ghost var s := a[..];
    SplitDone(cmp, s, base, mid, count);
    if mid > 0 {
      Swap(a, base, base + mid, base, hi);
      PermutedTrans(old(a[..]), s, a[..], base, hi);
    }
  }

  function Log2(n: nat): nat
  {
    if n < 2 then 0 else 1 + Log2(n / 2)
  }

  lemma {:induction false} Log2Mono(m: nat, n: nat)
    requires m <= n
    ensures Log2(m) <= Log2(n)
  {
    if m >= 2 { Log2Mono(m / 2, n / 2); }
  }

  /** From lo up to hi, every pair that is not wholly inside the window is in order. */
  ghost predicate OrderedAround<T>(cmp: (T, T) -> int, s: seq<T>, lo: nat, hi: nat, base: nat, count: nat)
  {
    && lo <= base && base + count <= hi <= |s|
    && forall i, j :: lo <= i < j < hi && !(base <= i && j < base + count) ==> cmp(s[i], s[j]) <= 0
  }

  /** Rearranging the window keeps it so. */
  lemma OrderedPermuted<T>(cmp: (T, T) -> int, s: seq<T>, t: seq<T>, lo: nat, hi: nat, base: nat, count: nat)
    requires OrderedAround(cmp, s, lo, hi, base, count) && Permuted(s, t, base, base + count)
    ensures OrderedAround(cmp, t, lo, hi, base, count)
  {
    forall i, j | lo <= i < j < hi && !(base <= i && j < base + count)
      ensures cmp(t[i], t[j]) <= 0
    {
      var i' := Origin(s, t, base, base + count, i);
      var j' := Origin(s, t, base, base + count, j);
      assert cmp(s[i'], s[j']) <= 0;
    }
  }

  /** Every pair that is not wholly inside one of two windows is in order. */
  ghost predicate OrderedAround2<T>(cmp: (T, T) -> int, s: seq<T>, lo: nat, hi: nat, b: nat, c: nat, b': nat, c': nat)
  {
    && lo <= b && b + c <= hi <= |s|
    && forall i, j :: lo <= i < j < hi && !(b <= i && j < b + c) && !(b' <= i && j < b' + c') ==> cmp(s[i], s[j]) <= 0
  }

  /** Splitting the window at its pivot. */
  lemma OrderedPartition<T(!new)>(cmp: (T, T) -> int, s: seq<T>, lo: nat, hi: nat, base: nat, count: nat, mid: nat)
    requires TotalPreorder(cmp)
    requires OrderedAround(cmp, s, lo, hi, base, count) && Around(cmp, s, base, mid, count)
    ensures OrderedAround2(cmp, s, lo, hi, base, mid, base + mid + 1, count - mid - 1)
    ensures OrderedAround2(cmp, s, lo, hi, base + mid + 1, count - mid - 1, base, mid)
  {
    forall i, j | lo <= i < j < hi && !(base <= i && j < base + mid) && !(base + mid < i && j < base + count)
      ensures cmp(s[i], s[j]) <= 0
    {
      if base <= i && j < base + count {
        var p := s[base + mid];
        assert cmp(s[i], p) <= 0 || i == base + mid;
        assert cmp(p, s[j]) <= 0 || j == base + mid;
      }
    }
  }

  /** Sorting one of the windows leaves only the other. */
  lemma OrderedShrink<T>(cmp: (T, T) -> int, s: seq<T>, t: seq<T>, lo: nat, hi: nat, b: nat, c: nat, b': nat, c': nat)
    requires OrderedAround2(cmp, s, lo, hi, b, c, b', c') && lo <= b' && b' + c' <= hi && (b + c <= b' || b' + c' <= b)
    requires Permuted(s, t, b, b + c) && Sorted(cmp, t, b, b + c)
    ensures OrderedAround(cmp, t, lo, hi, b', c')
  {
    assert |t| == |s|;
    hide Permuted;
    forall i, j | lo <= i < j < hi && !(b' <= i && j < b' + c')
      ensures cmp(t[i], t[j]) <= 0
    {
      if !(b <= i && j < b + c) {
        var i' := Origin(s, t, b, b + c, i);
        var j' := Origin(s, t, b, b + c, j);
        assert i' < j' && !(b <= i' && j' < b + c) && !(b' <= i' && j' < b' + c');
      }
    }
  }

  /** Where an element was before a part was rearranged. */
  lemma Origin<T>(s: seq<T>, t: seq<T>, lo: nat, hi: nat, k: nat) returns (j: nat)
    requires Permuted(s, t, lo, hi) && k < |s|
    ensures j < |s| && s[j] == t[k]
    ensures if lo <= k < hi then lo <= j < hi else j == k
  {
    if lo <= k < hi {
      j := PermutedFrom(s, t, lo, hi, k);
    } else {
      PermutedOutside(s, t, lo, hi, k);
      j := k;
    }
  }

  /** One round: first the window is partitioned, then one of its sides is sorted. */
  lemma Partitioned<T(!new)>(cmp: (T, T) -> int, r: seq<T>, s: seq<T>, lo: nat, hi: nat, base: nat, count: nat,
                             mid: nat)
    requires TotalPreorder(cmp) && OrderedAround(cmp, r, lo, hi, base, count)
    requires Permuted(r, s, base, base + count) && Around(cmp, s, base, mid, count)
    ensures Permuted(r, s, lo, hi)
    ensures OrderedAround2(cmp, s, lo, hi, base, mid, base + mid + 1, count - mid - 1)
    ensures OrderedAround2(cmp, s, lo, hi, base + mid + 1, count - mid - 1, base, mid)
  {
    assert lo <= base && base + count <= hi <= |r| && mid < count;
    hide TotalPreorder, Permuted, Around, OrderedAround, OrderedAround2;
    OrderedPermuted(cmp, r, s, lo, hi, base, count);
    PermutedWider(r, s, base, base + count, lo, hi);
    OrderedPartition(cmp, s, lo, hi, base, count, mid);
  }

  lemma SideSorted<T>(cmp: (T, T) -> int, r: seq<T>, s: seq<T>, t: seq<T>,
                      lo: nat, hi: nat, b: nat, c: nat, b': nat, c': nat)
    requires Permuted(r, s, lo, hi) && OrderedAround2(cmp, s, lo, hi, b, c, b', c')
    requires lo <= b' && b' + c' <= hi && (b + c <= b' || b' + c' <= b)
    requires Permuted(s, t, b, b + c) && Sorted(cmp, t, b, b + c)
    ensures Permuted(r, t, lo, hi) && OrderedAround(cmp, t, lo, hi, b', c')
  {
    assert lo <= b && b + c <= hi <= |s|;
    hide Permuted, OrderedAround, OrderedAround2, Sorted;
    OrderedShrink(cmp, s, t, lo, hi, b, c, b', c');
    PermutedWider(s, t, b, b + c, lo, hi);
    PermutedTrans(r, s, t, lo, hi);
  }

  /** backtrace_qsort. The ghost result counts the frames on the stack. */
  method Sort<T(!new)>(a: array<T>, base0: nat, count0: nat, cmp: (T, T) -> int) returns (ghost depth: nat)
    requires TotalPreorder(cmp) && base0 + count0 <= a.Length
    modifies a
    ensures Permuted(old(a[..]), a[..], base0, base0 + count0)
    ensures Sorted(cmp, a[..], base0, base0 + count0)
    ensures depth <= Log2(count0) + 1
    decreases count0, 1
  {
    hide TotalPreorder, Permuted, OrderedAround, Sorted, Log2;
    var base: nat, count: nat := base0, count0;
    ghost var hi := base0 + count0;
    depth := 1;
    Unpermuted(cmp, a[..], base0, count0);
    while count >= 2
      invariant base0 <= base && base + count <= hi && depth <= Log2(count0) + 1
      invariant Permuted(old(a[..]), a[..], base0, hi)
      invariant OrderedAround(cmp, a[..], base0, hi, base, count)
      decreases count
    {
      ghost var s, d := a[..], 0;
      Log2Mono(count, count0);
      base, count, d := Step(a, base0, hi, base, count, cmp);
      PermutedTrans(old(a[..]), s, a[..], base0, hi);
      depth := if depth < d + 1 then d + 1 else depth;
    }
    WindowDone(cmp, a[..], base0, hi, base, count);
  }

  /** One round of the loop: partition, sort the smaller part, go on with the larger. */
  method Step<T(!new)>(a: array<T>, ghost lo: nat, ghost hi: nat, base0: nat, count0: nat, cmp: (T, T) -> int)
    returns (base: nat, count: nat, ghost d: nat)
    requires TotalPreorder(cmp) && count0 >= 2 && hi <= a.Length
    requires lo <= base0 && base0 + count0 <= hi && OrderedAround(cmp, a[..], lo, hi, base0, count0)
    modifies a
    ensures Permuted(old(a[..]), a[..], lo, hi)
    ensures base0 <= base && base + count <= base0 + count0 && count < count0
    ensures OrderedAround(cmp, a[..], lo, hi, base, count)
    ensures d + 1 <= Log2(count0) + 1
    decreases count0, 0
  {
    hide TotalPreorder, Permuted, Around, OrderedAround, OrderedAround2, Sorted, Log2;
    base, count := base0, count0;
    var mid := Partition(a, base, count, cmp);
    ghost var s := a[..];
    Partitioned(cmp, old(a[..]), s, lo, hi, base, count, mid);
    if 2 * mid < count {
      d := Sort(a, base, mid, cmp);
      SideSorted(cmp, old(a[..]), s, a[..], lo, hi, base, mid, base + mid + 1, count - mid - 1);
      Halved(mid, count);
      base := base + (mid + 1);
      count := count - (mid + 1);
    } else {
      d := Sort(a, base + (mid + 1), count - (mid + 1), cmp);
      SideSorted(cmp, old(a[..]), s, a[..], lo, hi, base + mid + 1, count - mid - 1, base, mid);
      Halved(count - mid - 1, count);
      count := mid;
    }
  }

  lemma Unpermuted<T>(cmp: (T, T) -> int, s: seq<T>, base: nat, count: nat)
    requires base + count <= |s|
    ensures Permuted(s, s, base, base + count)
    ensures OrderedAround(cmp, s, base, base + count, base, count)
  {}

  lemma WindowDone<T>(cmp: (T, T) -> int, s: seq<T>, lo: nat, hi: nat, base: nat, count: nat)
    requires OrderedAround(cmp, s, lo, hi, base, count) && count < 2
    ensures Sorted(cmp, s, lo, hi)
  {}

  lemma Halved(part: nat, count: nat)
    requires 2 * part <= count && count >= 2
    ensures Log2(part) + 1 <= Log2(count)
  {
    Log2Mono(part, count / 2);
  }
}
