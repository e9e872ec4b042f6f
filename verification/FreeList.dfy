/** The bounded first-fit free list of mmap.c, used by the holder of its lock. */
module FreeList {

  datatype Block = Block(addr: nat, size: nat)

  const LIMIT: nat := 16   // entries on the list
  const HEADER: nat := 16  // sizeof (struct backtrace_freelist_struct)

  /** (size + 7) & ~7: the least multiple of eight from size on. */
  function Rounded(size: nat): (r: nat)
    ensures size <= r < size + 8 && r % 8 == 0
    ensures forall m: nat :: size <= m && m % 8 == 0 ==> r <= m
  {
    (size + 7) / 8 * 8
  }

  // ----- the bytes of blocks

  /** How often byte x lies in block b: once or not at all. */
  function At(b: Block, x: nat): nat
  {
    if b.addr <= x < b.addr + b.size then 1 else 0
  }

  /** How often byte x lies in the blocks of s. */
  function Sum(s: seq<Block>, x: nat): nat
  {
    if |s| == 0 then 0 else At(s[0], x) + Sum(s[1..], x)
  }

  lemma {:induction false} SumAppend(s: seq<Block>, t: seq<Block>, x: nat)
    ensures Sum(s + t, x) == Sum(s, x) + Sum(t, x)
  {
    if |s| == 0 {
      assert s + t == t;
    } else {
      assert (s + t)[1..] == s[1..] + t;
      SumAppend(s[1..], t, x);
    }
  }

  lemma SumCons(b: Block, s: seq<Block>, x: nat)
    ensures Sum([b] + s, x) == At(b, x) + Sum(s, x)
  {
    assert ([b] + s)[1..] == s;
  }

  lemma SumSnoc(s: seq<Block>, b: Block, x: nat)
    ensures Sum(s + [b], x) == Sum(s, x) + At(b, x)
  {
    SumAppend(s, [b], x);
    assert [b] == [b] + [];
    SumCons(b, [], x);
  }

  /** s without its i-th block. */
  function Without(s: seq<Block>, i: nat): (r: seq<Block>)
    requires i < |s|
    ensures |r| == |s| - 1
  {
    s[..i] + s[i + 1..]
  }

  lemma {:induction false} SumWithout(s: seq<Block>, i: nat, x: nat)
    requires i < |s|
    ensures Sum(s, x) == Sum(Without(s, i), x) + At(s[i], x)
  {
    if i == 0 {
      assert Without(s, 0) == s[1..];
    } else {
      SumWithout(s[1..], i - 1, x);
      assert Without(s, i)[1..] == Without(s[1..], i - 1);
    }
  }

  // ----- freeing

  /** The first of the smallest blocks. */
  ghost predicate IsSmallest(s: seq<Block>, m: nat)
  {
    && m < |s|
    && (forall k :: 0 <= k < |s| ==> s[m].size <= s[k].size)
    && (forall k :: 0 <= k < m ==> s[m].size < s[k].size)
  }

  function Smallest(s: seq<Block>): (m: nat)
    requires |s| > 0
    ensures IsSmallest(s, m)
  {
    if |s| == 1 then 0
    else
      var m := Smallest(s[..|s| - 1]);
      if s[|s| - 1].size < s[m].size then |s| - 1 else m
  }

  lemma SmallestUnique(s: seq<Block>, m: nat, k: nat)
    requires IsSmallest(s, m) && IsSmallest(s, k)
    ensures m == k
  {
    assert s[m].size <= s[k].size <= s[m].size;
  }

  lemma SmallestStep(s: seq<Block>, c: nat, small: nat)
    requires c < |s| && (c > 0 ==> IsSmallest(s[..c], small))
    ensures c == 0 || s[c].size < s[small].size ==> IsSmallest(s[..c + 1], c)
    ensures c > 0 && s[c].size >= s[small].size ==> IsSmallest(s[..c + 1], small)
  {}

  /** backtrace_free_locked: the list after freeing b. */
  function Freed(s: seq<Block>, b: Block): (r: seq<Block>)
    ensures |s| <= LIMIT ==> |r| <= LIMIT
  {
    if b.size < HEADER then s
    else if |s| >= LIMIT then
      var m := Smallest(s);
      if b.size <= s[m].size then s else [b] + Without(s, m)
    else [b] + s
  }

  /** Freeing to a full list drops exactly one block, a smallest of all; small blocks are
      always dropped and nothing else ever is. */
  lemma FreedDropsSmallest(s: seq<Block>, b: Block)
    ensures b.size < 16 ==> Freed(s, b) == s
    ensures b.size >= 16 && |s| < 16 ==> multiset(Freed(s, b)) == multiset(s) + multiset{b}
    ensures b.size >= 16 && |s| >= 16 ==>
              exists d :: (d == b || d in s) && d.size <= b.size &&
                          (forall k :: 0 <= k < |s| ==> d.size <= s[k].size) &&
                          multiset(Freed(s, b)) + multiset{d} == multiset(s) + multiset{b}
  {
    hide Without;
    if b.size >= HEADER && |s| >= LIMIT {
      var m := Smallest(s);
      var d := if b.size <= s[m].size then b else s[m];
      WithoutOne(s, m, b);
      assert multiset(Freed(s, b)) + multiset{d} == multiset(s) + multiset{b};
    }
  }

  /** A block that is kept comes first, and the others keep their order; to a full list a block that is not
      larger than any other changes nothing, and a larger one replaces the first of the smallest. */
  lemma FreedInOrder(s: seq<Block>, b: Block, m: nat)
    requires b.size >= 16
    ensures |s| < 16 ==> Freed(s, b) == [b] + s
    ensures |s| >= 16 && (forall k :: 0 <= k < |s| ==> b.size <= s[k].size) ==> Freed(s, b) == s
    ensures |s| >= 16 && IsSmallest(s, m) && s[m].size < b.size ==> Freed(s, b) == [b] + (s[..m] + s[m + 1..])
  {
    if |s| >= 16 && IsSmallest(s, m) { SmallestUnique(s, m, Smallest(s)); }
  }

  lemma WithoutOne(s: seq<Block>, m: nat, b: Block)
    requires m < |s|
    ensures multiset([b] + Without(s, m)) + multiset{s[m]} == multiset(s) + multiset{b}
  {
    assert s == s[..m] + [s[m]] + s[m + 1..];
  }

  lemma FreedBytes(s: seq<Block>, b: Block, x: nat)
    ensures Sum(Freed(s, b), x) <= Sum(s, x) + At(b, x)
  {
    if b.size >= HEADER {
      SumCons(b, s, x);
      if |s| >= LIMIT {
        var m := Smallest(s);
        SumCons(b, Without(s, m), x);
        SumWithout(s, m, x);
      }
    }
  }

  // ----- allocating

  /** The first block that is large enough, or the length of the list. */
  function FirstFit(s: seq<Block>, size: nat): (i: nat)
    ensures i <= |s|
    ensures forall k :: 0 <= k < i ==> s[k].size < size
    ensures i < |s| ==> s[i].size >= size
  {
    if |s| == 0 || s[0].size >= size then 0 else 1 + FirstFit(s[1..], size)
  }

  /** What the caller gets of block p. */
  function Given(p: Block, size: nat): (b: Block)
    requires size <= p.size
    ensures b.addr == p.addr && size <= b.size <= p.size
  {
    if Rounded(size) < p.size then Block(p.addr, Rounded(size)) else p
  }

  /** The list after allocating from its i-th block. */
  function Taken(s: seq<Block>, i: nat, size: nat): (r: seq<Block>)
    requires i < |s| && size <= s[i].size
    ensures |s| <= LIMIT ==> |r| <= LIMIT
  {
    var p, rest, rounded := s[i], Without(s, i), Rounded(size);
    if rounded < p.size then Freed(rest, Block(p.addr + rounded, p.size - rounded)) else rest
  }

  /** Nothing that is given out stays on the list. */
  lemma TakenBytes(s: seq<Block>, i: nat, size: nat, x: nat)
    requires i < |s| && size <= s[i].size
    ensures Sum(Taken(s, i, size), x) + At(Given(s[i], size), x) <= Sum(s, x)
  {
    hide Freed, Without, Rounded;
    var p, rounded := s[i], Rounded(size);
    SumWithout(s, i, x);
    if rounded < p.size {
      FreedBytes(Without(s, i), Block(p.addr + rounded, p.size - rounded), x);
    }
  }

  /** The free list of a backtrace_state, changed in place by the lock holder. */
  class FreeBlocks {
    var list: seq<Block>

    constructor ()
      ensures list == []
    {
      list := [];
    }

    method FreeLocked(addr: nat, size: nat)
      modifies this
      ensures list == Freed(old(list), Block(addr, size))
      ensures |old(list)| <= LIMIT ==> |list| <= LIMIT
      ensures forall x: nat :: Sum(list, x) <= Sum(old(list), x) + At(Block(addr, size), x)
    {
      hide At, Sum, IsSmallest, Without;
      forall x: nat { FreedBytes(list, Block(addr, size), x); }
      if size >= HEADER {
        var c := 0;
        var small := 0;
        while c < |list|
          invariant 0 <= c <= |list| && list == old(list)
          invariant c > 0 ==> small < c
          invariant c > 0 ==> IsSmallest(list[..c], small)
        {
          SmallestStep(list, c, small);
          if c == 0 || list[c].size < list[small].size {
            small := c;
          }
          c := c + 1;
        }
        if c >= LIMIT {
          assert list[..c] == list;
          SmallestUnique(list, small, Smallest(list));
          if size <= list[small].size {
            return;
          }
          list := Without(list, small);
        }
        list := [Block(addr, size)] + list;
      }
    }

    /** The search in backtrace_alloc: the first block that fits is split and handed out. */
    method AllocLocked(size: nat) returns (found: bool, addr: nat)
      modifies this
      ensures found <==> exists k :: 0 <= k < |old(list)| && old(list)[k].size >= size
      ensures !found ==> list == old(list)
      ensures found ==> var i := FirstFit(old(list), size);
                        i < |old(list)| && addr == old(list)[i].addr && list == Taken(old(list), i, size)
      ensures found ==> var i := FirstFit(old(list), size);
                        i < |old(list)| &&
                        forall x: nat :: Sum(list, x) + At(Given(old(list)[i], size), x) <= Sum(old(list), x)
    {
      hide At, Sum, Freed, Without, Rounded, FirstFit;
      found, addr := false, 0;
      var i := 0;
      while i < |list|
        invariant 0 <= i <= |list| && list == old(list)
        invariant forall k :: 0 <= k < i ==> list[k].size < size
      {
        if list[i].size >= size {
          FirstFitUnique(list, size, i);
          forall x: nat { TakenBytes(list, i, size, x); }
          var p := list[i];
          list := Without(list, i);
          var rounded := Rounded(size);
          if rounded < p.size {
            FreeLocked(p.addr + rounded, p.size - rounded);
          }
          return true, p.addr;
        }
        i := i + 1;
      }
    }
  }

  lemma FirstFitUnique(s: seq<Block>, size: nat, i: nat)
    requires i < |s| && s[i].size >= size && forall k :: 0 <= k < i ==> s[k].size < size
    ensures FirstFit(s, size) == i
  {}
}
