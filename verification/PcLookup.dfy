/** The address ranges of compilation units (and likewise of functions): their order, and
    the search for a pc with its corrective walks. */
module PcLookup {
  import opened Qsort
  import opened Search

  /** The greatest address; it serves as the sentinel. */
  const TOP: nat := 0xFFFF_FFFF_FFFF_FFFF

  /** A unit's range from low up to, but not including, high. */
  datatype Range = Range(low: nat, high: nat, lineoff: int, unit: int)

  /** unit_addrs_compare: of ranges with the same start, the smallest is last. */
  function Compare(a: Range, b: Range): int
  {
    if a.low < b.low then -1
    else if a.low > b.low then 1
    else if a.high < b.high then 1
    else if a.high > b.high then -1
    else if a.lineoff < b.lineoff then -1
    else if a.lineoff > b.lineoff then 1
    else 0
  }

  lemma CompareIsPreorder()
    ensures TotalPreorder(Compare)
  {}

  /** unit_addrs_search, which also looks at the next entry. */
  function Side(t: seq<Range>, pc: nat, i: nat): int
  {
    if i + 1 >= |t| then 0
    else if pc < t[i].low then -1
    else if pc > t[i + 1].low then 1
    else 0
  }

  /** n sorted ranges and the sentinel. */
  ghost predicate IsTable(t: seq<Range>, n: nat)
  {
    && |t| == n + 1 && t[n].low == TOP
    && (forall i :: 0 <= i < n ==> t[i].low <= TOP)
    && Sorted(Compare, t, 0, n)
  }

  /** Sort the ranges, leaving the sentinel where it is. */
  method BuildIndex(a: array<Range>, n: nat)
    requires a.Length == n + 1 && a[n].low == TOP && forall i :: 0 <= i < n ==> a[i].low <= TOP
    modifies a
    ensures IsTable(a[..], n) && Permuted(old(a[..]), a[..], 0, n)
  {
    CompareIsPreorder();
    ghost var depth := Sort(a, 0, n, Compare);
    forall i | 0 <= i <= n
      ensures a[i].low <= TOP && (i == n ==> a[i].low == TOP)
    {
      var j := Origin(old(a[..]), a[..], 0, n, i);
      assert old(a[..])[j].low <= TOP;
    }
  }

  /** i starts at the greatest start that is not above pc. */
  ghost predicate Closest(t: seq<Range>, n: nat, pc: nat, i: nat)
    requires n <= |t|
  {
    i < n && t[i].low <= pc && forall k :: 0 <= k < n && t[k].low <= pc ==> t[k].low <= t[i].low
  }

  /** Of ranges with the same start, r is to be returned rather than q: it is smaller, or as large and its line
      offset is not less. */
  predicate NotBefore(r: Range, q: Range) { r.high < q.high || (r.high == q.high && r.lineoff >= q.lineoff) }

  lemma LowsSorted(t: seq<Range>, n: nat, i: nat, j: nat)
    requires IsTable(t, n) && i <= j <= n
    ensures t[i].low <= t[j].low
    ensures i < j < n && t[i].low == t[j].low ==> t[i].high >= t[j].high
    ensures i < j < n && t[i].low == t[j].low && t[i].high == t[j].high ==> t[i].lineoff <= t[j].lineoff
  {
    if i < j < n { assert Compare(t[i], t[j]) <= 0; }
  }

  lemma SideMonotone(t: seq<Range>, n: nat, pc: nat)
    requires IsTable(t, n)
    ensures Monotone(n, (i: nat) => Side(t, pc, i))
  {
    forall i, j | 0 <= i <= j < n
      ensures Side(t, pc, j) > 0 ==> Side(t, pc, i) > 0
      ensures Side(t, pc, i) < 0 ==> Side(t, pc, j) < 0
    {
      LowsSorted(t, n, i, j);
      LowsSorted(t, n, i + 1, j + 1);
      LowsSorted(t, n, i, i + 1);
      LowsSorted(t, n, j, j + 1);
    }
  }

  /** The search fails only when every range starts above pc. */
  lemma NoSideZero(t: seq<Range>, n: nat, pc: nat)
    requires IsTable(t, n) && pc < TOP && forall i: nat :: i < n ==> Side(t, pc, i) != 0
    ensures forall i :: 0 <= i < n ==> t[i].low > pc
  {
    var i := n;
    while i > 0
      invariant 0 <= i <= n && forall k :: i <= k < n ==> t[k].low > pc
    {
      i := i - 1;
      assert Side(t, pc, i) != 0;
      assert t[i + 1].low > pc;
    }
  }

  /** The lookup in dwarf_lookup_pc. */
  method Lookup(t: seq<Range>, n: nat, pc: nat) returns (found: bool, entry: nat)
    requires IsTable(t, n) && pc <= TOP
    ensures pc == TOP ==> !found
    ensures pc < TOP ==> (found <==> exists i: nat :: Closest(t, n, pc, i) && pc < t[i].high)
    ensures found ==> Closest(t, n, pc, entry) && pc < t[entry].high
    ensures found ==> forall k: nat :: Closest(t, n, pc, k) && pc < t[k].high ==> NotBefore(t[entry], t[k])
  {
    entry := 0;
    if n == 0 || pc == TOP {
      return false, 0;
    }
    SideMonotone(t, n, pc);
    var side := (i: nat) => Side(t, pc, i);
    found, entry := BinarySearch(n, side);
    if !found {
      assert forall i: nat :: i < n ==> side(i) == Side(t, pc, i);
      NoSideZero(t, n, pc);
      return;
    }
    entry := WalkForward(t, n, pc, entry);
    found, entry := WalkBack(t, n, pc, entry);
  }

  /** Go on to the last range that starts at pc. */
  method WalkForward(t: seq<Range>, n: nat, pc: nat, entry0: nat) returns (entry: nat)
    requires IsTable(t, n) && pc < TOP && entry0 < n && Side(t, pc, entry0) == 0
    ensures entry < n && t[entry].low <= pc < t[entry + 1].low
  {
    entry := entry0;
    LowsSorted(t, n, entry, entry + 1);
    while pc == t[entry + 1].low
      invariant entry < n && t[entry].low <= pc <= t[entry + 1].low
      decreases n - entry
    {
      entry := entry + 1;
      LowsSorted(t, n, entry, entry + 1);
    }
  }

  /** Go back through the ranges with the same start to the first one that ends above pc. */
  method WalkBack(t: seq<Range>, n: nat, pc: nat, last: nat) returns (found: bool, entry: nat)
    requires IsTable(t, n) && last < n && t[last].low <= pc < t[last + 1].low
    ensures found <==> exists i: nat :: Closest(t, n, pc, i) && pc < t[i].high
    ensures found ==> Closest(t, n, pc, entry) && pc < t[entry].high
    ensures found ==> forall k: nat :: Closest(t, n, pc, k) && pc < t[k].high ==> NotBefore(t[entry], t[k])
  {
    entry := last;
    ClosestIsLast(t, n, pc, last);
    while true
      invariant entry <= last && t[entry].low == t[last].low
      invariant forall k :: entry < k <= last ==> t[k].high <= pc
      decreases entry
    {
      if pc < t[entry].high {
        GroupOrder(t, n, pc, last, entry);
        assert Closest(t, n, pc, entry);
        return true, entry;
      }
      if entry == 0 {
        break;
      }
      if t[entry - 1].low < t[entry].low {
        break;
      }
      LowsSorted(t, n, entry - 1, entry);
      entry := entry - 1;
    }
    NoneBefore(t, n, last, entry);
    found := false;
  }

  lemma ClosestIsLast(t: seq<Range>, n: nat, pc: nat, last: nat)
    requires IsTable(t, n) && last < n && t[last].low <= pc < t[last + 1].low
    ensures forall k: nat :: Closest(t, n, pc, k) <==> 0 <= k <= last && t[k].low == t[last].low
  {
    forall k: nat | k < n
      ensures t[k].low <= pc <==> k <= last
      ensures k <= last ==> t[k].low <= t[last].low
    {
      if k <= last { LowsSorted(t, n, k, last); } else { LowsSorted(t, n, last + 1, k); }
    }
  }

  lemma GroupOrder(t: seq<Range>, n: nat, pc: nat, last: nat, entry: nat)
    requires IsTable(t, n) && entry <= last < n && t[entry].low == t[last].low
    ensures forall k :: 0 <= k <= entry && t[k].low == t[last].low ==> NotBefore(t[entry], t[k])
  {
    forall k | 0 <= k <= entry && t[k].low == t[last].low
      ensures NotBefore(t[entry], t[k])
    {
      LowsSorted(t, n, k, entry);
    }
  }

  lemma NoneBefore(t: seq<Range>, n: nat, last: nat, entry: nat)
    requires IsTable(t, n) && entry <= last < n && t[entry].low == t[last].low
    requires entry == 0 || t[entry - 1].low < t[entry].low
    ensures forall k :: 0 <= k < entry ==> t[k].low < t[last].low
  {
    forall k | 0 <= k < entry
      ensures t[k].low < t[last].low
    {
      LowsSorted(t, n, k, entry - 1);
    }
  }

  /** Ranges that do not overlap. */
  ghost predicate Disjoint(t: seq<Range>, n: nat)
    requires n <= |t|
  {
    && (forall i :: 0 <= i < n ==> t[i].low <= t[i].high)
    && (forall i, j :: 0 <= i < n && 0 <= j < n && i != j ==> t[i].high <= t[j].low || t[j].high <= t[i].low)
  }

  predicate Covers(r: Range, pc: nat) { r.low <= pc < r.high }

  /** Among disjoint ranges the lookup is a linear scan: the one range covering pc, if any. */
  lemma DisjointIsScan(t: seq<Range>, n: nat, pc: nat, i: nat)
    requires n <= |t| && Disjoint(t, n) && i < n
    ensures Covers(t[i], pc) <==> Closest(t, n, pc, i) && pc < t[i].high
    ensures Covers(t[i], pc) ==> forall k :: 0 <= k < n && Covers(t[k], pc) ==> k == i
  {}

  /** Overlapping ranges: the nearest start can hide an earlier range that covers pc. */
  lemma EnclosingCanBeMissed()
    ensures var t := [Range(0, 100, 0, 1), Range(10, 20, 0, 2), Range(TOP, TOP, 0, 0)];
            IsTable(t, 2) && Covers(t[0], 50) && !exists i: nat :: Closest(t, 2, 50, i) && 50 < t[i].high
  {
    var t := [Range(0, 100, 0, 1), Range(10, 20, 0, 2), Range(TOP, TOP, 0, 0)];
    assert t[1].low <= 50;
  }
}
