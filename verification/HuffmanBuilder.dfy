/** Building the decoding table in place from the code lengths (elf_zlib_inflate_table). */
module HuffmanBuilder {
  import opened Bits
  import opened Canonical
  import opened HuffmanTable
  import opened ReverseCounter
  import opened SecondaryDemand

  /** The work space holds one entry for each of 286 + 30 code lengths. */
  const MAX_SYMBOLS: nat := 316

  // ----- counting, and chaining the symbols of each length

  /** The symbols of each length among the first n form a chain from start through next. */
  ghost predicate ChainsUpTo(lens: seq<nat>, n: nat, count: seq<nat>, start: seq<nat>, next: seq<nat>)
    requires n <= |lens|
  {
    && |count| == 16 && |start| == 16 && |next| == |lens|
    && (forall l :: 0 <= l < 16 ==> count[l] == Count(lens[..n], l))
    && (forall l :: 0 <= l < 16 && count[l] > 0 ==> At(lens, start[l], l, 0))
    && (forall s :: 0 <= s < n && lens[s] < 16 && Rank(lens, s) + 1 < count[lens[s]] ==>
          At(lens, next[s], lens[s], Rank(lens, s) + 1))
  }

  ghost predicate Chains(lens: seq<nat>, count: seq<nat>, start: seq<nat>, next: seq<nat>)
  {
    ChainsUpTo(lens, |lens|, count, start, next) && lens[..|lens|] == lens
  }

  /** The position of s among the symbols of its length. */
  ghost function Rank(lens: seq<nat>, s: nat): nat
    requires s < |lens|
  {
    Count(lens[..s], lens[s])
  }

  /** s is the symbol of length l and rank r. */
  ghost predicate At(lens: seq<nat>, s: nat, l: nat, r: nat)
  {
    s < |lens| && lens[s] == l && Rank(lens, s) == r
  }

  lemma AtUnique(lens: seq<nat>, s: nat, t: nat, l: nat, r: nat)
    requires At(lens, s, l, r) && At(lens, t, l, r)
    ensures s == t
  {
    if s < t { CountPrefix(lens, s, t, l); }
    if t < s { CountPrefix(lens, t, s, l); }
  }

  /** The chains, and for each length the last symbol of its chain. */
  ghost predicate Linked(lens: seq<nat>, n: nat, count: seq<nat>, start: seq<nat>, prev: seq<nat>, next: seq<nat>)
    requires n <= |lens|
  {
    && ChainsUpTo(lens, n, count, start, next)
    && |prev| == 16
    && forall l :: 0 <= l < 16 && count[l] > 0 ==> prev[l] < n && At(lens, prev[l], l, count[l] - 1)
  }

  /** Symbol n joins the chain of its length. */
  lemma LinkStep(lens: seq<nat>, n: nat, count: seq<nat>, start: seq<nat>, prev: seq<nat>, next: seq<nat>,
                 start': seq<nat>, next': seq<nat>)
    requires n < |lens| && lens[n] < 16 && Linked(lens, n, count, start, prev, next)
    requires count[lens[n]] == 0 ==> start' == start[lens[n] := n] && next' == next
    requires count[lens[n]] > 0 ==> start' == start && next' == next[prev[lens[n]] := n]
    ensures Linked(lens, n + 1, count[lens[n] := count[lens[n]] + 1], start', prev[lens[n] := n], next')
  {
    var l := lens[n];
    var count' := count[l := count[l] + 1];
    CountsStep(lens, n, count, count');
    EndsStep(lens, n, count, start, prev, start');
    hide Count, Rank, At;
    forall s | 0 <= s < n + 1 && lens[s] < 16 && Rank(lens, s) + 1 < count'[lens[s]]
      ensures At(lens, next'[s], lens[s], Rank(lens, s) + 1)
    {
      NextStep(lens, n, count, start, prev, next, s);
    }
  }

  lemma CountsStep(lens: seq<nat>, n: nat, count: seq<nat>, count': seq<nat>)
    requires n < |lens| && lens[n] < 16 && |count| == 16 && count' == count[lens[n] := count[lens[n]] + 1]
    requires forall l :: 0 <= l < 16 ==> count[l] == Count(lens[..n], l)
    ensures forall l :: 0 <= l < 16 ==> count'[l] == Count(lens[..n + 1], l)
  {
    hide Count;
    forall l | 0 <= l < 16
      ensures count'[l] == Count(lens[..n + 1], l)
    {
      CountStep(lens, n, l);
    }
  }

  /** The first and the last symbol of each chain. */
  lemma EndsStep(lens: seq<nat>, n: nat, count: seq<nat>, start: seq<nat>, prev: seq<nat>, start': seq<nat>)
    requires n < |lens| && lens[n] < 16 && |count| == 16 && |start| == 16 && |prev| == 16
    requires count[lens[n]] == Count(lens[..n], lens[n])
    requires start' == if count[lens[n]] == 0 then start[lens[n] := n] else start
    requires forall l :: 0 <= l < 16 && count[l] > 0 ==> At(lens, start[l], l, 0)
    requires forall l :: 0 <= l < 16 && count[l] > 0 ==> prev[l] < n && At(lens, prev[l], l, count[l] - 1)
    ensures var count', prev' := count[lens[n] := count[lens[n]] + 1], prev[lens[n] := n];
            && (forall l :: 0 <= l < 16 && count'[l] > 0 ==> At(lens, start'[l], l, 0))
            && (forall l :: 0 <= l < 16 && count'[l] > 0 ==> prev'[l] < n + 1 && At(lens, prev'[l], l, count'[l] - 1))
  {
    AtHere(lens, n);
    hide Count, Rank, At;
  }

  lemma AtHere(lens: seq<nat>, n: nat)
    requires n < |lens|
    ensures At(lens, n, lens[n], Count(lens[..n], lens[n]))
  {}

  lemma NextStep(lens: seq<nat>, n: nat, count: seq<nat>, start: seq<nat>, prev: seq<nat>, next: seq<nat>, s: nat)
    requires n < |lens| && lens[n] < 16 && Linked(lens, n, count, start, prev, next) && s <= n && lens[s] < 16
    requires Rank(lens, s) + 1 < count[lens[s]] + (if lens[s] == lens[n] then 1 else 0)
    ensures var l := lens[n];
            At(lens, (if count[l] == 0 then next else next[prev[l] := n])[s], lens[s], Rank(lens, s) + 1)
  {
    var l := lens[n];
    hide Count, Rank;
    AtHere(lens, n);
    if lens[s] == l && Rank(lens, s) + 1 == count[l] {
      AtUnique(lens, s, prev[l], l, count[l] - 1);
    } else {
      assert s != n && (count[l] > 0 ==> s != prev[l]);
      assert At(lens, next[s], lens[s], Rank(lens, s) + 1);
    }
  }

  lemma CountStep(lens: seq<nat>, n: nat, m: nat)
    requires n < |lens|
    ensures Count(lens[..n + 1], m) == Count(lens[..n], m) + (if lens[n] == m then 1 else 0)
  {
    assert lens[..n + 1][..n] == lens[..n];
  }

  method CountLengths(lens: seq<nat>) returns (ok: bool, count: seq<nat>, start: seq<nat>, next: seq<nat>)
    ensures ok <==> forall s :: 0 <= s < |lens| ==> lens[s] < 16
    ensures ok ==> Chains(lens, count, start, next)
  {
    hide Linked, Chains;
    count, start, next := seq(16, _ => 0), seq(16, _ => 0), seq(|lens|, _ => 0);
    var prev: seq<nat> := seq(16, _ => 0);
    NothingLinked(lens, count, start, prev, next);
    var i := 0;
    while i < |lens|
      invariant 0 <= i <= |lens|
      invariant forall s :: 0 <= s < i ==> lens[s] < 16
      invariant Linked(lens, i, count, start, prev, next)
    {
      LinkedShape(lens, i, count, start, prev, next);
      var l := lens[i];
      if l >= 16 {
        return false, count, start, next;
      }
      ghost var start0, prev0, next0 := start, prev, next;
      if count[l] == 0 {
        start := start[l := i];
        prev := prev[l := i];
      } else {
        next := next[prev[l] := i];
        prev := prev[l := i];
      }
      LinkStep(lens, i, count, start0, prev0, next0, start, next);
      count := count[l := count[l] + 1];
      i := i + 1;
    }
    ok := true;
    AllLinked(lens, count, start, prev, next);
  }

  lemma NothingLinked(lens: seq<nat>, count: seq<nat>, start: seq<nat>, prev: seq<nat>, next: seq<nat>)
    requires |count| == |start| == |prev| == 16 && |next| == |lens| && forall l :: 0 <= l < 16 ==> count[l] == 0
    ensures Linked(lens, 0, count, start, prev, next)
  {
    assert lens[..0] == [];
  }

  lemma LinkedShape(lens: seq<nat>, n: nat, count: seq<nat>, start: seq<nat>, prev: seq<nat>, next: seq<nat>)
    requires n <= |lens| && Linked(lens, n, count, start, prev, next)
    ensures |count| == |start| == |prev| == 16 && |next| == |lens|
    ensures forall l :: 0 <= l < 16 && count[l] > 0 ==> prev[l] < n
  {}

  lemma AllLinked(lens: seq<nat>, count: seq<nat>, start: seq<nat>, prev: seq<nat>, next: seq<nat>)
    requires Linked(lens, |lens|, count, start, prev, next)
    ensures Chains(lens, count, start, next)
  {
    assert lens[..|lens|] == lens;
  }

  // ----- filling the slots of one code

  method Fill(table: array<nat>, base: nat, code: nat, step: nat, limit: nat, tval: nat) returns (ok: bool)
    requires step <= limit && base + Pow2(limit) <= table.Length && code < Pow2(step)
    modifies table
    ensures ok ==> Filled(old(table[..]), table[..], base, code, step, limit, tval)
    ensures (forall k :: 0 <= k < table.Length && InFill(k, base, code, step, limit) ==> old(table[k]) == 0) ==> ok
  {
    var ind := code;
    LowSmall(step, code);
    BelowFirst(step, code);
    while ind < Pow2(limit)
      invariant Low(step, ind) == code
      invariant forall k :: 0 <= k < table.Length && InFill(k, base, code, step, limit) && k < base + ind ==>
                table[k] == tval
      invariant forall k :: 0 <= k < table.Length && (!InFill(k, base, code, step, limit) || k >= base + ind) ==>
                table[k] == old(table[k])
      decreases Pow2(limit) - ind
    {
      assert InFill(base + ind, base, code, step, limit);
      if table[base + ind] != 0 {
        return false;
      }
      table[base + ind] := tval;
      Period(step, ind);
      ind := ind + Pow2(step);
    }
    ok := true;
  }

  lemma BelowFirst(n: nat, code: nat)
    requires code < Pow2(n)
    ensures forall x: nat :: x < code ==> Low(n, x) != code
  {
    forall x: nat | x < code
      ensures Low(n, x) != code
    {
      LowSmall(n, x);
    }
  }

  /** The low n bits repeat every 2 to the power n, and not before. */
  lemma Period(n: nat, v: nat)
    ensures Low(n, v + Pow2(n)) == Low(n, v)
    ensures forall x: nat :: v < x < v + Pow2(n) ==> Low(n, x) != Low(n, v)
  {
    PeriodRepeats(n, v);
    forall x: nat | v < x < v + Pow2(n)
      ensures Low(n, x) != Low(n, v)
    {
      PeriodDistinct(n, v, x);
    }
  }

  lemma {:induction false} PeriodRepeats(n: nat, v: nat)
    ensures Low(n, v + Pow2(n)) == Low(n, v)
  {
    if n > 0 {
      PeriodRepeats(n - 1, v / 2);
      assert (v + Pow2(n)) / 2 == v / 2 + Pow2(n - 1);
    }
  }

  lemma {:induction false} PeriodDistinct(n: nat, v: nat, x: nat)
    requires v < x < v + Pow2(n)
    ensures Low(n, x) != Low(n, v)
  {
    if n > 0 && x % 2 == v % 2 { PeriodDistinct(n - 1, v / 2, x / 2); }
  }

  // ----- codes of at most eight bits

  /** The symbols whose codes come before code number i of length j. */
  ghost function Before(lens: seq<nat>, j: nat, i: nat): set<nat>
  {
    set s | 0 <= s < |lens| && 1 <= lens[s] && (lens[s] < j || (lens[s] == j && Rank(lens, s) < i))
  }

  lemma BeforeStep(lens: seq<nat>, s: nat, j: nat, i: nat)
    requires At(lens, s, j, i) && j >= 1
    ensures s !in Before(lens, j, i) && Before(lens, j, i + 1) == Before(lens, j, i) + {s}
  {
    forall t | t in Before(lens, j, i + 1) && t !in Before(lens, j, i)
      ensures t == s
    {
      AtUnique(lens, s, t, j, i);
    }
  }

  lemma BeforeNext(lens: seq<nat>, j: nat)
    ensures Before(lens, j, Count(lens, j)) == Before(lens, j + 1, 0)
  {
    forall s | s in Before(lens, j + 1, 0)
      ensures s in Before(lens, j, Count(lens, j))
    {
      RankBelowCount(lens, s);
    }
  }

  /** The counter reaches code number i of length j, modulo 2 to the power j. */
  ghost predicate Reached(lens: seq<nat>, j: nat, i: nat, code: nat)
  {
    code < Pow2(j) && Msb(j, code) == Low(j, FirstCode(lens, j) + i)
  }

  /** With a valid set of lengths, the counter is the code of the symbol in turn. */
  lemma ReachedIsCode(lens: seq<nat>, s: nat, i: nat, code: nat)
    requires Valid(lens) && s < |lens| && 1 <= lens[s] && At(lens, s, lens[s], i)
    requires Reached(lens, lens[s], i, code)
    ensures Msb(lens[s], code) == CodeOf(lens, s)
  {
    RoomAt(lens, lens[s]);
    RankBelowCount(lens, s);
    LowSmall(lens[s], CodeOf(lens, s));
  }

  lemma ReachedNextLength(lens: seq<nat>, j: nat, code: nat)
    requires j >= 1 && Reached(lens, j, Count(lens, j), code)
    ensures Reached(lens, j + 1, 0, code)
  {
    hide Low, Msb, Count, Pow2;
    Doubles(j + 1);
    TopOfCode(j + 1, code);
    LowDouble(j + 1, FirstCode(lens, j) + Count(lens, j), 0);
  }

  lemma ReachedNextCode(lens: seq<nat>, j: nat, i: nat, code: nat, code': nat)
    requires Reached(lens, j, i, code)
    requires code' < Pow2(j) && Msb(j, code') == Low(j, Msb(j, code) + 1)
    ensures Reached(lens, j, i + 1, code')
  {
    var n := FirstCode(lens, j) + i;
    LowAdd(j, n, 1);
    assert n + 1 == FirstCode(lens, j) + (i + 1);
  }

  /** One symbol of at most eight bits. */
  method PrimarySymbol(lens: seq<nat>, table: array<nat>, val: nat, j: nat, code: nat, ghost i: nat)
    returns (ok: bool)
    requires table.Length == TABLE_SIZE && 1 <= j <= 8 && |lens| <= MAX_SYMBOLS
    requires At(lens, val, j, i) && Reached(lens, j, i, code)
    requires Valid(lens) ==> Primary(lens, table[..], Before(lens, j, i))
    modifies table
    ensures Valid(lens) ==> ok && Primary(lens, table[..], Before(lens, j, i + 1))
  {
    ok := val < VALUES;
    if ok {
      var tval := val + VALUES * (j - 1);
      assert Pow2(8) == 256;
      hide Low, Msb, FirstCode, Count, CodeOf, Pow2;
      BeforeStep(lens, val, j, i);
      ghost var t := table[..];
      if Valid(lens) {
        ReachedIsCode(lens, val, i, code);
        forall k | 0 <= k < table.Length && InFill(k, 0, code, j, 8)
          ensures t[k] == 0
        {
          PrimaryFree(lens, t, Before(lens, j, i), val, code, k);
        }
      }
      ok := Fill(table, 0, code, j, 8, tval);
      if Valid(lens) {
        PrimaryStep(lens, t, table[..], Before(lens, j, i), val, code);
      }
    }
  }

  /** All symbols of one length of at most eight bits. */
  method PrimaryLength(lens: seq<nat>, table: array<nat>, count: seq<nat>, start: seq<nat>, next: seq<nat>,
                       j: nat, code0: nat)
    returns (ok: bool, code: nat)
    requires table.Length == TABLE_SIZE && 1 <= j <= 8 && |lens| <= MAX_SYMBOLS
    requires Chains(lens, count, start, next) && Reached(lens, j, 0, code0)
    requires Valid(lens) ==> Primary(lens, table[..], Before(lens, j, 0))
    modifies table
    ensures ok ==> Reached(lens, j, Count(lens, j), code)
    ensures Valid(lens) ==> ok && Primary(lens, table[..], Before(lens, j, Count(lens, j)))
  {
    hide Low, Msb, FirstCode, Count, Before, Primary, Pow2, KraftSum;
    code := code0;
    var jcnt := count[j];
    if jcnt == 0 {
      return true, code;
    }
    if jcnt > Pow2(j) {
      if Valid(lens) { RoomAt(lens, j); }
      return false, code;
    }
    var val := start[j];
    var i := 0;
    while i < jcnt
      invariant 0 <= i <= jcnt && Reached(lens, j, i, code)
      invariant i < jcnt ==> At(lens, val, j, i)
      invariant Valid(lens) ==> Primary(lens, table[..], Before(lens, j, i))
    {
      ok := PrimarySymbol(lens, table, val, j, code, i);
      if !ok {
        return;
      }
      if i + 1 < jcnt {
        val := next[val];
      }
      ghost var before := code;
      code := Increment(j, code);
      ReachedNextCode(lens, j, i, before, code);
      i := i + 1;
    }
    ok := true;
  }

  /** The lengths that need no secondary table. */
  lemma NothingShort(lens: seq<nat>, t: seq<nat>)
    requires |t| == TABLE_SIZE && forall k :: 0 <= k < |t| ==> t[k] == 0
    ensures Reached(lens, 1, 0, 0) && Primary(lens, t, Before(lens, 1, 0))
  {
    assert Before(lens, 1, 0) == {};
  }

  method PrimaryTable(lens: seq<nat>, table: array<nat>, count: seq<nat>, start: seq<nat>, next: seq<nat>)
    returns (ok: bool, code: nat)
    requires table.Length == TABLE_SIZE && |lens| <= MAX_SYMBOLS
    requires Chains(lens, count, start, next)
    requires forall k :: 0 <= k < table.Length ==> table[k] == 0
    modifies table
    ensures ok ==> Reached(lens, 9, 0, code)
    ensures Valid(lens) ==> ok && Primary(lens, table[..], Before(lens, 9, 0))
  {
    hide Reached, Primary, Before, Chains, Valid, Count;
    NothingShort(lens, table[..]);
    code := 0;
    var j := 1;
    while j <= 8
      invariant 1 <= j <= 9 && Reached(lens, j, 0, code)
      invariant Valid(lens) ==> Primary(lens, table[..], Before(lens, j, 0))
    {
      ok, code := PrimaryLength(lens, table, count, start, next, j, code);
      if !ok {
        return;
      }
      ReachedNextLength(lens, j, code);
      BeforeNext(lens, j);
      j := j + 1;
    }
    ok := true;
  }

  // ----- codes of nine to fifteen bits

  /** The first code of each length from 9 to 15 that is used. */
  ghost predicate Starts(lens: seq<nat>, count: seq<nat>, firstcode: seq<nat>, j: nat)
  {
    |count| == 16 && |firstcode| == 7 && j <= 16 &&
    forall l :: 9 <= l < j && count[l] > 0 ==> Reached(lens, l, 0, firstcode[l - 9])
  }

  method FirstCodes(ghost lens: seq<nat>, count: seq<nat>, code0: nat) returns (ok: bool, firstcode: seq<nat>)
    requires |count| == 16 && (forall l :: 0 <= l < 16 ==> count[l] == Count(lens, l))
    requires Reached(lens, 9, 0, code0)
    ensures ok ==> Starts(lens, count, firstcode, 16)
    ensures (forall l :: 9 <= l < 16 ==> count[l] < Pow2(l)) ==> ok
  {
    hide Msb, Low, Pow2, FirstCode, Count;
    firstcode := seq(7, _ => 0);
    var code := code0;
    var j := 9;
    while j < 16
      invariant 9 <= j <= 16 && Reached(lens, j, 0, code)
      invariant Starts(lens, count, firstcode, j)
    {
      var jcnt := count[j];
      if jcnt != 0 {
        firstcode := firstcode[j - 9 := code];
        var rest;
        ghost var code1 := code;
        code, rest := ReverseAdd(j, code, jcnt);
        ReachedAll(lens, j, code1, code);
        if rest != 0 {
          return false, firstcode;
        }
      }
      ReachedNextLength(lens, j, code);
      j := j + 1;
    }
    ok := true;
  }

  lemma ReachedAll(lens: seq<nat>, j: nat, code: nat, code': nat)
    requires Reached(lens, j, 0, code) && code' < Pow2(j)
    requires Msb(j, code') == Low(j, Msb(j, code) + Count(lens, j))
    ensures Reached(lens, j, Count(lens, j), code')
  {
    LowAdd(j, FirstCode(lens, j), Count(lens, j));
  }

  /** The long symbols installed before code number i of length j, longest lengths first. */
  ghost function After(lens: seq<nat>, j: nat, i: nat): set<nat>
  {
    set s | 0 <= s < |lens| && 8 < lens[s] && (lens[s] > j || (lens[s] == j && Rank(lens, s) < i))
  }

  lemma AfterStep(lens: seq<nat>, s: nat, j: nat, i: nat)
    requires At(lens, s, j, i) && j > 8
    ensures s !in After(lens, j, i) && After(lens, j, i + 1) == After(lens, j, i) + {s}
    ensures forall t :: 0 <= t < |lens| && lens[t] > lens[s] ==> t in After(lens, j, i)
  {
    forall t | t in After(lens, j, i + 1) && t !in After(lens, j, i)
      ensures t == s
    {
      AtUnique(lens, s, t, j, i);
    }
  }

  lemma AfterNext(lens: seq<nat>, j: nat)
    requires j > 0
    ensures After(lens, j, Count(lens, j)) == After(lens, j - 1, 0)
  {
    forall s | s in After(lens, j - 1, 0)
      ensures s in After(lens, j, Count(lens, j))
    {
      RankBelowCount(lens, s);
    }
  }

  /** The secondary table the builder is writing to: the prefix, and its pointer's fields. */
  datatype Current = Current(primary: nat, secondary: nat, bits: nat)

  /** No table yet (primary is 0x100), or one wide enough for length j. */
  predicate Usable(c: Current, j: nat)
    requires j >= 8
  {
    c.primary != 256 ==> c.primary < 256 && c.secondary < VALUES && j - 8 <= c.bits <= 7
  }

  ghost predicate Points(c: Current, t: seq<nat>)
  {
    c.primary != 256 ==>
      c.primary < |t| && IsPointer(t[c.primary]) && Value(t[c.primary]) == c.secondary && Width(t[c.primary]) == c.bits
  }

  /** The next free slot while length j is handled. Longer codes had larger tables, so it is a
      multiple of the size that length j needs. */
  predicate Aligned(next: nat, j: nat)
    requires j >= 8
  {
    next <= VALUES && Low(j - 8, next) == 0
  }

  lemma {:induction false} Multiple(k: nat, m: nat, x: nat)
    requires k <= m && x < Pow2(m) && Low(k, x) == 0
    ensures x + Pow2(k) <= Pow2(m) && Low(k, x + Pow2(k)) == 0
  {
    if k > 0 { Multiple(k - 1, m - 1, x / 2); }
  }

  /** So a table that starts within the slots ends within them. */
  lemma AlignedOpen(next: nat, j: nat)
    requires 9 <= j <= 15 && Aligned(next, j) && next < VALUES
    ensures Aligned(next + Pow2(j - 8), j)
  {
    assert Pow2(9) == VALUES;
    Multiple(j - 8, 9, next);
  }

  lemma AlignedDown(next: nat, j: nat)
    requires j >= 9 && Aligned(next, j)
    ensures Aligned(next, j - 1)
  {
    LowLow(j - 9, j - 8, next);
    LowSmall(j - 9, 0);
  }

  lemma AlignedStart(j: nat)
    requires j >= 8
    ensures Aligned(0, j)
  {
    LowSmall(j - 8, 0);
  }

  /** Make the secondary table for the prefix of code current, opening it if need be. */
  method OpenSecondary(ghost lens: seq<nat>, table: array<nat>, j: nat, code: nat, cur0: Current, next0: nat,
                       ghost u: nat, ghost i: nat, ghost owner0: seq<nat>)
    returns (ok: bool, cur: Current, next: nat, ghost owner: seq<nat>)
    requires table.Length == TABLE_SIZE && 9 <= j <= 15 && code < Pow2(j) && Usable(cur0, j)
    requires At(lens, u, j, i) && Reached(lens, j, i, code) && Aligned(next0, j)
    requires Valid(lens) ==> Building(lens, table[..], After(lens, j, i), owner0) && next0 == |owner0|
    requires Valid(lens) ==> Points(cur0, table[..])
    modifies table
    ensures ok ==> Usable(cur, j) && cur.primary == Low(8, code) < 256 && Aligned(next, j)
    ensures Valid(lens) && ok ==> Building(lens, table[..], After(lens, j, i), owner) && next == |owner|
    ensures Valid(lens) && ok ==> Points(cur, table[..])
    ensures Valid(lens) && !ok ==> Demand(lens, 256) > VALUES
  {
    LowEight(code);
    ok, cur, next, owner := true, cur0, next0, owner0;
    hide Low, Msb, Pow2, FirstCode, Count, CodeOf, Building, After, Demand, Pointer, KraftSum, Aligned;
    if cur0.primary != Low(8, code) {
      var primary := Low(8, code);
      var tprimary := table[primary];
      AfterStep(lens, u, j, i);
      ghost var t := table[..];
      if Valid(lens) {
        ReachedIsCode(lens, u, i, code);
        PrefixEntry(lens, t, After(lens, j, i), owner, u, code);
      }
      if tprimary == 0 {
        if Valid(lens) {
          OpenFits(lens, t, After(lens, j, i), owner, u, code);
        }
        Pow2Positive(j - 8);
        if next >= VALUES {
          ok := false;
          return;
        }
        AlignedOpen(next, j);
        cur := Current(primary, next, j - 8);
        table[primary] := Pointer(next, j - 8);
        PointerFields(next, j - 8);
        next := next + Pow2(j - 8);
        owner := owner + seq(Pow2(j - 8), _ => primary);
        if Valid(lens) {
          BuildingOpen(lens, t, table[..], After(lens, j, i), owner0, owner, u, code);
        }
      } else {
        ok := IsPointer(tprimary);
        cur := Current(primary, Value(tprimary), Width(tprimary));
        ok := ok && cur.bits >= j - 8;
      }
    }
  }

  lemma Pow2Positive(n: nat)
    ensures Pow2(n) >= 1
  {}

  /** One symbol of nine to fifteen bits, in the current secondary table. */
  method SecondarySymbol(ghost lens: seq<nat>, table: array<nat>, val: nat, j: nat, code: nat, cur: Current,
                         ghost i: nat, ghost owner: seq<nat>)
    returns (ok: bool)
    requires table.Length == TABLE_SIZE && 9 <= j <= 15 && Usable(cur, j) && cur.primary == Low(8, code) < 256
    requires At(lens, val, j, i) && Reached(lens, j, i, code)
    requires Valid(lens) ==> Building(lens, table[..], After(lens, j, i), owner) && Points(cur, table[..])
    modifies table
    ensures Valid(lens) ==> ok && Building(lens, table[..], After(lens, j, i + 1), owner) && Points(cur, table[..])
  {
    hide Low, Msb, Pow2, FirstCode, Count, CodeOf, Building, After, Shr, KraftSum, Value, Width, IsPointer, Filled;
    SmallWidth(cur.bits);
    HighPart(j, code);
    var tval := val + VALUES * (j - 8);
    AfterStep(lens, val, j, i);
    ghost var t := table[..];
    if Valid(lens) {
      ReachedIsCode(lens, val, i, code);
      forall k | 0 <= k < table.Length && InFill(k, 256 + cur.secondary, Shr(8, code), j - 8, cur.bits)
        ensures table[k] == 0
      {
        SlotFree(lens, t, After(lens, j, i), owner, val, code, k);
      }
    }
    ok := Fill(table, 256 + cur.secondary, Shr(8, code), j - 8, cur.bits, tval);
    if Valid(lens) {
      BuildingFill(lens, t, table[..], After(lens, j, i), owner, val, code);
      FilledKeeps(t, table[..], 256 + cur.secondary, Shr(8, code), j - 8, cur.bits, tval, cur.primary);
    }
  }

  lemma FilledKeeps(t: seq<nat>, t': seq<nat>, base: nat, code: nat, step: nat, limit: nat, e: nat, p: nat)
    requires Filled(t, t', base, code, step, limit, e) && p < base && p < |t|
    ensures |t'| == |t| && t'[p] == t[p]
  {}

  lemma HighPart(j: nat, code: nat)
    requires 8 <= j && code < Pow2(j)
    ensures Shr(8, code) < Pow2(j - 8)
  {
    LowLow(8, j, code);
    LowSmall(j, code);
  }

  lemma SlotFree(lens: seq<nat>, t: seq<nat>, done: set<nat>, owner: seq<nat>, u: nat, code: nat, k: nat)
    requires Building(lens, t, done, owner) && k < |t|
    requires u < |lens| && u !in done && 8 < lens[u] <= 15
    requires code < Pow2(lens[u]) && Msb(lens[u], code) == CodeOf(lens, u)
    requires Low(8, code) < 256 && IsPointer(t[Low(8, code)])
    requires var e := t[Low(8, code)]; InFill(k, 256 + Value(e), Shr(8, code), lens[u] - 8, Width(e))
    ensures t[k] == 0
  {
    hide Low, Shr, Msb, CodeOf, Pow2, Building, Secondary, Value, Width, IsPointer;
    BuildingParts(lens, t, done, owner);
    SecondaryFree(lens, t, done, owner, u, code, k - 256 - Value(t[Low(8, code)]));
  }

  /** All symbols of one length from 9 to 15. */
  method SecondaryLength(lens: seq<nat>, table: array<nat>, count: seq<nat>, start: seq<nat>, next: seq<nat>,
                         firstcode: seq<nat>, j: nat, nextSecondary0: nat, ghost owner0: seq<nat>)
    returns (ok: bool, nextSecondary: nat, ghost owner: seq<nat>)
    requires table.Length == TABLE_SIZE && 9 <= j <= 15
    requires Chains(lens, count, start, next) && Starts(lens, count, firstcode, 16) && Aligned(nextSecondary0, j)
    requires Valid(lens) ==> Building(lens, table[..], After(lens, j, 0), owner0) && nextSecondary0 == |owner0|
    modifies table
    ensures ok ==> Aligned(nextSecondary, j)
    ensures Valid(lens) && ok ==>
            Building(lens, table[..], After(lens, j, Count(lens, j)), owner) && nextSecondary == |owner|
    ensures Valid(lens) && !ok ==> Demand(lens, 256) > VALUES
  {
    hide Low, Msb, Pow2, FirstCode, Count, Building, After, Demand, KraftSum, Points, Aligned;
    ok, nextSecondary, owner := true, nextSecondary0, owner0;
    var jcnt := count[j];
    if jcnt == 0 {
      return;
    }
    var val, code, cur := start[j], firstcode[j - 9], Current(256, 0, 0);
    NoCurrent(table[..]);
    var i := 0;
    while i < jcnt
      invariant 0 <= i <= jcnt && Reached(lens, j, i, code) && Usable(cur, j) && Aligned(nextSecondary, j)
      invariant i < jcnt ==> At(lens, val, j, i)
      invariant Valid(lens) ==> Building(lens, table[..], After(lens, j, i), owner) && nextSecondary == |owner|
      invariant Valid(lens) ==> Points(cur, table[..])
    {
      ok, cur, nextSecondary, owner := OpenSecondary(lens, table, j, code, cur, nextSecondary, val, i, owner);
      if !ok {
        return;
      }
      ok := SecondarySymbol(lens, table, val, j, code, cur, i, owner);
      if !ok {
        return;
      }
      if i + 1 < jcnt {
        val := next[val];
      }
      ghost var before := code;
      code := Increment(j, code);
      ReachedNextCode(lens, j, i, before, code);
      i := i + 1;
    }
    ok := true;
  }

  lemma NoCurrent(t: seq<nat>)
    ensures Points(Current(256, 0, 0), t)
  {}

  /** The lengths from 15 down to 9. */
  method SecondaryTables(lens: seq<nat>, table: array<nat>, count: seq<nat>, start: seq<nat>, next: seq<nat>,
                         firstcode: seq<nat>)
    returns (ok: bool)
    requires table.Length == TABLE_SIZE && |lens| <= MAX_SYMBOLS
    requires Chains(lens, count, start, next) && Starts(lens, count, firstcode, 16)
    requires Valid(lens) ==> Primary(lens, table[..], Before(lens, 9, 0))
    modifies table
    ensures Valid(lens) && ok ==> TableFor(table[..], lens)
    ensures Valid(lens) ==> (ok <==> Demand(lens, 256) <= VALUES)
  {
    hide *;
    AlignedStart(15);
    var nextSecondary := 0;
    ghost var owner := [];
    if Valid(lens) {
      NothingLong(lens, table[..]);
    }
    var j := 15;
    while j >= 9
      invariant 8 <= j <= 15 && Aligned(nextSecondary, j)
      invariant Valid(lens) ==> Building(lens, table[..], After(lens, j, 0), owner) && nextSecondary == |owner|
    {
      ok, nextSecondary, owner := SecondaryLength(lens, table, count, start, next, firstcode, j, nextSecondary, owner);
      if !ok {
        return;
      }
      AfterNext(lens, j);
      AlignedDown(nextSecondary, j);
      j := j - 1;
    }
    ok := true;
    if Valid(lens) {
      AllInstalled(lens, table[..], owner);
      AlignedFits(nextSecondary, j);
    }
  }

  lemma NothingLong(lens: seq<nat>, t: seq<nat>)
    requires Valid(lens) && |lens| <= MAX_SYMBOLS && Primary(lens, t, Before(lens, 9, 0))
    ensures Building(lens, t, After(lens, 15, 0), [])
  {
    assert Before(lens, 9, 0) == set s | 0 <= s < |lens| && 1 <= lens[s] <= 8;
    BuildingStart(lens, t, Before(lens, 9, 0));
    assert After(lens, 15, 0) == {};
  }

  lemma AllInstalled(lens: seq<nat>, t: seq<nat>, owner: seq<nat>)
    requires Valid(lens) && |lens| <= MAX_SYMBOLS && Building(lens, t, After(lens, 8, 0), owner)
    ensures TableFor(t, lens) && |owner| == Demand(lens, 256)
  {
    assert After(lens, 8, 0) == set s | 0 <= s < |lens| && lens[s] > 8;
    hide Building, Secondary, Demand, Unopened, After, TableFor, Valid;
    BuildingParts(lens, t, After(lens, 8, 0), owner);
    FinishSecondary(lens, t, After(lens, 8, 0), owner);
    NothingUnopened(lens, t, After(lens, 8, 0), owner, 256);
  }

  lemma AlignedFits(next: nat, j: nat)
    requires j >= 8 && Aligned(next, j)
    ensures next <= VALUES
  {}

  /** Build the decoding table. Whatever the lengths, every access stays inside the table.
      For lengths with a Kraft sum of at most one, success means that the lookup decodes
      every code, and the only possible failure is running out of secondary slots. */
  method BuildTable(lens: seq<nat>, table: array<nat>) returns (ok: bool)
    requires table.Length == TABLE_SIZE && |lens| <= MAX_SYMBOLS
    modifies table
    ensures Valid(lens) && ok ==> TableFor(table[..], lens)
    ensures Valid(lens) ==> (ok <==> Demand(lens, 256) <= VALUES)
    ensures ok ==> forall s :: 0 <= s < |lens| ==> lens[s] <= MAX_LENGTH
  {
    var count, start, next, code, firstcode;
    ok, count, start, next := CountLengths(lens);
    if !ok {
      return;
    }
    var k := 0;
    while k < table.Length
      invariant 0 <= k <= table.Length && forall m :: 0 <= m < k ==> table[m] == 0
    {
      table[k] := 0;
      k := k + 1;
    }
    ok, code := PrimaryTable(lens, table, count, start, next);
    if !ok {
      return;
    }
    FewLongCodes(lens, count);
    ok, firstcode := FirstCodes(lens, count, code);
    if !ok {
      return;
    }
    hide Building, Demand, Chains, Starts, Count, After, Before, Primary, Valid, TableFor;
    ok := SecondaryTables(lens, table, count, start, next, firstcode);
  }

  lemma FewLongCodes(lens: seq<nat>, count: seq<nat>)
    requires |lens| <= MAX_SYMBOLS && |count| == 16 && forall l :: 0 <= l < 16 ==> count[l] == Count(lens, l)
    ensures forall l :: 9 <= l < 16 ==> count[l] < Pow2(l)
  {
    forall l | 9 <= l < 16
      ensures count[l] < Pow2(l)
    {
      Pow2Mono(9, l);
      assert Pow2(9) == 512;
    }
  }
}
