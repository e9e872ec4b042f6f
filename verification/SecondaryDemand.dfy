/** How many secondary slots a set of lengths asks for: every 8-bit prefix of long codes
    needs a secondary table as wide as the longest of them. */
module SecondaryDemand {
  import opened Bits
  import opened Canonical
  import opened HuffmanTable
  import opened ReverseCounter

  /** The code of the long symbol s has the 8-bit prefix p. */
  ghost predicate Under(lens: seq<nat>, s: nat, p: nat)
  {
    s < |lens| && lens[s] > 8 && Shr(lens[s] - 8, CodeOf(lens, s)) == Msb(8, p)
  }

  /** The greatest length among the first n symbols under p, or 0. */
  ghost function Longest(lens: seq<nat>, p: nat, n: nat): (l: nat)
    requires n <= |lens|
    ensures forall s :: 0 <= s < n && Under(lens, s, p) ==> lens[s] <= l
    ensures l > 0 ==> l > 8 && exists s :: 0 <= s < n && Under(lens, s, p) && lens[s] == l
  {
    if n == 0 then 0
    else
      var l := Longest(lens, p, n - 1);
      if Under(lens, n - 1, p) && lens[n - 1] > l then lens[n - 1] else l
  }

  /** The size of the secondary table for prefix p, or 0 when it needs none. */
  ghost function Size(lens: seq<nat>, p: nat): nat
  {
    var l := Longest(lens, p, |lens|);
    if l == 0 then 0 else Pow2(l - 8)
  }

  /** The slots needed by the prefixes below n that are not yet pointers in t. */
  ghost function Unopened(lens: seq<nat>, t: seq<nat>, n: nat): nat
    requires n <= 256 <= |t|
  {
    if n == 0 then 0
    else Unopened(lens, t, n - 1) + (if IsPointer(t[n - 1]) then 0 else Size(lens, n - 1))
  }

  /** The slots needed by all prefixes below n. */
  ghost function Demand(lens: seq<nat>, n: nat): nat
  {
    if n == 0 then 0 else Demand(lens, n - 1) + Size(lens, n - 1)
  }

  lemma {:induction false} AllUnopened(lens: seq<nat>, t: seq<nat>, n: nat)
    requires n <= 256 <= |t| && forall p :: 0 <= p < 256 ==> !IsPointer(t[p])
    ensures Unopened(lens, t, n) == Demand(lens, n)
  {
    if n > 0 { AllUnopened(lens, t, n - 1); }
  }

  lemma {:induction false} UnopenedSame(lens: seq<nat>, t: seq<nat>, t': seq<nat>, n: nat)
    requires n <= 256 <= |t| && 256 <= |t'| && forall p :: 0 <= p < 256 ==> t'[p] == t[p]
    ensures Unopened(lens, t', n) == Unopened(lens, t, n)
  {
    if n > 0 { UnopenedSame(lens, t, t', n - 1); }
  }

  lemma {:induction false} UnopenedOpen(lens: seq<nat>, t: seq<nat>, p: nat, e: nat, n: nat)
    requires n <= 256 <= |t| && p < 256 && !IsPointer(t[p]) && IsPointer(e)
    ensures Unopened(lens, t, n) == Unopened(lens, t[p := e], n) + (if p < n then Size(lens, p) else 0)
  {
    hide Size;
    if n > 0 { UnopenedOpen(lens, t, p, e, n - 1); }
  }

  /** Every code is matched by some stream. */
  lemma StreamFor(lens: seq<nat>, s: nat) returns (v: nat)
    requires Valid(lens) && s < |lens| && lens[s] > 0
    ensures Matches(lens, s, v)
  {
    RoomAt(lens, lens[s]);
    RankBelowCount(lens, s);
    var c := CodeOf(lens, s);
    v := IncTimes(lens[s], 0, c);
    IncTimesAdds(lens[s], 0, c);
    MsbZero(lens[s]);
    LowSmall(lens[s], c);
  }

  lemma {:induction false} MsbZero(n: nat)
    ensures Msb(n, 0) == 0
  {
    if n > 0 {
      MsbZero(n - 1);
      LowSmall(n - 1, 0);
    }
  }

  /** Once a long symbol is in the table, its prefix is a pointer. */
  lemma PointerAbove(lens: seq<nat>, t: seq<nat>, done: set<nat>, owner: seq<nat>, s: nat, p: nat)
    requires Valid(lens) && Secondary(lens, t, done, owner)
    requires s in done && p < 256 && Under(lens, s, p)
    ensures IsPointer(t[p])
  {
    assert Pow2(8) == 256;
    hide Low, Msb, Shr, CodeOf, KraftSum, Pow2;
    var v := StreamFor(lens, s);
    MsbPrefix(lens[s], 8, v);
    MsbInjective(8, v, p);
    LowSmall(8, p);
    assert LongAt(lens, t, s, v);
  }

  /** Once all long symbols are in the table, no prefix needs slots any more. */
  lemma {:induction false} NothingUnopened(lens: seq<nat>, t: seq<nat>, done: set<nat>, owner: seq<nat>, n: nat)
    requires Valid(lens) && Secondary(lens, t, done, owner) && n <= 256
    requires forall s :: 0 <= s < |lens| && lens[s] > 8 ==> s in done
    ensures Unopened(lens, t, n) == 0
  {
    if n > 0 {
      NothingUnopened(lens, t, done, owner, n - 1);
      NoSizeUnopened(lens, t, done, owner, n - 1);
    }
  }

  lemma NoSizeUnopened(lens: seq<nat>, t: seq<nat>, done: set<nat>, owner: seq<nat>, p: nat)
    requires Valid(lens) && Secondary(lens, t, done, owner) && p < 256
    requires forall s :: 0 <= s < |lens| && lens[s] > 8 ==> s in done
    ensures IsPointer(t[p]) || Size(lens, p) == 0
  {
    hide Secondary, Valid, Longest, IsPointer, Pow2;
    if Longest(lens, p, |lens|) > 0 {
      var s :| 0 <= s < |lens| && Under(lens, s, p);
      PointerAbove(lens, t, done, owner, s, p);
    }
  }

  lemma UnderSelf(lens: seq<nat>, u: nat, code: nat)
    requires u < |lens| && 8 < lens[u] && Msb(lens[u], code) == CodeOf(lens, u)
    ensures Under(lens, u, Low(8, code))
  {
    MsbPrefix(lens[u], 8, code);
    MsbLow(8, 8, code);
  }

  /** The first long code met under a prefix, longest lengths first, is a longest one. */
  lemma SizeAtOpen(lens: seq<nat>, t: seq<nat>, done: set<nat>, owner: seq<nat>, u: nat, code: nat)
    requires Valid(lens) && Secondary(lens, t, done, owner)
    requires u < |lens| && 8 < lens[u] && Msb(lens[u], code) == CodeOf(lens, u)
    requires forall s :: 0 <= s < |lens| && lens[s] > lens[u] ==> s in done
    requires Low(8, code) < 256 && t[Low(8, code)] == 0
    ensures Size(lens, Low(8, code)) == Pow2(lens[u] - 8)
    ensures forall s :: 0 <= s < |lens| && Under(lens, s, Low(8, code)) ==> lens[s] <= lens[u]
  {
    hide Secondary, Under, Valid, Low, Msb, Pow2, CodeOf, Longest;
    var p, j := Low(8, code), lens[u];
    UnderSelf(lens, u, code);
    forall s | 0 <= s < |lens| && Under(lens, s, p)
      ensures lens[s] <= j
    {
      if lens[s] > j { PointerAbove(lens, t, done, owner, s, p); }
    }
  }

  /** Every open secondary table is wide enough for all codes under its prefix. */
  ghost predicate Wide(lens: seq<nat>, t: seq<nat>)
    requires 256 <= |t|
  {
    forall p, s :: 0 <= p < 256 && IsPointer(t[p]) && 0 <= s < |lens| && Under(lens, s, p) ==>
                     lens[s] <= Width(t[p]) + 8
  }

  /** The secondary tables so far, with the slots used and still needed adding up. */
  ghost predicate Building(lens: seq<nat>, t: seq<nat>, done: set<nat>, owner: seq<nat>)
  {
    && Secondary(lens, t, done, owner)
    && Wide(lens, t)
    && |owner| + Unopened(lens, t, 256) == Demand(lens, 256)
  }

  lemma BuildingParts(lens: seq<nat>, t: seq<nat>, done: set<nat>, owner: seq<nat>)
    requires Building(lens, t, done, owner)
    ensures 256 <= |t| == TABLE_SIZE && Secondary(lens, t, done, owner) && Wide(lens, t)
    ensures |owner| + Unopened(lens, t, 256) == Demand(lens, 256)
  {}

  lemma BuildingWhole(lens: seq<nat>, t: seq<nat>, done: set<nat>, owner: seq<nat>)
    requires |t| == TABLE_SIZE && Secondary(lens, t, done, owner) && Wide(lens, t)
    requires |owner| + Unopened(lens, t, 256) == Demand(lens, 256)
    ensures Building(lens, t, done, owner)
  {}

  lemma WideOpen(lens: seq<nat>, t: seq<nat>, p: nat, e: nat, j: nat)
    requires 256 <= |t| && p < 256 && Wide(lens, t) && Width(e) + 8 == j
    requires forall s :: 0 <= s < |lens| && Under(lens, s, p) ==> lens[s] <= j
    ensures Wide(lens, t[p := e])
  {
    hide Under, Width, IsPointer;
  }

  lemma BuildingStart(lens: seq<nat>, t: seq<nat>, shorts: set<nat>)
    requires Valid(lens) && |lens| <= VALUES && Primary(lens, t, shorts)
    requires shorts == set s | 0 <= s < |lens| && 1 <= lens[s] <= 8
    ensures Building(lens, t, {}, [])
  {
    hide Low, Msb, Pow2, CodeOf, Longest, KraftSum;
    StartSecondary(lens, t, shorts);
    AllUnopened(lens, t, 256);
  }

  /** A new secondary table fits in the demand. */
  lemma OpenFits(lens: seq<nat>, t: seq<nat>, done: set<nat>, owner: seq<nat>, u: nat, code: nat)
    requires Valid(lens) && Building(lens, t, done, owner)
    requires u < |lens| && 8 < lens[u] && Msb(lens[u], code) == CodeOf(lens, u)
    requires forall s :: 0 <= s < |lens| && lens[s] > lens[u] ==> s in done
    requires Low(8, code) < 256 && t[Low(8, code)] == 0
    ensures |owner| + Pow2(lens[u] - 8) <= Demand(lens, 256)
  {
    hide *;
    BuildingParts(lens, t, done, owner);
    ZeroEntry();
    SizeAtOpen(lens, t, done, owner, u, code);
    UnopenedOpen(lens, t, Low(8, code), SECONDARY, 256);
  }

  lemma BuildingOpen(lens: seq<nat>, t: seq<nat>, t': seq<nat>, done: set<nat>, owner: seq<nat>, owner': seq<nat>,
                     u: nat, code: nat)
    requires Valid(lens) && Building(lens, t, done, owner) && |owner| < VALUES
    requires u < |lens| && 8 < lens[u] <= 15
    requires code < Pow2(lens[u]) && Msb(lens[u], code) == CodeOf(lens, u)
    requires forall s :: 0 <= s < |lens| && lens[s] > lens[u] ==> s in done
    requires Low(8, code) < 256 && t[Low(8, code)] == 0
    requires t' == t[Low(8, code) := Pointer(|owner|, lens[u] - 8)]
    requires owner' == owner + seq(Pow2(lens[u] - 8), _ => Low(8, code))
    ensures Building(lens, t', done, owner')
  {
    hide *;
    BuildingParts(lens, t, done, owner);
    var p, j := Low(8, code), lens[u];
    PointerFields(|owner|, j - 8);
    ZeroEntry();
    SizeAtOpen(lens, t, done, owner, u, code);
    UnopenedOpen(lens, t, p, Pointer(|owner|, j - 8), 256);
    OpenStep(lens, t, done, owner, u, code);
    WideOpen(lens, t, p, Pointer(|owner|, j - 8), j);
    BuildingWhole(lens, t', done, owner');
  }

  lemma ZeroEntry()
    ensures !IsPointer(0) && IsPointer(SECONDARY)
  {}

  lemma BuildingFill(lens: seq<nat>, t: seq<nat>, t': seq<nat>, done: set<nat>, owner: seq<nat>, u: nat, code: nat)
    requires Valid(lens) && Building(lens, t, done, owner)
    requires u < |lens| && u !in done && 8 < lens[u] <= 15
    requires code < Pow2(lens[u]) && Msb(lens[u], code) == CodeOf(lens, u)
    requires Low(8, code) < 256 && IsPointer(t[Low(8, code)]) && lens[u] <= Width(t[Low(8, code)]) + 8
    requires var e := t[Low(8, code)];
             Filled(t, t', 256 + Value(e), Shr(8, code), lens[u] - 8, Width(e), Entry(lens, u))
    ensures Building(lens, t', done + {u}, owner)
  {
    hide Low, Msb, CodeOf, Secondary, Under, Longest, Valid, Size, Pow2, Shr;
    UnopenedSame(lens, t, t', 256);
    FillStep(lens, t, t', done, owner, u, code);
  }

  /** What the primary entry of a long code's prefix can be. */
  lemma PrefixEntry(lens: seq<nat>, t: seq<nat>, done: set<nat>, owner: seq<nat>, u: nat, code: nat)
    requires Building(lens, t, done, owner)
    requires u < |lens| && 8 < lens[u] && Msb(lens[u], code) == CodeOf(lens, u)
    requires Low(8, code) < 256
    ensures var e := t[Low(8, code)]; e == 0 || (IsPointer(e) && lens[u] <= Width(e) + 8)
  {
    hide Low, Msb, CodeOf, Longest, Size, Pow2, Shr;
    var p := Low(8, code);
    if t[p] != 0 && !IsPointer(t[p]) {
      var s: nat :| Matches(lens, s, p) && lens[s] <= 8;
      NoShortPrefix(lens, u, code, s);
    }
    UnderSelf(lens, u, code);
  }
}
