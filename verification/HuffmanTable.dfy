/** The two-level Huffman decoding table of elf.c: a 256-entry primary table indexed by
    the next eight bits, followed by secondary tables for codes of 9 to 15 bits. An entry
    is value + 512 * bits, plus 4096 in the primary table when the value is the offset of
    a secondary table and bits its index width. */
module HuffmanTable {
  import opened Bits
  import opened Canonical

  const TABLE_SIZE: nat := 1024
  const VALUES: nat := 512       // HUFFMAN_VALUE_MASK + 1, and 1 << HUFFMAN_BITS_SHIFT
  const SECONDARY: nat := 4096   // 1 << HUFFMAN_SECONDARY_SHIFT

  function Value(e: nat): nat { e % 512 }

  function Width(e: nat): nat { e / 512 % 8 }

  predicate IsPointer(e: nat) { e / 4096 % 2 == 1 }

  /** A field as used in an index: at most 7 bits wide. */
  lemma SmallWidth(b: nat)
    requires b <= 7
    ensures Pow2(b) <= 128
  {
    Pow2Mono(b, 7);
    assert Pow2(7) == 128;
  }

  /** Where the entry for the stream value v is found. */
  function Slot(t: seq<nat>, v: nat): (k: nat)
    requires |t| == TABLE_SIZE
    ensures k < TABLE_SIZE
  {
    LowEight(v);
    var e := t[Low(8, v)];
    if IsPointer(e) then
      SmallWidth(Width(e));
      256 + Value(e) + Low(Width(e), Shr(8, v))
    else Low(8, v)
  }

  lemma LowEight(v: nat)
    ensures Low(8, v) < 256
  {
    assert Pow2(8) == 256;
  }

  /** The table lookup: the symbol, and how many bits its code has. */
  function Lookup(t: seq<nat>, v: nat): (r: (nat, nat))
    requires |t| == TABLE_SIZE
  {
    LowEight(v);
    var e := t[Slot(t, v)];
    (Value(e), Width(e) + (if IsPointer(t[Low(8, v)]) then 8 else 1))
  }

  /** The table decodes every code of lens. */
  ghost predicate TableFor(t: seq<nat>, lens: seq<nat>)
  {
    && |t| == TABLE_SIZE
    && forall s: nat, v: nat :: Matches(lens, s, v) ==> Lookup(t, v) == (s, lens[s])
  }

  /** A table that decodes lens, if these are the lengths of a prefix code at all. */
  ghost predicate Decodes(t: seq<nat>, lens: seq<nat>)
  {
    |t| == TABLE_SIZE && (Valid(lens) ==> TableFor(t, lens))
  }

  /** The entry for symbol s. */
  function Entry(lens: seq<nat>, s: nat): nat
    requires s < |lens| && lens[s] > 0
  {
    s + VALUES * (if lens[s] <= 8 then lens[s] - 1 else lens[s] - 8)
  }

  lemma EntryFields(lens: seq<nat>, s: nat)
    requires s < |lens| && 0 < lens[s] <= 15 && s < VALUES
    ensures Value(Entry(lens, s)) == s && !IsPointer(Entry(lens, s))
    ensures Width(Entry(lens, s)) == (if lens[s] <= 8 then lens[s] - 1 else lens[s] - 8)
  {}

  /** The pointer entry for a secondary table. */
  function Pointer(offset: nat, width: nat): nat
  {
    offset + VALUES * width + SECONDARY
  }

  lemma PointerFields(offset: nat, width: nat)
    requires offset < VALUES && width <= 7
    ensures IsPointer(Pointer(offset, width)) && Value(Pointer(offset, width)) == offset
    ensures Width(Pointer(offset, width)) == width
  {}

  // ----- the primary table

  /** The primary table holds the codes of the symbols in done, all of at most 8 bits,
      and nothing else. */
  ghost predicate Primary(lens: seq<nat>, t: seq<nat>, done: set<nat>)
  {
    && |t| == TABLE_SIZE
    && (forall s, p :: s in done && 0 <= p < 256 && Matches(lens, s, p) ==> t[p] == Entry(lens, s))
    && (forall p :: 0 <= p < 256 && t[p] != 0 ==> exists s :: s in done && Matches(lens, s, p))
    && (forall k :: 256 <= k < TABLE_SIZE ==> t[k] == 0)
  }

  /** t' is t with the slots of code, repeated every 2 to the power step, set to e. */
  ghost predicate Filled(t: seq<nat>, t': seq<nat>, base: nat, code: nat, step: nat, limit: nat, e: nat)
  {
    && |t'| == |t| && base + Pow2(limit) <= |t|
    && (forall k :: 0 <= k < |t| && !InFill(k, base, code, step, limit) ==> t'[k] == t[k])
    && (forall k :: 0 <= k < |t| && InFill(k, base, code, step, limit) ==> t'[k] == e)
  }

  predicate InFill(k: nat, base: nat, code: nat, step: nat, limit: nat)
  {
    base <= k < base + Pow2(limit) && Low(step, k - base) == code
  }

  lemma PrimaryStep(lens: seq<nat>, t: seq<nat>, t': seq<nat>, done: set<nat>, u: nat, code: nat)
    requires Primary(lens, t, done)
    requires u < |lens| && u !in done && 0 < lens[u] <= 8
    requires code < Pow2(lens[u]) && Msb(lens[u], code) == CodeOf(lens, u)
    requires Filled(t, t', 0, code, lens[u], 8, Entry(lens, u))
    ensures Primary(lens, t', done + {u})
  {
    assert Pow2(8) == 256;
    forall p: nat | p < 256
      ensures InFill(p, 0, code, lens[u], 8) <==> Matches(lens, u, p)
    {
      SlotIsMatch(lens, u, code, p);
    }
    forall s, p | s in done + {u} && 0 <= p < 256 && Matches(lens, s, p)
      ensures t'[p] == Entry(lens, s)
    {
      if s != u && Matches(lens, u, p) { MatchUnique(lens, s, u, p); }
    }
    forall p | 0 <= p < 256 && t'[p] != 0
      ensures exists s :: s in done + {u} && Matches(lens, s, p)
    {
      if Matches(lens, u, p) { assert u in done + {u}; }
    }
  }

  lemma SlotIsMatch(lens: seq<nat>, u: nat, code: nat, p: nat)
    requires u < |lens| && 0 < lens[u]
    requires code < Pow2(lens[u]) && Msb(lens[u], code) == CodeOf(lens, u)
    ensures Low(lens[u], p) == code <==> Matches(lens, u, p)
  {
    MsbInjective(lens[u], p, code);
    LowSmall(lens[u], code);
  }

  /** Under a valid set of lengths the slots of a new code are still free. */
  lemma PrimaryFree(lens: seq<nat>, t: seq<nat>, done: set<nat>, u: nat, code: nat, p: nat)
    requires Primary(lens, t, done)
    requires u < |lens| && u !in done && 0 < lens[u] <= 8
    requires code < Pow2(lens[u]) && Msb(lens[u], code) == CodeOf(lens, u)
    requires p < 256 && Low(lens[u], p) == code
    ensures t[p] == 0
  {
    SlotIsMatch(lens, u, code, p);
    if t[p] != 0 {
      var s :| s in done && Matches(lens, s, p);
      MatchUnique(lens, s, u, p);
    }
  }

  // ----- the secondary tables

  /** Pointer entry p owns the secondary slots it spans. */
  ghost predicate Region(t: seq<nat>, p: nat, owner: seq<nat>)
    requires p < |t|
  {
    var first, size := Value(t[p]), Pow2(Width(t[p]));
    && first + size <= |owner|
    && forall k :: first <= k < first + size ==> owner[k] == p
  }

  /** The stream value v leads to the entry of the long symbol s. */
  ghost predicate LongAt(lens: seq<nat>, t: seq<nat>, s: nat, v: nat)
    requires |t| == TABLE_SIZE && s < |lens| && lens[s] > 0
  {
    LowEight(v);
    var e := t[Low(8, v)];
    IsPointer(e) && lens[s] <= Width(e) + 8 && t[Slot(t, v)] == Entry(lens, s)
  }

  /** All short codes are in the primary table; the long symbols in done are in secondary
      tables; owner[k] is the primary index whose secondary table holds slot 256 + k. */
  ghost predicate Secondary(lens: seq<nat>, t: seq<nat>, done: set<nat>, owner: seq<nat>)
  {
    && |t| == TABLE_SIZE && |owner| <= 640
    && (forall s: nat, p :: 0 <= p < 256 && Matches(lens, s, p) && lens[s] <= 8 ==> t[p] == Entry(lens, s))
    && (forall p :: 0 <= p < 256 && t[p] != 0 && !IsPointer(t[p]) ==>
          exists s: nat :: Matches(lens, s, p) && lens[s] <= 8)
    && (forall p :: 0 <= p < 256 && IsPointer(t[p]) ==> Region(t, p, owner))
    && (forall k :: 256 + |owner| <= k < TABLE_SIZE ==> t[k] == 0)
    && (forall s :: s in done ==> s < |lens| && lens[s] > 8)
    && (forall s, v: nat :: s in done && Matches(lens, s, v) ==> LongAt(lens, t, s, v))
    && (forall p, i: nat :: 0 <= p < 256 && IsPointer(t[p]) && i < Pow2(Width(t[p])) && Used(t, p, i) ==>
          exists s :: s in done && Matches(lens, s, p + Shl(8, i)))
  }

  ghost predicate Used(t: seq<nat>, p: nat, i: nat)
    requires |t| == TABLE_SIZE && p < 256 && i < Pow2(Width(t[p]))
  {
    SmallWidth(Width(t[p]));
    t[256 + Value(t[p]) + i] != 0
  }

  lemma StartSecondary(lens: seq<nat>, t: seq<nat>, shorts: set<nat>)
    requires Valid(lens) && |lens| <= VALUES && Primary(lens, t, shorts)
    requires shorts == set s | 0 <= s < |lens| && 1 <= lens[s] <= 8
    ensures Secondary(lens, t, {}, [])
    ensures forall p :: 0 <= p < 256 ==> !IsPointer(t[p])
  {
    forall p | 0 <= p < 256
      ensures !IsPointer(t[p])
    {
      if t[p] != 0 {
        var s :| s in shorts && Matches(lens, s, p);
        EntryFields(lens, s);
      }
    }
  }

  /** Below its first 8 bits, the code of a long symbol is matched by the rest of v. */
  lemma LongSlot(lens: seq<nat>, u: nat, code: nat, v: nat)
    requires u < |lens| && 8 < lens[u]
    requires code < Pow2(lens[u]) && Msb(lens[u], code) == CodeOf(lens, u)
    ensures Matches(lens, u, v) <==> Low(8, v) == Low(8, code) && Low(lens[u] - 8, Shr(8, v)) == Shr(8, code)
  {
    hide Low, Shr, Msb, CodeOf, Pow2;
    var j := lens[u];
    SlotIsMatch(lens, u, code, v);
    LowLow(8, j, v);
    if Low(8, v) == Low(8, code) && Low(j - 8, Shr(8, v)) == Shr(8, code) {
      SameParts(8, Low(j, v), code);
    }
  }

  /** A short code is matched by eight bits. */
  lemma ShortMatch(lens: seq<nat>, s: nat, v: nat)
    requires s < |lens| && 0 < lens[s] <= 8
    ensures Matches(lens, s, v) <==> Matches(lens, s, Low(8, v))
  {
    MsbLow(lens[s], 8, v);
  }

  /** Opening a secondary table for the first, and longest, code with prefix p. */
  lemma OpenStep(lens: seq<nat>, t: seq<nat>, done: set<nat>, owner: seq<nat>, u: nat, code: nat)
    requires Secondary(lens, t, done, owner) && |owner| < VALUES
    requires u < |lens| && 8 < lens[u] <= 15
    requires code < Pow2(lens[u]) && Msb(lens[u], code) == CodeOf(lens, u)
    requires Low(8, code) < 256 && t[Low(8, code)] == 0
    ensures Pow2(lens[u] - 8) <= 128
    ensures Secondary(lens, t[Low(8, code) := Pointer(|owner|, lens[u] - 8)], done,
                      owner + seq(Pow2(lens[u] - 8), _ => Low(8, code)))
  {
    hide Low, Shr, Msb, Shl, CodeOf, Pow2, Entry, Pointer, IsPointer, Value, Width, LongAt;
    var p, j := Low(8, code), lens[u];
    SmallWidth(j - 8);
    var e := Pointer(|owner|, j - 8);
    PointerFields(|owner|, j - 8);
    var t', owner' := t[p := e], owner + seq(Pow2(j - 8), _ => p);
    forall s: nat | Matches(lens, s, p) && lens[s] <= 8
      ensures false
    {
      NoShortPrefix(lens, u, code, s);
    }
    forall p' | 0 <= p' < 256 && IsPointer(t'[p'])
      ensures Region(t', p', owner')
    {
      if p' != p { assert Region(t, p', owner); }
    }
    forall s, v: nat | s in done && Matches(lens, s, v)
      ensures LongAt(lens, t', s, v)
    {
      OpenKeeps(lens, t, t', p, s, v);
    }
    forall p', i: nat | 0 <= p' < 256 && IsPointer(t'[p']) && i < Pow2(Width(t'[p'])) && Used(t', p', i)
      ensures exists s :: s in done && Matches(lens, s, p' + Shl(8, i))
    {
      if p' != p { assert Used(t, p', i); }
    }
  }

  /** The prefix of a long code is in no short code's slots. */
  lemma NoShortPrefix(lens: seq<nat>, u: nat, code: nat, s: nat)
    requires u < |lens| && 8 < lens[u] && Msb(lens[u], code) == CodeOf(lens, u)
    requires s < |lens| && lens[s] <= 8
    ensures !Matches(lens, s, Low(8, code))
  {
    if Matches(lens, s, Low(8, code)) {
      ShortMatch(lens, s, code);
      MatchUnique(lens, s, u, code);
    }
  }

  lemma OpenKeeps(lens: seq<nat>, t: seq<nat>, t': seq<nat>, p: nat, s: nat, v: nat)
    requires |t| == TABLE_SIZE && s < |lens| && lens[s] > 0
    requires p < 256 && t[p] == 0 && |t'| == |t| && forall k :: 0 <= k < |t| && k != p ==> t'[k] == t[k]
    requires LongAt(lens, t, s, v)
    ensures LongAt(lens, t', s, v)
  {
    hide Low, Shr, Pow2, Entry, Value, Width, IsPointer;
    LowEight(v);
    ZeroIsNone();
  }

  lemma ZeroIsNone()
    ensures !IsPointer(0)
  {}

  /** Filling the slots of a long code in the secondary table of its prefix. */
  lemma FillStep(lens: seq<nat>, t: seq<nat>, t': seq<nat>, done: set<nat>, owner: seq<nat>, u: nat, code: nat)
    requires Secondary(lens, t, done, owner)
    requires u < |lens| && u !in done && 8 < lens[u] <= 15
    requires code < Pow2(lens[u]) && Msb(lens[u], code) == CodeOf(lens, u)
    requires Low(8, code) < 256 && IsPointer(t[Low(8, code)]) && lens[u] <= Width(t[Low(8, code)]) + 8
    requires var e := t[Low(8, code)];
             Filled(t, t', 256 + Value(e), Shr(8, code), lens[u] - 8, Width(e), Entry(lens, u))
    ensures Secondary(lens, t', done + {u}, owner)
  {
    hide Low, Shr, Msb, Shl, CodeOf, Matches, LongAt, Entry, Pow2, Value, Width, IsPointer, Used;
    var p := Low(8, code);
    var e := t[p];
    assert Region(t, p, owner);
    forall p' | 0 <= p' < 256 && IsPointer(t'[p'])
      ensures Region(t', p', owner)
    {
      assert t'[p'] == t[p'];
      assert Region(t, p', owner);
    }
    forall s, v: nat | s in done + {u} && Matches(lens, s, v)
      ensures LongAt(lens, t', s, v)
    {
      FillKeeps(lens, t, t', owner, u, code, s, v);
    }
    forall p', i: nat | 0 <= p' < 256 && IsPointer(t'[p']) && i < Pow2(Width(t'[p'])) && Used(t', p', i)
      ensures exists s :: s in done + {u} && Matches(lens, s, p' + Shl(8, i))
    {
      FillUsed(lens, t, t', done, owner, u, code, p', i);
    }
  }

  lemma FillKeeps(lens: seq<nat>, t: seq<nat>, t': seq<nat>, owner: seq<nat>, u: nat, code: nat, s: nat, v: nat)
    requires |t| == TABLE_SIZE && |owner| <= 640
    requires u < |lens| && 8 < lens[u] <= 15
    requires code < Pow2(lens[u]) && Msb(lens[u], code) == CodeOf(lens, u)
    requires Low(8, code) < 256 && IsPointer(t[Low(8, code)]) && lens[u] <= Width(t[Low(8, code)]) + 8
    requires forall p :: 0 <= p < 256 && IsPointer(t[p]) ==> Region(t, p, owner)
    requires var e := t[Low(8, code)];
             Filled(t, t', 256 + Value(e), Shr(8, code), lens[u] - 8, Width(e), Entry(lens, u))
    requires Matches(lens, s, v) && (s == u || LongAt(lens, t, s, v))
    ensures LongAt(lens, t', s, v)
  {
    LowEight(v);
    hide Low, Shr, Msb, Shl, CodeOf;
    var p, b := Low(8, code), Width(t[Low(8, code)]);
    LongSlot(lens, u, code, v);
    LowLow(lens[u] - 8, b, Shr(8, v));
    assert t'[Low(8, v)] == t[Low(8, v)];
    if s == u {
      assert Slot(t, v) == Slot(t', v);
      assert InFill(Slot(t, v), 256 + Value(t[p]), Shr(8, code), lens[u] - 8, b);
    } else if Low(8, v) == p {
      if Matches(lens, u, v) { MatchUnique(lens, s, u, v); }
    } else {
      assert Region(t, p, owner) && Region(t, Low(8, v), owner);
      assert owner[Slot(t, v) - 256] == Low(8, v);
    }
  }

  lemma FillUsed(lens: seq<nat>, t: seq<nat>, t': seq<nat>, done: set<nat>, owner: seq<nat>,
                 u: nat, code: nat, p': nat, i: nat)
    requires Secondary(lens, t, done, owner)
    requires u < |lens| && u !in done && 8 < lens[u] <= 15
    requires code < Pow2(lens[u]) && Msb(lens[u], code) == CodeOf(lens, u)
    requires Low(8, code) < 256 && IsPointer(t[Low(8, code)]) && lens[u] <= Width(t[Low(8, code)]) + 8
    requires var e := t[Low(8, code)];
             Filled(t, t', 256 + Value(e), Shr(8, code), lens[u] - 8, Width(e), Entry(lens, u))
    requires p' < 256 && IsPointer(t'[p']) && i < Pow2(Width(t'[p'])) && Used(t', p', i)
    ensures exists s :: s in done + {u} && Matches(lens, s, p' + Shl(8, i))
  {
    hide Low, Shr, Msb, Shl, CodeOf, Matches, LongAt, Entry, Pow2, Value, Width, IsPointer;
    var p := Low(8, code);
    var k := 256 + Value(t[p']) + i;
    assert Region(t, p, owner) && Region(t, p', owner);
    assert t'[p'] == t[p'];
    if InFill(k, 256 + Value(t[p]), Shr(8, code), lens[u] - 8, Width(t[p])) {
      assert owner[k - 256] == p == p';
      LongInSlot(lens, u, code, i);
      assert u in done + {u};
    } else {
      assert Used(t, p', i);
      var s :| s in done && Matches(lens, s, p' + Shl(8, i));
      assert s in done + {u};
    }
  }

  /** The slots of a long code are those whose value it matches. */
  lemma LongInSlot(lens: seq<nat>, u: nat, code: nat, i: nat)
    requires u < |lens| && 8 < lens[u] && code < Pow2(lens[u]) && Msb(lens[u], code) == CodeOf(lens, u)
    requires Low(8, code) < 256 && Low(lens[u] - 8, i) == Shr(8, code)
    ensures Matches(lens, u, Low(8, code) + Shl(8, i))
  {
    assert Pow2(8) == 256;
    Join(8, Low(8, code), i);
    hide *;
    LongSlot(lens, u, code, Low(8, code) + Shl(8, i));
  }

  /** Under a valid set of lengths the slots of a new long code are still free. */
  lemma SecondaryFree(lens: seq<nat>, t: seq<nat>, done: set<nat>, owner: seq<nat>, u: nat, code: nat, i: nat)
    requires Secondary(lens, t, done, owner)
    requires u < |lens| && u !in done && 8 < lens[u] <= 15
    requires code < Pow2(lens[u]) && Msb(lens[u], code) == CodeOf(lens, u)
    requires Low(8, code) < 256 && IsPointer(t[Low(8, code)])
    requires i < Pow2(Width(t[Low(8, code)])) && Low(lens[u] - 8, i) == Shr(8, code)
    ensures !Used(t, Low(8, code), i)
  {
    hide Low, Shr, Msb, Shl, CodeOf, Matches, LongAt, Entry, Pow2, Value, Width, IsPointer, Used, Region;
    var p := Low(8, code);
    if Used(t, p, i) {
      var s :| s in done && Matches(lens, s, p + Shl(8, i));
      LongInSlot(lens, u, code, i);
      MatchUnique(lens, s, u, p + Shl(8, i));
    }
  }

  /** When all long symbols are done the table decodes everything. */
  lemma FinishSecondary(lens: seq<nat>, t: seq<nat>, done: set<nat>, owner: seq<nat>)
    requires Valid(lens) && |lens| <= VALUES && Secondary(lens, t, done, owner)
    requires done == set s | 0 <= s < |lens| && lens[s] > 8
    ensures TableFor(t, lens)
  {
    hide Secondary, Lookup, Valid, CodeOf, Msb;
    SecondarySize(lens, t, done, owner);
    forall s: nat, v: nat | Matches(lens, s, v)
      ensures Lookup(t, v) == (s, lens[s])
    {
      FinishOne(lens, t, done, owner, s, v);
    }
  }

  lemma SecondarySize(lens: seq<nat>, t: seq<nat>, done: set<nat>, owner: seq<nat>)
    requires Secondary(lens, t, done, owner)
    ensures |t| == TABLE_SIZE
  {}

  lemma FinishOne(lens: seq<nat>, t: seq<nat>, done: set<nat>, owner: seq<nat>, s: nat, v: nat)
    requires Valid(lens) && |lens| <= VALUES && Secondary(lens, t, done, owner)
    requires (forall s :: 0 <= s < |lens| && lens[s] > 8 ==> s in done) && Matches(lens, s, v)
    ensures |t| == TABLE_SIZE && Lookup(t, v) == (s, lens[s])
  {
    hide Low, Shr, Msb, Shl, CodeOf, Pow2, Value, Width, IsPointer, Entry, Region, Used;
    LowEight(v);
    EntryFields(lens, s);
    if lens[s] <= 8 { ShortMatch(lens, s, v); } else { assert LongAt(lens, t, s, v); }
  }
}
