/** Canonical Huffman codes (section 3.2.2 of RFC 1951), independently of any table:
    which code each symbol has, when the lengths leave room for all of them, and that the
    codes are then prefix free. */
module Canonical {
  import opened Bits

  const MAX_LENGTH: nat := 15

  /** The number of symbols whose code has length `len`. */
  function Count(lens: seq<nat>, len: nat): (n: nat)
    ensures n <= |lens|
  {
    if |lens| == 0 then 0
    else Count(lens[..|lens| - 1], len) + (if lens[|lens| - 1] == len then 1 else 0)
  }

  /** The smallest code of length `len`. */
  function FirstCode(lens: seq<nat>, len: nat): nat
  {
    if len <= 1 then 0 else 2 * (FirstCode(lens, len - 1) + Count(lens, len - 1))
  }

  /** Symbols of equal length have consecutive codes, in symbol order. */
  function CodeOf(lens: seq<nat>, s: nat): nat
    requires s < |lens|
  {
    FirstCode(lens, lens[s]) + Count(lens[..s], lens[s])
  }

  /** Every length is at most 15, and the Kraft sum, in units of 2 to the power -15, is
      at most one. */
  ghost predicate Valid(lens: seq<nat>)
  {
    && (forall s :: 0 <= s < |lens| ==> lens[s] <= MAX_LENGTH)
    && KraftSum(lens) <= Pow2(MAX_LENGTH)
  }

  function KraftSum(lens: seq<nat>): nat
  {
    if |lens| == 0 then 0
    else KraftSum(lens[..|lens| - 1]) + Weight(lens[|lens| - 1])
  }

  function Weight(len: nat): nat
  {
    if 1 <= len <= MAX_LENGTH then Pow2(MAX_LENGTH - len) else 0
  }

  /** The stream value v starts with the code of symbol s. */
  ghost predicate Matches(lens: seq<nat>, s: nat, v: nat)
  {
    && s < |lens|
    && lens[s] > 0
    && Msb(lens[s], v) == CodeOf(lens, s)
  }

  // ----- room for the codes

  /** One more symbol of length l moves the first code of every longer length. */
  lemma {:induction false} FirstCodeAppend(lens: seq<nat>, l: nat, len: nat)
    ensures FirstCode(lens + [l], len) == FirstCode(lens, len) + (if 1 <= l < len then Pow2(len - l) else 0)
  {
    if len > 1 {
      FirstCodeAppend(lens, l, len - 1);
      assert (lens + [l])[..|lens|] == lens;
    }
  }

  /** The code after the last one of length 15 is the Kraft sum. */
  lemma {:induction false} KraftIsCodeSpace(lens: seq<nat>)
    ensures KraftSum(lens) == FirstCode(lens, MAX_LENGTH) + Count(lens, MAX_LENGTH)
  {
    var n := |lens|;
    if n == 0 {
      EmptyFirstCode(lens, MAX_LENGTH);
    } else {
      var rest := lens[..n - 1];
      assert lens == rest + [lens[n - 1]];
      KraftIsCodeSpace(rest);
      FirstCodeAppend(rest, lens[n - 1], MAX_LENGTH);
    }
  }

  lemma {:induction false} EmptyFirstCode(lens: seq<nat>, len: nat)
    requires lens == []
    ensures FirstCode(lens, len) == 0
  {
    if len > 1 { EmptyFirstCode(lens, len - 1); }
  }

  /** With a Kraft sum of at most one, no length runs out of codes. */
  lemma {:induction false} RoomAt(lens: seq<nat>, len: nat)
    requires Valid(lens) && 1 <= len <= MAX_LENGTH
    ensures FirstCode(lens, len) + Count(lens, len) <= Pow2(len)
    decreases MAX_LENGTH - len
  {
    if len == MAX_LENGTH {
      KraftIsCodeSpace(lens);
    } else {
      RoomAt(lens, len + 1);
    }
  }

  lemma {:induction false} CountPrefix(lens: seq<nat>, s: nat, t: nat, len: nat)
    requires s <= t <= |lens|
    ensures Count(lens[..s], len) <= Count(lens[..t], len)
    ensures s < t && lens[s] == len ==> Count(lens[..s], len) < Count(lens[..t], len)
  {
    if s < t {
      CountPrefix(lens, s, t - 1, len);
      assert lens[..t][..t - 1] == lens[..t - 1];
    }
  }

  lemma RankBelowCount(lens: seq<nat>, s: nat)
    requires s < |lens|
    ensures Count(lens[..s], lens[s]) < Count(lens, lens[s])
  {
    CountPrefix(lens, s, |lens|, lens[s]);
    assert lens[..|lens|] == lens;
  }

  /** Codes of length len, extended to a greater length, come before its first code. */
  lemma {:induction false} LongerCodesAreGreater(lens: seq<nat>, len: nat, longer: nat)
    requires 1 <= len < longer
    ensures Shl(longer - len, FirstCode(lens, len) + Count(lens, len)) <= FirstCode(lens, longer)
  {
    if len + 1 < longer {
      LongerCodesAreGreater(lens, len, longer - 1);
    }
  }

  lemma {:induction false} ShlShrBound(n: nat, x: nat, y: nat)
    requires Shl(n, x) <= y
    ensures x <= Shr(n, y)
  {
    if n > 0 {
      ShlShrBound(n - 1, x, y / 2);
    }
  }

  // ----- prefix freedom

  /** No stream starts with the codes of two symbols. */
  lemma MatchUnique(lens: seq<nat>, s: nat, t: nat, v: nat)
    requires Matches(lens, s, v) && Matches(lens, t, v)
    ensures s == t
  {
    if lens[s] == lens[t] {
      if s < t {
        CountPrefix(lens, s, t, lens[s]);
      } else if t < s {
        CountPrefix(lens, t, s, lens[s]);
      }
    } else if lens[s] < lens[t] {
      NoExtension(lens, s, t, v);
    } else {
      NoExtension(lens, t, s, v);
    }
  }

  lemma NoExtension(lens: seq<nat>, s: nat, t: nat, v: nat)
    requires Matches(lens, s, v) && s < |lens| && t < |lens| && lens[s] < lens[t]
    ensures !Matches(lens, t, v)
  {
    var a, b := lens[s], lens[t];
    MsbPrefix(b, a, v);
    RankBelowCount(lens, s);
    LongerCodesAreGreater(lens, a, b);
    if Matches(lens, t, v) {
      ShlShrBound(b - a, FirstCode(lens, a) + Count(lens, a), CodeOf(lens, t));
    }
  }

  // ----- completeness

  /** A symbol with a given length and rank. */
  lemma {:induction false} SymbolOfRank(lens: seq<nat>, len: nat, rank: nat) returns (s: nat)
    requires rank < Count(lens, len)
    ensures s < |lens| && lens[s] == len && Count(lens[..s], len) == rank
  {
    var n := |lens| - 1;
    var rest := lens[..n];
    if lens[n] == len && rank == Count(rest, len) {
      s := n;
    } else {
      s := SymbolOfRank(rest, len, rank);
      assert rest[..s] == lens[..s];
    }
  }

  /** When the Kraft sum is exactly one, every stream starts with some code. */
  lemma CompleteCode(lens: seq<nat>, v: nat) returns (s: nat)
    requires Valid(lens) && KraftSum(lens) == Pow2(MAX_LENGTH)
    ensures Matches(lens, s, v)
  {
    s := CodeAt(lens, v);
  }

  /** The codes leave no gap: a stream below the end of the code space starts with a code. */
  lemma CodeAt(lens: seq<nat>, v: nat) returns (s: nat)
    requires Msb(MAX_LENGTH, v) < KraftSum(lens)
    ensures Matches(lens, s, v)
  {
    KraftIsCodeSpace(lens);
    var len := 1;
    while FirstCode(lens, len) + Count(lens, len) <= Msb(len, v)
      invariant 1 <= len <= MAX_LENGTH
      invariant FirstCode(lens, len) <= Msb(len, v)
      decreases MAX_LENGTH - len
    {
      assert len != MAX_LENGTH;
      len := len + 1;
    }
    s := SymbolOfRank(lens, len, Msb(len, v) - FirstCode(lens, len));
  }
}
