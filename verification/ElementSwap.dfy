/** The byte loop of sort.c's swap: exchanging two elements of an array byte by byte exchanges them as
    the sort needs it. */
module ElementSwap {
  import opened Words
  import opened Qsort

  method SwapBytes(m: array<byte>, a: nat, b: nat, size: nat)
    requires a + size <= m.Length && b + size <= m.Length && (a + size <= b || b + size <= a || a == b)
    modifies m
    ensures m[a..a + size] == old(m[b..b + size]) && m[b..b + size] == old(m[a..a + size])
    ensures forall k :: 0 <= k < m.Length && !(a <= k < a + size) && !(b <= k < b + size) ==> m[k] == old(m[k])
  {
    ghost var s := m[..];
    var i := 0;
    while i < size
      invariant 0 <= i <= size
      invariant forall k :: a <= k < a + i ==> m[k] == s[k - a + b]
      invariant forall k :: b <= k < b + i ==> m[k] == s[k - b + a]
      invariant forall k :: 0 <= k < m.Length && !(a <= k < a + i) && !(b <= k < b + i) ==> m[k] == s[k]
    {
      var t := m[a + i];
      m[a + i] := m[b + i];
      m[b + i] := t;
      i := i + 1;
    }
    assert m[a..a + size] == s[b..b + size] && m[b..b + size] == s[a..a + size];
  }

  /** Where element k starts. */
  function Offset(k: nat, size: nat): nat { k * size }

  lemma {:induction false} Offsets(k: nat, n: nat, size: nat)
    requires k < n
    ensures Offset(k, size) + size <= Offset(n, size)
  {
    assert Offset(n, size) == Offset(n - 1, size) + size;
    if k < n - 1 { hide Offset; Offsets(k, n - 1, size); }
  }

  /** The bytes of element k. */
  function Element(m: seq<byte>, size: nat, n: nat, k: nat): seq<byte>
    requires k < n && |m| == Offset(n, size)
  {
    Offsets(k, n, size);
    m[Offset(k, size)..Offset(k, size) + size]
  }

  /** The memory as an array of n elements. */
  function Elements(m: seq<byte>, size: nat, n: nat): (r: seq<seq<byte>>)
    requires |m| == Offset(n, size)
    ensures |r| == n && forall k :: 0 <= k < n ==> r[k] == Element(m, size, n, k)
  {
    seq(n, k requires 0 <= k < n => Element(m, size, n, k))
  }

  lemma ElementsApart(i: nat, j: nat, size: nat)
    requires i != j
    ensures Offset(i, size) + size <= Offset(j, size) || Offset(j, size) + size <= Offset(i, size)
  {
    if i < j { Offsets(i, j, size); } else { Offsets(j, i, size); }
  }

  method SwapElements(m: array<byte>, size: nat, n: nat, i: nat, j: nat)
    requires m.Length == Offset(n, size) && i < n && j < n
    modifies m
    ensures Elements(m[..], size, n) == Swapped(Elements(old(m[..]), size, n), i, j)
  {
    hide Elements, Element, Offset;
    ghost var s := m[..];
    Offsets(i, n, size);
    Offsets(j, n, size);
    if i != j { ElementsApart(i, j, size); }
    SwapBytes(m, Offset(i, size), Offset(j, size), size);
    ElementsSwapped(s, m[..], size, n, i, j);
  }

  lemma ElementsSwapped(s: seq<byte>, t: seq<byte>, size: nat, n: nat, i: nat, j: nat)
    requires i < n && j < n && |s| == |t| == Offset(n, size)
    requires var p, q := Offset(i, size), Offset(j, size);
             && p + size <= |s| && q + size <= |s|
             && t[p..p + size] == s[q..q + size] && t[q..q + size] == s[p..p + size]
             && forall k :: 0 <= k < |s| && !(p <= k < p + size) && !(q <= k < q + size) ==> t[k] == s[k]
    ensures Elements(t, size, n) == Swapped(Elements(s, size, n), i, j)
  {
    hide Offset, Elements;
    var u := Swapped(Elements(s, size, n), i, j);
    forall k | 0 <= k < n
      ensures Elements(t, size, n)[k] == u[k]
    {
      if k != i && k != j {
        ElementsApart(i, k, size);
        ElementsApart(j, k, size);
        Offsets(k, n, size);
        assert Element(s, size, n, k) == Element(t, size, n, k);
      }
    }
  }
}
