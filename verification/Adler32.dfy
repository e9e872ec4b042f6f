/** The zlib checksum (RFC 1950, sections 2.2 and 8.2), checked with few modulo operations. */
module Adler32 {
  import opened Words

  const BASE: nat := 65521
  const BLOCK: nat := 5552          // bytes between two modulo operations

  // ----- the definition: both sums are reduced after every byte

  function Sums(data: seq<byte>, n: nat): (s: (nat, nat))
    requires n <= |data|
    ensures s.0 < BASE && s.1 < BASE
  {
    if n == 0 then (1, 0)
    else
      var (s1, s2) := Sums(data, n - 1);
      var t := (s1 + data[n - 1]) % BASE;
      (t, (s2 + t) % BASE)
  }

  /** The four check bytes, most significant first. */
  function CheckBytes(data: seq<byte>): (r: seq<byte>)
    ensures |r| == 4
  {
    var (s1, s2) := Sums(data, |data|);
    [s2 / 256, s2 % 256, s1 / 256, s1 % 256]
  }

  /** The sum of the first n bytes, and the sum of those sums. */
  function ByteSum(data: seq<byte>, n: nat): nat
    requires n <= |data|
  {
    if n == 0 then 0 else ByteSum(data, n - 1) + data[n - 1]
  }

  function SumOfSums(data: seq<byte>, n: nat): nat
    requires n <= |data|
  {
    if n == 0 then 0 else SumOfSums(data, n - 1) + 1 + ByteSum(data, n)
  }

  /** In closed form (section 2.2 of RFC 1950): sums over the whole data, modulo 65521. */
  lemma {:induction false} SumsClosed(data: seq<byte>, n: nat)
    requires n <= |data|
    ensures Sums(data, n) == ((1 + ByteSum(data, n)) % 65521, SumOfSums(data, n) % 65521)
  {
    if n > 0 {
      SumsClosed(data, n - 1);
      var a, b, d := 1 + ByteSum(data, n - 1), SumOfSums(data, n - 1), data[n - 1];
      var t := (a % BASE + d) % BASE;
      assert Sums(data, n) == (t, (b % BASE + t) % BASE);
      hide Sums;
      NextSums(a, b, d);
    }
  }

  lemma NextSums(a: nat, b: nat, d: nat)
    ensures (a % BASE + d) % BASE == (a + d) % BASE
    ensures (b % BASE + (a + d) % BASE) % BASE == (b + (a + d)) % BASE
  {
    ModAdd(a, d);
    ModAdd(b, (a + d) % BASE);
    ModAdd(b, a + d);
  }

  /** The check bytes of abc are 02 4d 01 27. */
  lemma CheckOfAbc()
    ensures CheckBytes([0x61, 0x62, 0x63]) == [0x02, 0x4d, 0x01, 0x27]
  {
    var abc: seq<byte> := [0x61, 0x62, 0x63];
    assert Sums(abc, 1) == (98, 98);
    assert Sums(abc, 2) == (196, 294);
    assert Sums(abc, 3) == (295, 589);
  }

  // ----- why it can be deferred

  /** The sums before reduction, once n bytes were added since the last reduction. */
  ghost predicate Deferred(data: seq<byte>, p: nat, n: nat, s1: nat, s2: nat)
    requires p <= |data|
  {
    && Sums(data, p) == (s1 % BASE, s2 % BASE)
    && s1 <= BASE - 1 + 255 * n && s2 <= (BASE - 1) * (n + 1) + 255 * Tri(n)
  }

  function Tri(n: nat): nat { if n == 0 then 0 else n + Tri(n - 1) }

  lemma {:induction false} TriBound(n: nat, m: nat)
    requires n <= m
    ensures 2 * Tri(n) <= m * (m + 1)
  {
    if n > 0 {
      TriBound(n - 1, m - 1);
      assert (m - 1) * m + 2 * m == m * (m + 1);
    }
  }

  /** Up to 5552 bytes fit in 32 bits. */
  lemma DeferredFits(data: seq<byte>, p: nat, n: nat, s1: nat, s2: nat)
    requires p <= |data| && Deferred(data, p, n, s1, s2) && n <= BLOCK
    ensures s1 < TWO32 && s2 < TWO32
  {
    TriBound(n, BLOCK);
    hide Tri;
  }

  lemma ModAdd(x: nat, y: nat)
    ensures (x % BASE + y) % BASE == (x + y) % BASE && (x + y % BASE) % BASE == (x + y) % BASE
  {}

  lemma DeferredStep(data: seq<byte>, p: nat, n: nat, s1: nat, s2: nat)
    requires p < |data| && Deferred(data, p, n, s1, s2)
    ensures Deferred(data, p + 1, n + 1, s1 + data[p], s2 + (s1 + data[p]))
  {
    ModAdd(s1, data[p]);
    var t: nat := s1 + data[p];
    ModAdd(s2, t % BASE);
    ModAdd(s2, t);
  }

  lemma DeferredReduce(data: seq<byte>, p: nat, n: nat, s1: nat, s2: nat)
    requires p <= |data| && Deferred(data, p, n, s1, s2)
    ensures Deferred(data, p, 0, s1 % BASE, s2 % BASE)
  {}

  // ----- the loops, in 32-bit arithmetic

  function Add32(x: nat, y: nat): (r: nat)
    ensures x + y < TWO32 ==> r == x + y
  {
    (x + y) % TWO32
  }

  /** The loop body, unrolled sixteen times or alone. */
  method AddBytes(data: seq<byte>, p: nat, count: nat, s1: nat, s2: nat, ghost n: nat) returns (t1: nat, t2: nat)
    requires p + count <= |data| && n + count <= BLOCK && Deferred(data, p, n, s1, s2)
    ensures Deferred(data, p + count, n + count, t1, t2)
  {
    hide Deferred, Sums;
    t1, t2 := s1, s2;
    var i := 0;
    while i < count
      invariant 0 <= i <= count && Deferred(data, p + i, n + i, t1, t2)
    {
      DeferredStep(data, p + i, n + i, t1, t2);
      DeferredFits(data, p + i + 1, n + i + 1, t1 + data[p + i], t2 + (t1 + data[p + i]));
      t1 := Add32(t1, data[p + i]);
      t2 := Add32(t2, t1);
      i := i + 1;
    }
  }

  /** elf_zlib_verify_checksum: accepts exactly the four bytes of the definition. */
  method VerifyChecksum(check: seq<byte>, data: seq<byte>) returns (ok: bool)
    requires |check| == 4
    ensures ok <==> check == CheckBytes(data)
  {
    hide Deferred, Sums, CheckBytes;
    var cksum := 0;
    var i := 0;
    while i < 4
      invariant 0 <= i <= 4 && cksum == Joined(check[..i])
    {
      assert check[..i + 1][..i] == check[..i];
      cksum := (cksum * 256 + check[i]) % TWO32;
      i := i + 1;
    }
    var s1: nat, s2: nat, p: nat, hsz: nat := 1, 0, 0, |data|;
    StartDeferred(data);
    while hsz >= BLOCK
      invariant p + hsz == |data| && Deferred(data, p, 0, s1, s2)
    {
      i := 0;
      while i < BLOCK
        invariant i <= BLOCK && i % 16 == 0 && p + hsz == |data| + i && hsz >= BLOCK
        invariant Deferred(data, p, i, s1, s2)
      {
        s1, s2 := AddBytes(data, p, 16, s1, s2, i);
        p, i := p + 16, i + 16;
      }
      hsz := hsz - BLOCK;
      DeferredReduce(data, p, BLOCK, s1, s2);
      s1, s2 := s1 % BASE, s2 % BASE;
    }
    ghost var left := hsz;
    while hsz >= 16
      invariant hsz <= left < BLOCK && p + hsz == |data| && Deferred(data, p, left - hsz, s1, s2)
    {
      s1, s2 := AddBytes(data, p, 16, s1, s2, left - hsz);
      p, hsz := p + 16, hsz - 16;
    }
    s1, s2 := AddBytes(data, p, hsz, s1, s2, left - hsz);
    DeferredReduce(data, |data|, left, s1, s2);
    s1, s2 := s1 % BASE, s2 % BASE;
    Compare(check, data, s1, s2);
    assert check[..4] == check;
    ok := Add32(s2 * 65536 % TWO32, s1) == cksum;
  }

  /** The number spelled by up to four bytes, most significant first. */
  function Joined(s: seq<byte>): (v: nat)
    requires |s| <= 4
    ensures (|s| < 2 ==> v < 0x100) && (|s| < 3 ==> v < 0x1_0000) && (|s| < 4 ==> v < 0x100_0000)
    ensures v < TWO32
  {
    if |s| == 0 then 0
    else Joined(s[..|s| - 1]) * 256 + s[|s| - 1]
  }

  lemma StartDeferred(data: seq<byte>)
    ensures Deferred(data, 0, 0, 1, 0)
  {}

  lemma JoinedFour(s: seq<byte>)
    requires |s| == 4
    ensures Joined(s) == (s[0] as nat * 256 + s[1]) * 0x1_0000 + (s[2] as nat * 256 + s[3])
  {
    var c0: nat, c1: nat, c2: nat := s[0], s[1], s[2];
    assert Joined(s[..1]) == c0 by { assert s[..1][..0] == []; }
    assert Joined(s[..2]) == c0 * 256 + c1 by { assert s[..2][..1] == s[..1]; }
    assert Joined(s[..3]) == (c0 * 256 + c1) * 256 + c2 by { assert s[..3][..2] == s[..2]; }
  }

  lemma Halves(hi: nat, lo: nat, s1: nat, s2: nat)
    requires lo < 0x1_0000 && s1 < 0x1_0000
    ensures s2 * 0x1_0000 + s1 == hi * 0x1_0000 + lo <==> s2 == hi && s1 == lo
  {}

  lemma TwoBytes(a: byte, b: byte, s: nat)
    requires s < 0x1_0000
    ensures s == a as nat * 256 + b <==> a == s / 256 && b == s % 256
  {}

  lemma Compare(check: seq<byte>, data: seq<byte>, s1: nat, s2: nat)
    requires |check| == 4 && s1 < BASE && s2 < BASE && Deferred(data, |data|, 0, s1, s2)
    ensures s2 * 65536 + s1 == Joined(check) <==> check == CheckBytes(data)
    ensures s2 * 65536 + s1 < TWO32
  {
    hide Joined, Sums;
    JoinedFour(check);
    Halves(check[0] as nat * 256 + check[1], check[2] as nat * 256 + check[3], s1, s2);
    TwoBytes(check[0], check[1], s2);
    TwoBytes(check[2], check[3], s1);
    assert Sums(data, |data|) == (s1, s2);
  }

  // ----- what the checksum is good for

  /** The first sum, with one reduction at the end. */
  function Total(data: seq<byte>, n: nat): nat
    requires n <= |data|
  {
    if n == 0 then 1 else Total(data, n - 1) + data[n - 1]
  }

  lemma {:induction false} FirstSum(data: seq<byte>, n: nat)
    requires n <= |data|
    ensures Sums(data, n).0 == Total(data, n) % BASE
  {
    if n > 0 {
      FirstSum(data, n - 1);
      ModAdd(Total(data, n - 1), data[n - 1]);
    }
  }

  lemma {:induction false} TotalUpdate(data: seq<byte>, k: nat, b: byte, n: nat)
    requires k < |data| && n <= |data|
    ensures Total(data[k := b], n) == if k < n then Total(data, n) - data[k] + b else Total(data, n)
  {
    if n > 0 { TotalUpdate(data, k, b, n - 1); }
  }

  /** Any change of one byte is noticed. */
  lemma DetectsOneByte(data: seq<byte>, k: nat, b: byte)
    requires k < |data| && b != data[k]
    ensures CheckBytes(data[k := b]) != CheckBytes(data)
  {
    FirstSum(data, |data|);
    FirstSum(data[k := b], |data|);
    TotalUpdate(data, k, b, |data|);
    SameRest(Total(data, |data|), Total(data[k := b], |data|));
  }

  lemma SameRest(x: nat, y: nat)
    requires x != y && -256 < x - y < 256
    ensures x % BASE != y % BASE
  {}
}
