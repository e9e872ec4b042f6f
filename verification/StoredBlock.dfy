/** Stored blocks (section 3.2.4 of RFC 1951) as elf_zlib_inflate copies them. */
module StoredBlock {
  import opened Words
  import opened BitReader

  datatype Stored = Bad | Bytes(from: nat, len: nat)

  /** The block whose length stands at byte p: a length, its complement, and the bytes. */
  function BlockAt(data: seq<byte>, p: nat): (b: Stored)
    ensures b.Bytes? ==> b.from == p + 4 && b.from + b.len <= |data|
  {
    if p + 4 > |data| then Bad
    else
      var len, nlen := Half(data, p), Half(data, p + 2);
      if len + nlen != 0xffff || p + 4 + len > |data| then Bad else Bytes(p + 4, len)
  }

  function Half(data: seq<byte>, p: nat): nat
    requires p + 2 <= |data|
  {
    data[p] as nat + 256 * (data[p + 1] as nat)
  }

  /** A difference of two pointers as `unsigned int`. */
  function Cast(n: nat): (r: nat)
    ensures r <= n && (n < TWO32 ==> r == n)
  {
    n % TWO32
  }

  /** The block fits, and the room left in the input or in the output is cast to less than its
      length. */
  predicate StoredCut(b: Stored, input: nat, pout: nat, size: nat)
    requires b.Bytes? ==> b.from + b.len <= input
  {
    b.Bytes? && pout + b.len <= size && (Cast(input - b.from) < b.len || Cast(size - pout) < b.len)
  }

  /** Copy one stored block to out. Its length is taken from the byte behind the one the reader
      stands in. The block there is copied if and only if it fits and is not cut. */
  method CopyStored(r: Reader, out: array<byte>, pout: nat) returns (ok: bool, next: nat)
    requires r.Valid() && r.bits > 0 && pout <= out.Length
    modifies r, out
    ensures r.Loose() && r.bits == 0 && r.Position() >= old(r.Position())
    ensures var b := BlockAt(r.data, old(r.Position()) / 8 + 1);
            && (ok ==> b.Bytes? && next == pout + b.len <= out.Length && r.Position() == 8 * (b.from + b.len))
            && (ok ==> out[..next] == old(out[..pout]) + r.data[b.from..b.from + b.len])
            && (ok <==> b.Bytes? && pout + b.len <= out.Length && !StoredCut(b, |r.data|, pout, out.Length))
  {
    hide Cast, Half;
    r.Rewind();
    next := pout;
    if |r.data| - r.pin < 4 {
      return false, next;
    }
    var len := Half(r.data, r.pin);
    var lenc := 0xffff - Half(r.data, r.pin + 2);
    if len != lenc || len > Cast(|r.data| - (r.pin + 4)) || len > Cast(out.Length - pout) {
      return false, next;
    }
    var from := r.pin + 4;
    CopyBytes(r.data, from, out, pout, len);
    next := pout + len;
    r.Skip(4 + len);
    ok := true;
  }

  /** memcpy from the input. */
  method CopyBytes(data: seq<byte>, from: nat, out: array<byte>, pout: nat, len: nat)
    requires from + len <= |data| && pout + len <= out.Length
    modifies out
    ensures out[..pout + len] == old(out[..pout]) + data[from..from + len]
  {
    var i := 0;
    while i < len
      invariant 0 <= i <= len
      invariant out[..pout + i] == old(out[..pout]) + data[from..from + i]
    {
      out[pout + i] := data[from + i];
      assert data[from..from + i + 1] == data[from..from + i] + [data[from + i]];
      assert out[..pout + i + 1] == out[..pout + i] + [out[pout + i]];
      i := i + 1;
    }
  }
}
