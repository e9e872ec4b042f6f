/** read_abbrevs and lookup_abbrev: a counting pass, a filling pass that must agree with it, a
    sort, and lookup by position or binary search. */
module Abbreviations {
  import opened Words
  import opened Leb128
  import opened AbbrevSpec
  import Qsort
  import Search

  // ----- the counting pass

  /** Underflow leaves nothing to read. */
  ghost predicate Drained(b: Buffer)
    reads b
  {
    b.pos <= |b.data| && (b.underflow ==> b.pos == |b.data|)
  }

  /** What is at start has count elements before pos and the rest at pos. */
  ghost predicate Counted<T>(whole: Read<seq<T>>, count: nat, rest: Read<seq<T>>)
  {
    && (whole.Got? <==> rest.Got?)
    && (rest.Got? ==> whole.next == rest.next && |whole.value| == count + |rest.value|)
  }

  /** Read one attribute behind its name; nothing is kept. */
  method SkipForm(b: Buffer, ghost start: nat)
    requires !b.underflow && b.pos <= |b.data| && U64(b.data, start).Got? && b.pos == U64(b.data, start).next
    modifies b
    ensures Drained(b)
    ensures var a := OneAttr(b.data, start);
            if a.Got? then !b.underflow && b.pos == a.next else b.underflow
  {
    hide Unsigned, Signed, Wrap64;
    var form := b.ReadUleb128();
    if Enum(form) == IMPLICIT_CONST {
      var _ := b.ReadSleb128();
    }
  }

  /** The loop over the attributes, up to a zero name. */
  method CountAttrs(b: Buffer) returns (n: nat)
    requires Drained(b)
    modifies b
    ensures Drained(b)
    ensures old(b.underflow) ==> b.underflow
    ensures !old(b.underflow) ==>
              var list := AttrList(b.data, old(b.pos));
              if list.Got? then !b.underflow && b.pos == list.next && n == |list.value| else b.underflow
  {
    hide OneAttr, U64;
    n := 0;
    ghost var start := b.pos;
    while true
      invariant Drained(b) && (old(b.underflow) ==> b.underflow)
      invariant !old(b.underflow) && !b.underflow ==> Counted(AttrList(b.data, start), n, AttrList(b.data, b.pos))
      invariant !old(b.underflow) && b.underflow ==> AttrList(b.data, start).Short?
      decreases |b.data| - b.pos
    {
      ghost var at, dry := b.pos, b.underflow;
      ReadIs(b.data, b.pos);
      var name := b.ReadUleb128();
      if name == 0 {
        break;
      }
      n := n + 1;
      SkipForm(b, at);
    }
  }

  lemma ReadIs(data: seq<byte>, pos: nat)
    ensures var r := Unsigned(data, pos); U64(data, pos) == if r.Got? then Got(r.value % TWO64, r.next) else Short
  {}

  /** The counting pass: it succeeds exactly when the bytes hold a whole table. */
  method CountTable(b: Buffer) returns (ok: bool, n: nat)
    requires !b.underflow && b.pos <= |b.data|
    modifies b
    ensures ok <==> Table(b.data, old(b.pos)).Got?
    ensures ok ==> n == |Table(b.data, old(b.pos)).value|
  {
    hide U64, Body;
    ok, n := false, 0;
    ghost var start := b.pos;
    while true
      invariant Drained(b)
      invariant !b.underflow ==> Counted(Table(b.data, start), n, Table(b.data, b.pos))
      invariant b.underflow ==> Table(b.data, start).Short?
      decreases |b.data| - b.pos
    {
      ReadIs(b.data, b.pos);
      var code := b.ReadUleb128();
      if code == 0 {
        break;
      }
      if b.underflow {
        return;
      }
      n := n + 1;
      SkipBody(b, code);
    }
    ok := !b.underflow;
  }

  /** One abbreviation behind its code; nothing is kept. */
  method SkipBody(b: Buffer, ghost code: nat)
    requires !b.underflow && b.pos <= |b.data|
    modifies b
    ensures Drained(b) && b.pos >= old(b.pos)
    ensures var a := Body(b.data, old(b.pos), code);
            if a.Got? then !b.underflow && b.pos == a.next else b.underflow
  {
    hide AttrList, Unsigned;
    var _ := b.ReadUleb128();
    var _ := b.ReadByte();
    var _ := CountAttrs(b);
    var _ := b.ReadUleb128();
  }

  // ----- the filling pass

  /** One attribute, or the zero name and the form behind it. */
  method ReadAttr(b: Buffer) returns (name: nat, a: Attr)
    requires !b.underflow && b.pos <= |b.data|
    requires var n := U64(b.data, b.pos);
             n.Got? && if n.value == 0 then U64(b.data, n.next).Got? else OneAttr(b.data, b.pos).Got?
    modifies b
    ensures !b.underflow && b.pos <= |b.data|
    ensures var n := U64(b.data, old(b.pos));
            && n.Got? && n.value == name
            && if name == 0 then U64(b.data, n.next).Got? && b.pos == U64(b.data, n.next).next
               else OneAttr(b.data, old(b.pos)) == Got(a, b.pos)
  {
    hide Unsigned, Signed, Wrap64;
    name := b.ReadUleb128();
    var form := b.ReadUleb128();
    a := Attr(Enum(name), Enum(form), 0);
    if name == 0 {
      return;
    }
    if Enum(form) == IMPLICIT_CONST {
      var val := b.ReadSleb128();
      a := Attr(Enum(name), Enum(form), val);
    }
  }

  /** Fill an array of the counted size; the reads are those of the counting loop. */
  method FillAttrs(b: Buffer, count: nat) returns (attrs: array<Attr>)
    requires !b.underflow && b.pos <= |b.data|
    requires var r := Attrs(b.data, b.pos); r.Got? && |r.value| == count
    modifies b
    ensures fresh(attrs) && !b.underflow && b.pos <= |b.data|
    ensures Attrs(b.data, old(b.pos)) == Got(attrs[..], b.pos)
  {
    hide U64, OneAttr;
    attrs := new Attr[count](_ => Attr(0, 0, 0));
    if count == 0 {
      ReadIs(b.data, b.pos);
      var _ := b.ReadUleb128();
      ReadIs(b.data, b.pos);
      var _ := b.ReadUleb128();
      assert attrs[..] == [];
      return;
    }
    ghost var list := AttrList(b.data, b.pos);
    var n := 0;
    while true
      invariant !b.underflow && b.pos <= |b.data| && 0 <= n <= count
      invariant var rest := AttrList(b.data, b.pos);
                rest.Got? && rest.next == list.next && attrs[..n] + rest.value == list.value
      decreases |b.data| - b.pos
    {
      ghost var rest := AttrList(b.data, b.pos);
      var name, a := ReadAttr(b);
      if name == 0 {
        assert attrs[..n] == list.value;
        break;
      }
      attrs[n] := a;
      assert attrs[..n + 1] == attrs[..n] + [a];
      assert rest.value == [a] + AttrList(b.data, b.pos).value;
      n := n + 1;
    }
    assert attrs[..n] == attrs[..];
  }

  /** The memory that a table of these entries asks for, besides its own: one block for each entry
      that has attributes. */
  function Blocks(entries: seq<Abbrev>): nat
  {
    if |entries| == 0 then 0
    else Blocks(entries[..|entries| - 1]) + (if |entries[|entries| - 1].attrs| > 0 then 1 else 0)
  }

  lemma {:induction false} BlocksJoin(s: seq<Abbrev>, t: seq<Abbrev>)
    ensures Blocks(s + t) == Blocks(s) + Blocks(t)
  {
    if |t| == 0 {
      assert s + t == s;
    } else {
      var u := t[..|t| - 1];
      assert (s + t)[..|s + t| - 1] == s + u;
      BlocksJoin(s, u);
    }
  }

  lemma OneBlock(s: seq<Abbrev>, a: Abbrev, t: seq<Abbrev>)
    ensures Blocks(s + [a]) == Blocks(s) + (if |a.attrs| > 0 then 1 else 0)
    ensures Blocks(s + ([a] + t)) == Blocks(s + [a]) + Blocks(t)
  {
    assert (s + [a])[..|s|] == s;
    BlocksJoin(s + [a], t);
    assert s + [a] + t == s + ([a] + t);
  }

  /** One abbreviation: its attributes are counted on a copy of the buffer, then read. granted tells
      which requests for memory succeed, and k is the number of the next one. */
  method FillBody(b: Buffer, code: nat, granted: nat -> bool, k: nat) returns (ok: bool, a: Abbrev)
    requires !b.underflow && b.pos <= |b.data| && Body(b.data, b.pos, code).Got?
    modifies b
    ensures ok <==> |Body(b.data, old(b.pos), code).value.attrs| == 0 || granted(k)
    ensures ok ==> !b.underflow && b.pos <= |b.data| && Body(b.data, old(b.pos), code) == Got(a, b.pos)
  {
    hide Unsigned, AttrList;
    var tag := b.ReadUleb128();
    var children := b.ReadByte();
    var copy := new Buffer(b.data, b.pos, b.underflow);
    var count := CountAttrs(copy);
    if count > 0 && !granted(k) {
      return false, Abbrev(0, 0, 0, []);
    }
    var attrs := FillAttrs(b, count);
    return true, Abbrev(code, Enum(tag), children, attrs[..]);
  }

  /** The filling pass writes exactly the counted entries, in order, if all its requests for memory
      are granted. */
  method FillTable(b: Buffer, count: nat, granted: nat -> bool) returns (ok: bool, table: array<Abbrev>)
    requires !b.underflow && b.pos <= |b.data|
    requires var r := Table(b.data, b.pos); r.Got? && |r.value| == count
    modifies b
    ensures fresh(table)
    ensures ok <==> forall i :: 1 <= i <= Blocks(Table(b.data, old(b.pos)).value) ==> granted(i)
    ensures ok ==> !b.underflow && Table(b.data, old(b.pos)) == Got(table[..], b.pos)
  {
    hide U64, Body, Table, Blocks;
    table := new Abbrev[count](_ => Abbrev(0, 0, 0, []));
    ghost var list := Table(b.data, b.pos);
    var n, k := 0, 1;
    NoBlocks(table[..0]);
    while true
      invariant !b.underflow && b.pos <= |b.data| && 0 <= n <= count
      invariant var rest := Table(b.data, b.pos);
                rest.Got? && rest.next == list.next && table[..n] + rest.value == list.value
      invariant k == 1 + Blocks(table[..n]) && forall i :: 1 <= i < k ==> granted(i)
      decreases |b.data| - b.pos
    {
      ghost var rest, done := Table(b.data, b.pos), table[..n];
      ReadIs(b.data, b.pos);
      TableStep(b.data, b.pos);
      var code := b.ReadUleb128();
      if code == 0 {
        assert table[..n] == list.value;
        break;
      }
      var a;
      ghost var entry := Body(b.data, b.pos, code);
      OneBlock(done, entry.value, Table(b.data, entry.next).value);
      ok, a := FillBody(b, code, granted, k);
      if !ok {
        return;
      }
      k := k + (if |a.attrs| > 0 then 1 else 0);
      table[n] := a;
      assert table[..n + 1] == done + [a];
      assert rest.value == [a] + Table(b.data, b.pos).value;
      n := n + 1;
    }
    assert table[..n] == table[..];
    ok := true;
  }

  lemma NoBlocks(s: seq<Abbrev>)
    ensures |s| == 0 ==> Blocks(s) == 0
  {}

  lemma TableStep(data: seq<byte>, pos: nat)
    requires Table(data, pos).Got?
    ensures var c := U64(data, pos);
            && c.Got?
            && (c.value == 0 ==> Table(data, pos) == Got([], c.next))
            && (c.value != 0 ==>
                  var a := Body(data, c.next, c.value);
                  && a.Got? && Table(data, a.next).Got?
                  && Table(data, pos) == Got([a.value] + Table(data, a.next).value, Table(data, a.next).next))
  {
    hide U64, Body;
  }

  // ----- the whole, and lookup

  function CompareCodes(x: Abbrev, y: Abbrev): int
  {
    if x.code < y.code then -1 else if x.code > y.code then 1 else 0
  }

  ghost predicate ByCode(s: seq<Abbrev>) { forall i, j :: 0 <= i < j < |s| ==> s[i].code <= s[j].code }

  ghost predicate HasCode(s: seq<Abbrev>, c: int) { exists i :: 0 <= i < |s| && s[i].code == c }

  /** How many requests for memory a table makes: none if it is empty. */
  function Requests(entries: seq<Abbrev>): nat { if |entries| == 0 then 0 else 1 + Blocks(entries) }

  /** read_abbrevs: it succeeds exactly when the offset is inside the section, the bytes there hold a
      whole table, and all memory for it is granted; and then returns that table's entries sorted by
      code. */
  method ReadAbbrevs(data: seq<byte>, offset: nat, granted: nat -> bool) returns (ok: bool, table: array<Abbrev>)
    ensures ok <==> offset < |data| && Table(data, offset).Got? &&
                    forall i :: 0 <= i < Requests(Table(data, offset).value) ==> granted(i)
    ensures ok ==> multiset(table[..]) == multiset(Table(data, offset).value) && ByCode(table[..])
    ensures ok ==> forall c :: HasCode(Table(data, offset).value, c) <==> HasCode(table[..], c)
  {
    hide Table, Blocks;
    table := new Abbrev[0](_ => Abbrev(0, 0, 0, []));
    if offset >= |data| {
      return false, table;
    }
    var buf := new Buffer(data, offset, false);
    var copy := new Buffer(buf.data, buf.pos, buf.underflow);
    var n;
    ok, n := CountTable(copy);
    if !ok {
      return;
    }
    ghost var list := Table(data, offset).value;
    if n == 0 {
      assert list == [];
      assert table[..] == [];
      return;
    }
    if !granted(0) {
      return false, table;
    }
    ok, table := FillTable(buf, n, granted);
    if ok {
      ghost var _ := Qsort.Sort(table, 0, n, CompareCodes);
      SortedTable(list, table[..]);
    }
  }

  lemma SortedTable(list: seq<Abbrev>, table: seq<Abbrev>)
    requires Qsort.Permuted(list, table, 0, |list|) && Qsort.Sorted(CompareCodes, table, 0, |table|)
    ensures multiset(table) == multiset(list) && ByCode(table)
    ensures forall c :: HasCode(list, c) <==> HasCode(table, c)
  {
    assert list[0..|list|] == list && table[0..|list|] == table;
    forall c ensures HasCode(list, c) <==> HasCode(table, c) {
      SomeKept(list, table, c);
      SomeKept(table, list, c);
    }
  }

  lemma SomeKept(s: seq<Abbrev>, t: seq<Abbrev>, c: int)
    requires multiset(s) == multiset(t)
    ensures HasCode(s, c) ==> HasCode(t, c)
  {
    if HasCode(s, c) {
      var i :| 0 <= i < |s| && s[i].code == c;
      assert s[i] in multiset(t);
    }
  }

  /** lookup_abbrev: the entry at its own number, or a binary search; an entry is found if and
      only if there is one. */
  method LookupAbbrev(table: array<Abbrev>, code: nat) returns (found: bool, at: nat)
    requires ByCode(table[..]) && code < TWO64 && table.Length < TWO64
    ensures found <==> HasCode(table[..], code)
    ensures found ==> at < table.Length && table[at].code == code
  {
    hide ByCode, HasCode;
    at := (code - 1) % TWO64;
    if at < table.Length && table[at].code == code {
      CodeAt(table[..], code, at);
      return true, at;
    }
    var entries := table[..];
    var side := (i: nat) => if i < |entries| then code - entries[i].code else 0;
    Sides(entries, code, side);
    found, at := Search.BinarySearch(table.Length, side);
    if found { CodeAt(entries, code, at); }
  }

  lemma CodeAt(entries: seq<Abbrev>, code: nat, at: nat)
    requires at < |entries| && entries[at].code == code
    ensures HasCode(entries, code)
  {}

  lemma Sides(entries: seq<Abbrev>, code: nat, side: nat -> int)
    requires ByCode(entries) && forall i: nat :: i < |entries| ==> side(i) == code - entries[i].code
    ensures Search.Monotone(|entries|, side)
    ensures HasCode(entries, code) <==> exists i :: 0 <= i < |entries| && side(i) == 0
  {
    forall i, j | 0 <= i <= j < |entries|
      ensures side(i) >= side(j)
    {
      assert entries[i].code <= entries[j].code;
    }
    if HasCode(entries, code) {
      var i :| 0 <= i < |entries| && entries[i].code == code;
      assert side(i) == 0;
    }
  }
}
