/** Abbreviation tables (section 7.5.3 of DWARF 5) as a grammar over bytes, and their writer. */
module AbbrevSpec {
  import opened Words
  import opened Leb128

  const IMPLICIT_CONST: nat := 0x21 // the form whose value stands in the table

  datatype Attr = Attr(name: nat, form: nat, val: int)
  datatype Abbrev = Abbrev(code: nat, tag: nat, children: byte, attrs: seq<Attr>)

  /** The readers' numbers: 64 bits of a number of any length. */
  function U64(data: seq<byte>, pos: nat): (r: Read<nat>)
    ensures r.Got? ==> pos < r.next <= |data|
  {
    var r := Unsigned(data, pos);
    if r.Got? then Got(r.value % TWO64, r.next) else Short
  }

  function I64(data: seq<byte>, pos: nat): (r: Read<int>)
    ensures r.Got? ==> pos < r.next <= |data|
  {
    var r := Signed(data, pos);
    if r.Got? then Got(Wrap64(r.value), r.next) else Short
  }

  /** A cast to an enumeration keeps 32 bits. */
  function Enum(v: nat): nat { v % TWO32 }

  /** One attribute: its name and form, and its value if the form says so. */
  function OneAttr(data: seq<byte>, pos: nat): (r: Read<Attr>)
    ensures r.Got? ==> pos < r.next <= |data|
  {
    var n := U64(data, pos);
    if n.Short? then Short
    else
      var f := U64(data, n.next);
      if f.Short? then Short
      else if Enum(f.value) != IMPLICIT_CONST then Got(Attr(Enum(n.value), Enum(f.value), 0), f.next)
      else
        var v := I64(data, f.next);
        if v.Short? then Short else Got(Attr(Enum(n.value), Enum(f.value), v.value), v.next)
  }

  /** Attributes up to a zero name. */
  function AttrList(data: seq<byte>, pos: nat): (r: Read<seq<Attr>>)
    ensures r.Got? ==> pos < r.next <= |data|
    decreases |data| - pos
  {
    var n := U64(data, pos);
    if n.Short? then Short
    else if n.value == 0 then Got([], n.next)
    else
      var a := OneAttr(data, pos);
      if a.Short? then Short
      else
        var rest := AttrList(data, a.next);
        if rest.Got? then Got([a.value] + rest.value, rest.next) else Short
  }

  /** The zero name is followed by a form, too. */
  function Attrs(data: seq<byte>, pos: nat): (r: Read<seq<Attr>>)
    ensures r.Got? ==> pos < r.next <= |data|
  {
    var list := AttrList(data, pos);
    if list.Short? then Short
    else
      var form := U64(data, list.next);
      if form.Got? then Got(list.value, form.next) else Short
  }

  /** The tag and the children flag. */
  function Shape(data: seq<byte>, pos: nat): (r: Read<(nat, byte)>)
    ensures r.Got? ==> pos < r.next <= |data|
  {
    var tag := U64(data, pos);
    if tag.Short? || tag.next >= |data| then Short else Got((Enum(tag.value), data[tag.next]), tag.next + 1)
  }

  /** One abbreviation behind its code. */
  function Body(data: seq<byte>, pos: nat, code: nat): (r: Read<Abbrev>)
    ensures r.Got? ==> pos < r.next <= |data|
  {
    var shape := Shape(data, pos);
    if shape.Short? then Short
    else
      var attrs := Attrs(data, shape.next);
      if attrs.Short? then Short
      else Got(Abbrev(code, shape.value.0, shape.value.1, attrs.value), attrs.next)
  }

  /** Abbreviations up to a zero code. */
  function Table(data: seq<byte>, pos: nat): (r: Read<seq<Abbrev>>)
    ensures r.Got? ==> pos < r.next <= |data|
    decreases |data| - pos
  {
    var c := U64(data, pos);
    if c.Short? then Short
    else if c.value == 0 then Got([], c.next)
    else
      var a := Body(data, c.next, c.value);
      if a.Short? then Short
      else
        var rest := Table(data, a.next);
        if rest.Got? then Got([a.value] + rest.value, rest.next) else Short
  }

  // ----- writing a table

  ghost predicate GoodAttr(a: Attr)
  {
    && 0 < a.name < TWO32 && a.form < TWO32
    && -TWO63 <= a.val < TWO63 && (a.form != IMPLICIT_CONST ==> a.val == 0)
  }

  ghost predicate GoodAbbrev(a: Abbrev)
  {
    && 0 < a.code < TWO64 && a.tag < TWO32
    && forall i :: 0 <= i < |a.attrs| ==> GoodAttr(a.attrs[i])
  }

  function WriteAttr(a: Attr): seq<byte>
  {
    EncodeUnsigned(a.name) + (EncodeUnsigned(a.form) + if a.form == IMPLICIT_CONST then EncodeSigned(a.val) else [])
  }

  function WriteAttrs(attrs: seq<Attr>): seq<byte>
  {
    if |attrs| == 0 then [0] else WriteAttr(attrs[0]) + WriteAttrs(attrs[1..])
  }

  function WriteAbbrev(a: Abbrev): seq<byte>
  {
    EncodeUnsigned(a.code) + (EncodeUnsigned(a.tag) + ([a.children] + (WriteAttrs(a.attrs) + [0])))
  }

  function WriteTable(list: seq<Abbrev>): seq<byte>
  {
    if |list| == 0 then [0] else WriteAbbrev(list[0]) + WriteTable(list[1..])
  }

  /** s stands in data at pos. */
  ghost predicate At(data: seq<byte>, pos: nat, s: seq<byte>)
  {
    pos + |s| <= |data| && data[pos..pos + |s|] == s
  }

  lemma AtParts(data: seq<byte>, pos: nat, s: seq<byte>, t: seq<byte>)
    requires At(data, pos, s + t)
    ensures At(data, pos, s) && At(data, pos + |s|, t)
  {
    var all := data[pos..pos + |s + t|];
    assert all[..|s|] == s && all[|s|..] == t;
    assert data[pos..pos + |s|] == all[..|s|];
    assert data[pos + |s|..pos + |s| + |t|] == all[|s|..];
  }

  lemma AtUnsigned(data: seq<byte>, pos: nat, v: nat)
    requires At(data, pos, EncodeUnsigned(v)) && v < TWO64
    ensures U64(data, pos) == Got(v, pos + |EncodeUnsigned(v)|)
  {
    UnsignedRoundTrip(data, pos, v);
  }

  lemma AtZero(data: seq<byte>, pos: nat)
    requires At(data, pos, [0])
    ensures U64(data, pos) == Got(0, pos + 1)
  {
    assert EncodeUnsigned(0) == [0];
    AtUnsigned(data, pos, 0);
  }

  lemma AttrRoundTrip(data: seq<byte>, pos: nat, a: Attr)
    requires At(data, pos, WriteAttr(a)) && GoodAttr(a)
    ensures OneAttr(data, pos) == Got(a, pos + |WriteAttr(a)|)
    ensures U64(data, pos).Got? && U64(data, pos).value != 0
  {
    hide U64, EncodeUnsigned, EncodeSigned, At, Signed;
    var name, form := EncodeUnsigned(a.name), EncodeUnsigned(a.form);
    var val := if a.form == IMPLICIT_CONST then EncodeSigned(a.val) else [];
    AtParts(data, pos, name, form + val);
    AtParts(data, pos + |name|, form, val);
    AtUnsigned(data, pos, a.name);
    AtUnsigned(data, pos + |name|, a.form);
    if a.form == IMPLICIT_CONST { AtSigned(data, pos + |name| + |form|, a.val); }
  }

  lemma AtSigned(data: seq<byte>, pos: nat, v: int)
    requires At(data, pos, EncodeSigned(v)) && -TWO63 <= v < TWO63
    ensures I64(data, pos) == Got(v, pos + |EncodeSigned(v)|)
  {
    SignedRoundTrip(data, pos, v);
  }

  lemma {:induction false} AttrsRoundTrip(data: seq<byte>, pos: nat, attrs: seq<Attr>)
    requires At(data, pos, WriteAttrs(attrs)) && forall i :: 0 <= i < |attrs| ==> GoodAttr(attrs[i])
    ensures AttrList(data, pos) == Got(attrs, pos + |WriteAttrs(attrs)|)
    decreases |attrs|
  {
    hide U64, At, OneAttr, WriteAttr, GoodAttr;
    if |attrs| == 0 {
      AtZero(data, pos);
    } else {
      AtParts(data, pos, WriteAttr(attrs[0]), WriteAttrs(attrs[1..]));
      AttrRoundTrip(data, pos, attrs[0]);
      AttrsRoundTrip(data, pos + |WriteAttr(attrs[0])|, attrs[1..]);
      assert attrs == [attrs[0]] + attrs[1..];
    }
  }

  lemma AbbrevRoundTrip(data: seq<byte>, pos: nat, a: Abbrev)
    requires GoodAbbrev(a) && At(data, pos, WriteAbbrev(a))
    ensures U64(data, pos).Got? && U64(data, pos).value == a.code
    ensures Body(data, U64(data, pos).next, a.code) == Got(a, pos + |WriteAbbrev(a)|)
  {
    hide U64, AttrList, EncodeUnsigned, WriteAttrs, At;
    var code, tag, kids, attrs := EncodeUnsigned(a.code), EncodeUnsigned(a.tag), [a.children], WriteAttrs(a.attrs);
    AtParts(data, pos, code, tag + (kids + (attrs + [0])));
    AtUnsigned(data, pos, a.code);
    var p := pos + |code|;
    AtParts(data, p, tag, kids + (attrs + [0]));
    AtUnsigned(data, p, a.tag);
    var q := p + |tag|;
    AtParts(data, q, kids, attrs + [0]);
    AtByte(data, q, a.children);
    AtParts(data, q + 1, attrs, [0]);
    AttrsRoundTrip(data, q + 1, a.attrs);
    AtZero(data, q + 1 + |attrs|);
  }

  lemma AtByte(data: seq<byte>, pos: nat, b: byte)
    requires At(data, pos, [b])
    ensures pos < |data| && data[pos] == b
  {
    assert data[pos..pos + 1][0] == b;
  }

  /** Round trip: every well-formed table, written out, is read back with all its fields. */
  lemma {:induction false} TableRoundTrip(data: seq<byte>, pos: nat, list: seq<Abbrev>)
    requires forall i :: 0 <= i < |list| ==> GoodAbbrev(list[i])
    requires At(data, pos, WriteTable(list))
    ensures Table(data, pos) == Got(list, pos + |WriteTable(list)|)
    decreases |list|
  {
    hide U64, At, Body, WriteAbbrev;
    if |list| == 0 {
      AtZero(data, pos);
    } else {
      var w := WriteAbbrev(list[0]);
      AtParts(data, pos, w, WriteTable(list[1..]));
      AbbrevRoundTrip(data, pos, list[0]);
      TableRoundTrip(data, pos + |w|, list[1..]);
      assert list == [list[0]] + list[1..];
    }
  }

  /** A table in bytes: a unit with a constant of minus one in the table, and an ordinary attribute. */
  lemma TableExample()
    ensures Table([1, 0x11, 1, 3, 0x21, 0x7f, 0x10, 0x17, 0, 0, 0], 0) ==
            Got([Abbrev(1, 0x11, 1, [Attr(3, 0x21, -1), Attr(0x10, 0x17, 0)])], 11)
  {
    var data: seq<byte> := [1, 0x11, 1, 3, 0x21, 0x7f, 0x10, 0x17, 0, 0, 0];
    assert OneAttr(data, 3) == Got(Attr(3, 0x21, -1), 6);
    assert OneAttr(data, 6) == Got(Attr(0x10, 0x17, 0), 8);
    var a, b := Attr(3, 0x21, -1), Attr(0x10, 0x17, 0);
    assert AttrList(data, 8) == Got([], 9);
    assert AttrList(data, 6) == Got([b] + [], 9);
    assert AttrList(data, 3) == Got([a] + ([b] + []), 9);
    assert [a] + ([b] + []) == [a, b];
    hide AttrList;
    assert Body(data, 1, 1) == Got(Abbrev(1, 0x11, 1, [a, b]), 10);
    hide Body;
    assert Table(data, 10) == Got([], 11);
    var entry := Abbrev(1, 0x11, 1, [a, b]);
    assert Table(data, 0) == Got([entry] + [], 11);
    assert [entry] + [] == [entry];
  }
}
