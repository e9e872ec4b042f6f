/** picojson's printer: text is appended to the output piece by piece. */
module JsonPrinter {
  import opened JsonSpec

  /** serialize_str. */
  method PrintString(s: string, out0: string) returns (out: string)
    ensures out == out0 + Quoted(s)
  {
    out := out0 + "\"";
    var i := 0;
    while i < |s|
      invariant 0 <= i <= |s|
      invariant out + Escaped(s[i..]) == out0 + "\"" + Escaped(s)
    {
      EscapedFirst(s, i, out);
      out := out + Escape(s[i]);
      i := i + 1;
    }
    assert out == out0 + "\"" + Escaped(s) by { assert out + Escaped(s[i..]) == out; }
    out := out + "\"";
    assert out == out0 + ("\"" + Escaped(s) + "\"");
  }

  lemma EscapedFirst(s: string, i: nat, out: string)
    requires i < |s|
    ensures out + Escaped(s[i..]) == out + Escape(s[i]) + Escaped(s[i + 1..])
  {
    assert s[i..][1..] == s[i + 1..];
  }

  /** _indent. */
  method Indent(indent: nat, out0: string) returns (out: string)
    ensures out == out0 + NewLine(indent)
  {
    out := out0 + "\n";
    var i := 0;
    while i < indent * 2
      invariant 0 <= i <= indent * 2
      invariant out + Spaces(indent * 2 - i) == out0 + NewLine(indent)
    {
      SpaceFirst(indent * 2 - i, out);
      out := out + " ";
      i := i + 1;
    }
  }

  lemma SpaceFirst(n: nat, out: string)
    requires n > 0
    ensures out + Spaces(n) == out + " " + Spaces(n - 1)
  {}

  /** The separator and indentation in front of item i of n. */
  method Separate(i: nat, indent: int, out0: string) returns (out: string)
    requires indent >= -1
    ensures out == out0 + Comma(i > 0) + NewLine(indent)
  {
    out := out0;
    if i != 0 {
      out := out + ",";
    }
    if indent != -1 {
      out := Indent(indent, out);
    }
  }

  /** What is still to be printed of an array from item i on. */
  ghost function ItemsLeft<N>(show: N -> string, items: seq<Tree<N>>, i: nat, d: int): string
    requires i <= |items| && d >= -1
  {
    Comma(0 < i < |items|) + ItemsText(show, items[i..], d)
  }

  lemma ItemsLeftStep<N>(show: N -> string, items: seq<Tree<N>>, i: nat, d: int, out: string)
    requires i < |items| && d >= -1
    ensures out + ItemsLeft(show, items, i, d) ==
              out + Comma(i > 0) + NewLine(d) + Text(show, items[i], d) + ItemsLeft(show, items, i + 1, d)
  {
    assert items[i..][1..] == items[i + 1..] && items[i..][0] == items[i];
    var more := ItemsText(show, items[i + 1..], d);
    var c := Comma(|items[i..]| > 1);
    assert ItemsText(show, items[i..], d) == NewLine(d) + Text(show, items[i], d) + c + more;
    Flatten(out, Comma(i > 0), NewLine(d), Text(show, items[i], d), c, more);
  }

  lemma Flatten(a: string, b: string, c: string, d: string, e: string, f: string)
    ensures a + (b + (c + d + e + f)) == a + b + c + d + (e + f)
  {}

  ghost function EntriesLeft<N>(show: N -> string, entries: seq<Entry<N>>, i: nat, d: int): string
    requires i <= |entries| && d >= -1
  {
    Comma(0 < i < |entries|) + EntriesText(show, entries[i..], d)
  }

  lemma EntriesLeftStep<N>(show: N -> string, entries: seq<Entry<N>>, i: nat, d: int, out: string)
    requires i < |entries| && d >= -1
    ensures out + EntriesLeft(show, entries, i, d) ==
              out + Comma(i > 0) + NewLine(d) + Quoted(entries[i].key) + Colon(d) + Text(show, entries[i].value, d)
              + EntriesLeft(show, entries, i + 1, d)
  {
    var e := entries[i];
    assert entries[i..][1..] == entries[i + 1..] && entries[i..][0] == e;
    var more := EntriesText(show, entries[i + 1..], d);
    var c := Comma(|entries[i..]| > 1);
    assert EntriesText(show, entries[i..], d) ==
             NewLine(d) + Quoted(e.key) + Colon(d) + Text(show, e.value, d) + c + more;
    Flatten2(out, Comma(i > 0), NewLine(d), Quoted(e.key), Colon(d), Text(show, e.value, d), c, more);
  }

  lemma Flatten2(a: string, b: string, c: string, q: string, k: string, d: string, e: string, f: string)
    ensures a + (b + (c + q + k + d + e + f)) == a + b + c + q + k + d + (e + f)
  {}

  lemma SerializedInside<N>(show: N -> string, t: Tree<N>, d: int)
    requires d >= -1 && d != 0
    ensures Serialized(show, t, d) == Text(show, t, d)
  {}

  method PrintItems<N>(show: N -> string, items: seq<Tree<N>>, d: int, out0: string) returns (out: string)
    requires d >= -1 && d != 0
    ensures out == out0 + ItemsText(show, items, d)
    decreases items, 0
  {
    hide Text, ItemsText, NewLine;
    out := out0;
    assert items[0..] == items;
    var i := 0;
    while i < |items|
      invariant 0 <= i <= |items|
      invariant out + ItemsLeft(show, items, i, d) == out0 + ItemsText(show, items, d)
    {
      ItemsLeftStep(show, items, i, d, out);
      SerializedInside(show, items[i], d);
      out := Separate(i, d, out);
      out := Print(show, items[i], d, out);
      i := i + 1;
    }
    NothingLeft(show, items, d);
  }

  lemma NothingLeft<N>(show: N -> string, items: seq<Tree<N>>, d: int)
    requires d >= -1
    ensures ItemsLeft(show, items, |items|, d) == ""
  {}

  method PrintEntries<N>(show: N -> string, entries: seq<Entry<N>>, d: int, out0: string) returns (out: string)
    requires d >= -1 && d != 0
    ensures out == out0 + EntriesText(show, entries, d)
    decreases entries, 0
  {
    hide Text, EntriesText, NewLine, Quoted;
    out := out0;
    assert entries[0..] == entries;
    var i := 0;
    while i < |entries|
      invariant 0 <= i <= |entries|
      invariant out + EntriesLeft(show, entries, i, d) == out0 + EntriesText(show, entries, d)
    {
      EntriesLeftStep(show, entries, i, d, out);
      SerializedInside(show, entries[i].value, d);
      out := Separate(i, d, out);
      out := PrintString(entries[i].key, out);
      out := out + Colon(d);
      out := Print(show, entries[i].value, d, out);
      i := i + 1;
    }
    NoEntriesLeft(show, entries, d);
  }

  lemma NoEntriesLeft<N>(show: N -> string, entries: seq<Entry<N>>, d: int)
    requires d >= -1
    ensures EntriesLeft(show, entries, |entries|, d) == ""
  {}

  /** _serialize. */
  method Print<N>(show: N -> string, t: Tree<N>, indent: int, out0: string) returns (out: string)
    requires indent >= -1
    ensures out == out0 + Serialized(show, t, indent)
    decreases t, 1
  {
    hide ItemsText, EntriesText, NewLine, Quoted;
    out := out0;
    match t {
      case TNull => out := out + "null";
      case TBool(b) => out := out + if b then "true" else "false";
      case TNumber(n) => out := out + show(n);
      case TStr(s) => out := PrintString(s, out);
      case TArr(items) =>
        out := out + "[";
        out := PrintItems(show, items, Deeper(indent), out);
        if indent != -1 && |items| != 0 {
          out := Indent(indent, out);
        }
        out := out + "]";
        Bracketed(out0, "[", ItemsText(show, items, Deeper(indent)), if |items| == 0 then "" else NewLine(indent), "]");
      case TObj(entries) =>
        out := out + "{";
        out := PrintEntries(show, entries, Deeper(indent), out);
        if indent != -1 && |entries| != 0 {
          out := Indent(indent, out);
        }
        out := out + "}";
        Bracketed(out0, "{", EntriesText(show, entries, Deeper(indent)),
                  if |entries| == 0 then "" else NewLine(indent), "}");
    }
    CompactLine(indent);
    if indent == 0 {
      out := out + "\n";
    }
  }

  lemma Bracketed(a: string, b: string, c: string, d: string, e: string)
    ensures a + b + c + d + e == a + (b + c + d + e)
    ensures a + b + c + e == a + (b + c + "" + e)
  {}

  lemma CompactLine(indent: int)
    requires indent >= -1
    ensures indent == -1 ==> NewLine(indent) == ""
  {}
}
