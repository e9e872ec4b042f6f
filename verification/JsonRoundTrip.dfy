/** Printing then parsing a JSON value gives it back: what the printer writes, compact or pretty, is a
    text of the grammar that denotes the value. */
module JsonRoundTrip {
  import opened JsonSpec
  import opened JsonGrammar

  // ----- strings

  /** How the printer writes a character. */
  function PieceOf(c: char): Piece
  {
    if c == '"' || c == '\\' || c == '/' then Short(c)
    else if c == 8 as char then Short('b')
    else if c == 12 as char then Short('f')
    else if c == '\n' then Short('n')
    else if c == '\r' then Short('r')
    else if c == '\t' then Short('t')
    else if c < ' ' || c == 127 as char then Code("00" + [HexDigit(c as nat / 16), HexDigit(c as nat % 16)])
    else Plain(c)
  }

  lemma PieceIs(c: char)
    ensures GoodPiece(PieceOf(c)) && SpellPiece(PieceOf(c)) == Escape(c) && PieceValue(PieceOf(c)) == [c]
  {
    if PieceOf(c).Code? {
      var u := c as nat;
      HexRoundTrip(u / 16);
      HexRoundTrip(u % 16);
      assert HexNumber(PieceOf(c).hex) == u;
    }
  }

  lemma HexRoundTrip(n: nat)
    requires n < 16
    ensures HexValue(HexDigit(n)) == n
  {}

  function PiecesOf(s: string): seq<Piece>
  {
    if |s| == 0 then [] else [PieceOf(s[0])] + PiecesOf(s[1..])
  }

  lemma {:induction false} PiecesAre(s: string)
    ensures GoodPieces(PiecesOf(s)) && SpellPieces(PiecesOf(s)) == Escaped(s) && PiecesValue(PiecesOf(s)) == s
  {
    hide PieceOf, GoodPiece, SpellPiece, PieceValue, Escape;
    if |s| > 0 {
      PieceIs(s[0]);
      PiecesAre(s[1..]);
      assert PiecesOf(s)[1..] == PiecesOf(s[1..]);
    }
  }

  lemma StringRoundTrip(s: string, acc: string, rest: string)
    ensures ParseString(Escaped(s) + "\"" + rest, acc) == Ok(acc + s, rest)
  {
    hide ParseString, PiecesOf, SpellPieces, PiecesValue, GoodPieces;
    PiecesAre(s);
    PiecesParsed(PiecesOf(s), acc, rest);
  }

  // ----- numbers

  /** Printing and converting numbers are inverse; nothing else is known of them. */
  ghost predicate Faithful<N(!new)>(show: N -> string, conv: string -> Converted<N>)
  {
    forall n :: NumberToken(show(n)) && conv(show(n)) == Finite(n)
  }

  lemma NumberRoundTrip<N(!new)>(show: N -> string, conv: string -> Converted<N>, n: N, rest: string)
    requires Faithful(show, conv) && NumberStops(rest)
    ensures Parse(Building, conv, show(n) + rest) == Ok(Number(n), rest)
  {
    assert NumberToken(show(n));
    TokenParsed(conv, show(n), rest);
  }

  // ----- values

  /** How the printer writes a value, with the new lines as the white space around its parts. */
  function Written<N>(show: N -> string, t: Tree<N>, indent: int): Syntax
    requires indent >= -1
    decreases t
  {
    match t
    case TNull => NullWord
    case TBool(b) => BoolWord(b)
    case TNumber(n) => Num(show(n))
    case TStr(s) => Quote(PiecesOf(s))
    case TArr(items) => List("", WrittenItems(show, items, Deeper(indent), indent))
    case TObj(entries) => Record("", WrittenEntries(show, entries, Deeper(indent), indent))
  }

  /** Only behind the last item there is white space. */
  function Closing(last: bool, outer: int): string
    requires outer >= -1
  {
    if last then NewLine(outer) else ""
  }

  function WrittenItems<N>(show: N -> string, items: seq<Tree<N>>, d: int, outer: int): (slots: seq<Slot>)
    requires d >= -1 && outer >= -1
    ensures |slots| == |items|
    decreases items
  {
    if |items| == 0 then []
    else
      [Slot(NewLine(d), Written(show, items[0], d), Closing(|items| == 1, outer))] +
        WrittenItems(show, items[1..], d, outer)
  }

  function Gap(d: int): string
  {
    Spaces(if d == -1 then 0 else 1)
  }

  function WrittenEntries<N>(show: N -> string, entries: seq<Entry<N>>, d: int, outer: int): (fields: seq<Field>)
    requires d >= -1 && outer >= -1
    ensures |fields| == |entries|
    decreases entries
  {
    if |entries| == 0 then []
    else
      var e := entries[0];
      [Field(NewLine(d), PiecesOf(e.key), "", Slot(Gap(d), Written(show, e.value, d), Closing(|entries| == 1, outer)))]
      + WrittenEntries(show, entries[1..], d, outer)
  }

  /** Spelled out, this is the text that is printed. */
  lemma {:induction false} WrittenText<N>(show: N -> string, t: Tree<N>, indent: int)
    requires indent >= -1
    ensures Spell(Written(show, t, indent)) == Text(show, t, indent)
    decreases t
  {
    hide PiecesOf, SpellPieces, Escaped, ItemsText, EntriesText, SpellSlots, SpellFields, WrittenItems,
         WrittenEntries, NewLine;
    match t
    case TStr(s) => PiecesAre(s);
    case TArr(items) =>
      var d := Deeper(indent);
      ItemsWritten(show, items, d, indent);
      Bracketed("[", ItemsText(show, items, d), Closing(|items| > 0, indent), "]");
      ItemsEmpty(show, items, d);
    case TObj(entries) =>
      var d := Deeper(indent);
      EntriesWritten(show, entries, d, indent);
      Bracketed("{", EntriesText(show, entries, d), Closing(|entries| > 0, indent), "}");
      EntriesEmpty(show, entries, d);
    case _ =>
  }

  lemma Bracketed(a: string, b: string, c: string, d: string)
    ensures a + (b + c) + d == a + b + c + d
  {}

  lemma ItemsEmpty<N>(show: N -> string, items: seq<Tree<N>>, d: int)
    requires d >= -1
    ensures |items| == 0 ==> ItemsText(show, items, d) + "" == ""
  {}

  lemma EntriesEmpty<N>(show: N -> string, entries: seq<Entry<N>>, d: int)
    requires d >= -1
    ensures |entries| == 0 ==> EntriesText(show, entries, d) + "" == ""
  {}

  lemma {:induction false} ItemsWritten<N>(show: N -> string, items: seq<Tree<N>>, d: int, outer: int)
    requires d >= -1 && outer >= -1
    ensures SpellSlots(WrittenItems(show, items, d, outer)) == ItemsText(show, items, d) + Closing(|items| > 0, outer)
    decreases items
  {
    hide Spell, Text, Written, NewLine;
    if |items| > 0 {
      WrittenText(show, items[0], d);
      ItemsWritten(show, items[1..], d, outer);
      assert WrittenItems(show, items, d, outer)[1..] == WrittenItems(show, items[1..], d, outer);
    }
  }

  lemma {:induction false} EntriesWritten<N>(show: N -> string, entries: seq<Entry<N>>, d: int, outer: int)
    requires d >= -1 && outer >= -1
    ensures SpellFields(WrittenEntries(show, entries, d, outer)) ==
            EntriesText(show, entries, d) + Closing(|entries| > 0, outer)
    decreases entries
  {
    hide Spell, Text, Written, NewLine, PiecesOf, SpellPieces, Escaped, Spaces;
    if |entries| > 0 {
      PiecesAre(entries[0].key);
      WrittenText(show, entries[0].value, d);
      EntriesWritten(show, entries[1..], d, outer);
      assert WrittenEntries(show, entries, d, outer)[1..] == WrittenEntries(show, entries[1..], d, outer);
      var key, value := NewLine(d) + Quoted(entries[0].key), Text(show, entries[0].value, d);
      assert key + ("" + ":") + Gap(d) == key + Colon(d);
      Closed(key + Colon(d) + value, |entries| == 1, outer, EntriesText(show, entries[1..], d));
      EntriesEmpty(show, entries[1..], d);
    }
  }

  /** The last item's white space, before or behind what follows it. */
  lemma Closed(x: string, last: bool, outer: int, more: string)
    requires outer >= -1 && (last ==> more == "")
    ensures x + Closing(last, outer) + Comma(!last) + (more + Closing(!last, outer)) ==
            x + Comma(!last) + more + NewLine(outer)
  {
    hide NewLine;
  }

  /** It is a text of the grammar and denotes the value. */
  lemma {:induction false} WrittenMeans<N(!new)>(show: N -> string, conv: string -> Converted<N>, t: Tree<N>,
                                                 indent: int)
    requires Faithful(show, conv) && indent >= -1
    ensures Good(conv, Written(show, t, indent)) && Meaning(conv, Written(show, t, indent)) == ValueOf(t)
    decreases t
  {
    match t
    case TNumber(n) => assert NumberToken(show(n));
    case TStr(s) => PiecesAre(s);
    case TArr(items) => ItemsMean(show, conv, items, Deeper(indent), indent);
    case TObj(entries) => EntriesMean(show, conv, entries, Deeper(indent), indent, map[]);
    case _ =>
  }

  lemma {:induction false} SpacesAre(n: nat)
    ensures AllSpace(Spaces(n))
  {
    if n > 0 { SpacesAre(n - 1); }
  }

  lemma LayoutIsSpace(d: int)
    requires d >= -1
    ensures AllSpace(NewLine(d)) && AllSpace(Gap(d)) && AllSpace("")
  {
    SpacesAre(if d == -1 then 0 else 2 * d);
    SpacesAre(0);
    SpacesAre(1);
  }

  lemma {:induction false} ItemsMean<N(!new)>(show: N -> string, conv: string -> Converted<N>, items: seq<Tree<N>>,
                                              d: int, outer: int)
    requires Faithful(show, conv) && d >= -1 && outer >= -1
    ensures GoodSlots(conv, WrittenItems(show, items, d, outer))
    ensures Meanings(conv, WrittenItems(show, items, d, outer)) == ValuesOf(items)
    decreases items
  {
    hide Faithful, Good, Meaning, Written, NewLine, AllSpace;
    if |items| > 0 {
      LayoutIsSpace(d);
      LayoutIsSpace(outer);
      WrittenMeans(show, conv, items[0], d);
      ItemsMean(show, conv, items[1..], d, outer);
      assert WrittenItems(show, items, d, outer)[1..] == WrittenItems(show, items[1..], d, outer);
    }
  }

  lemma {:induction false} EntriesMean<N(!new)>(show: N -> string, conv: string -> Converted<N>, entries: seq<Entry<N>>,
                                                d: int, outer: int, m: map<string, Json<N>>)
    requires Faithful(show, conv) && d >= -1 && outer >= -1
    ensures GoodFields(conv, WrittenEntries(show, entries, d, outer))
    ensures MeaningMap(conv, m, WrittenEntries(show, entries, d, outer)) == MapOf(m, entries)
    decreases entries
  {
    hide Faithful, Good, Meaning, Written, NewLine, Gap, AllSpace, PiecesOf, GoodPieces, PiecesValue;
    if |entries| > 0 {
      var e := entries[0];
      LayoutIsSpace(d);
      LayoutIsSpace(outer);
      PiecesAre(e.key);
      WrittenMeans(show, conv, e.value, d);
      EntriesMean(show, conv, entries[1..], d, outer, m[e.key := ValueOf(e.value)]);
      assert WrittenEntries(show, entries, d, outer)[1..] == WrittenEntries(show, entries[1..], d, outer);
    }
  }

  lemma TreeRoundTrip<N(!new)>(show: N -> string, conv: string -> Converted<N>, t: Tree<N>, indent: int, rest: string)
    requires Faithful(show, conv) && indent >= -1 && (t.TNumber? ==> NumberStops(rest))
    ensures Parse(Building, conv, Text(show, t, indent) + rest) == Ok(ValueOf(t), rest)
  {
    hide Parse, Text, Spell, Good, Meaning;
    WrittenText(show, t, indent);
    WrittenMeans(show, conv, t, indent);
    Complete(conv, Written(show, t, indent), rest);
  }

  /** Every value, printed compactly or prettily with its objects in any order, is parsed
      back; behind it remains only the final new line of the pretty form. */
  lemma RoundTrip<N(!new)>(show: N -> string, conv: string -> Converted<N>, t: Tree<N>, pretty: bool)
    requires Faithful(show, conv)
    ensures Parse(Building, conv, Serialized(show, t, if pretty then 0 else -1))
              == Ok(ValueOf(t), if pretty then "\n" else "")
  {
    TreeRoundTrip(show, conv, t, if pretty then 0 else -1, if pretty then "\n" else "");
  }
}
