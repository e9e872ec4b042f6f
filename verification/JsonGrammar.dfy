/** What a JSON text denotes, independent of any parser: the grammar of RFC 8259 with every white space
    and every escape, surrogates in pairs, and numbers left to their conversion. picojson's parser
    accepts all these texts. */
module JsonGrammar {
  import opened JsonSpec

  // ----- strings: plain characters and escapes (section 7)

  datatype Piece = Plain(c: char) | Short(c: char) | Code(hex: string) | Pair(high: string, low: string)

  /** The value of four hex digits, or -1. */
  function HexNumber(h: string): (v: int)
    ensures -1 <= v < 0x10000
  {
    if |h| != 4 || HexValue(h[0]) < 0 || HexValue(h[1]) < 0 || HexValue(h[2]) < 0 || HexValue(h[3]) < 0 then -1
    else HexValue(h[0]) * 4096 + HexValue(h[1]) * 256 + HexValue(h[2]) * 16 + HexValue(h[3])
  }

  predicate GoodPiece(p: Piece)
  {
    match p
    case Plain(c) => c >= ' ' && c != '"' && c != '\\'
    case Short(c) => |SimpleEscape(c)| > 0
    case Code(h) => 0 <= HexNumber(h) && !(0xd800 <= HexNumber(h) <= 0xdfff)
    case Pair(h, l) => 0xd800 <= HexNumber(h) < 0xdc00 <= HexNumber(l) <= 0xdfff
  }

  function SpellPiece(p: Piece): string
  {
    match p
    case Plain(c) => [c]
    case Short(c) => ['\\', c]
    case Code(h) => "\\u" + h
    case Pair(h, l) => "\\u" + h + "\\u" + l
  }

  function PieceValue(p: Piece): string
    requires GoodPiece(p)
  {
    match p
    case Plain(c) => [c]
    case Short(c) => SimpleEscape(c)
    case Code(h) => Utf8(HexNumber(h))
    case Pair(h, l) => Utf8(0x10000 + (HexNumber(h) - 0xd800) * 1024 + (HexNumber(l) - 0xdc00))
  }

  predicate GoodPieces(ps: seq<Piece>) { forall i :: 0 <= i < |ps| ==> GoodPiece(ps[i]) }

  function SpellPieces(ps: seq<Piece>): string
  {
    if |ps| == 0 then "" else SpellPiece(ps[0]) + SpellPieces(ps[1..])
  }

  function PiecesValue(ps: seq<Piece>): string
    requires GoodPieces(ps)
  {
    if |ps| == 0 then "" else PieceValue(ps[0]) + PiecesValue(ps[1..])
  }

  // ----- values (sections 3 to 6)

  datatype Syntax =
    | NullWord
    | BoolWord(b: bool)
    | Num(token: string)
    | Quote(ps: seq<Piece>)
    | List(inner: string, items: seq<Slot>)
    | Record(inner: string, fields: seq<Field>)

  /** A value with the white space around it. */
  datatype Slot = Slot(before: string, value: Syntax, after: string)

  /** A key with the white space around it, and its value. */
  datatype Field = Field(before: string, key: seq<Piece>, colon: string, slot: Slot)

  predicate AllSpace(w: string) { forall i :: 0 <= i < |w| ==> IsSpace(w[i]) }

  /** A text the number scanner takes in whole. */
  predicate NumberToken(x: string)
  {
    |x| > 0 && (IsDigit(x[0]) || x[0] == '-') && forall i :: 0 <= i < |x| ==> IsNumberChar(x[i])
  }

  predicate Good<N>(conv: string -> Converted<N>, s: Syntax)
  {
    match s
    case NullWord => true
    case BoolWord(_) => true
    case Num(token) => NumberToken(token) && conv(token).Finite?
    case Quote(ps) => GoodPieces(ps)
    case List(inner, items) => AllSpace(inner) && GoodSlots(conv, items)
    case Record(inner, fields) => AllSpace(inner) && GoodFields(conv, fields)
  }

  predicate GoodSlots<N>(conv: string -> Converted<N>, slots: seq<Slot>)
  {
    |slots| > 0 ==>
      AllSpace(slots[0].before) && Good(conv, slots[0].value) && AllSpace(slots[0].after) && GoodSlots(conv, slots[1..])
  }

  predicate GoodFields<N>(conv: string -> Converted<N>, fields: seq<Field>)
  {
    |fields| > 0 ==>
      var f := fields[0];
      && AllSpace(f.before) && GoodPieces(f.key) && AllSpace(f.colon)
      && AllSpace(f.slot.before) && Good(conv, f.slot.value) && AllSpace(f.slot.after)
      && GoodFields(conv, fields[1..])
  }

  function Spell(s: Syntax): string
  {
    match s
    case NullWord => "null"
    case BoolWord(b) => if b then "true" else "false"
    case Num(token) => token
    case Quote(ps) => "\"" + SpellPieces(ps) + "\""
    case List(inner, items) => "[" + ListBody(inner, items) + "]"
    case Record(inner, fields) => "{" + RecordBody(inner, fields) + "}"
  }

  function ListBody(inner: string, items: seq<Slot>): string
    decreases items, 1
  {
    if |items| == 0 then inner else SpellSlots(items)
  }

  function RecordBody(inner: string, fields: seq<Field>): string
    decreases fields, 1
  {
    if |fields| == 0 then inner else SpellFields(fields)
  }

  function SpellSlots(slots: seq<Slot>): string
    decreases slots, 0
  {
    if |slots| == 0 then ""
    else slots[0].before + Spell(slots[0].value) + slots[0].after + Comma(|slots| > 1) + SpellSlots(slots[1..])
  }

  function SpellFields(fields: seq<Field>): string
    decreases fields, 0
  {
    if |fields| == 0 then ""
    else
      var f := fields[0];
      f.before + ("\"" + SpellPieces(f.key) + "\"") + (f.colon + ":")
      + f.slot.before + Spell(f.slot.value) + f.slot.after + Comma(|fields| > 1) + SpellFields(fields[1..])
  }

  function Meaning<N>(conv: string -> Converted<N>, s: Syntax): Json<N>
    requires Good(conv, s)
  {
    match s
    case NullWord => Null
    case BoolWord(b) => Bool(b)
    case Num(token) => Number(conv(token).n)
    case Quote(ps) => Str(PiecesValue(ps))
    case List(_, items) => Arr(Meanings(conv, items))
    case Record(_, fields) => Obj(MeaningMap(conv, map[], fields))
  }

  function Meanings<N>(conv: string -> Converted<N>, slots: seq<Slot>): (vs: seq<Json<N>>)
    requires GoodSlots(conv, slots)
    ensures |vs| == |slots|
  {
    if |slots| == 0 then [] else [Meaning(conv, slots[0].value)] + Meanings(conv, slots[1..])
  }

  /** Of a repeated name the last value counts. */
  function MeaningMap<N>(conv: string -> Converted<N>, m: map<string, Json<N>>, fields: seq<Field>)
    : map<string, Json<N>>
    requires GoodFields(conv, fields)
    decreases fields
  {
    if |fields| == 0 then m
    else
      MeaningMap(conv, m[PiecesValue(fields[0].key) := Meaning(conv, fields[0].slot.value)], fields[1..])
  }

  /** The value of a name is that of the last field with this name. */
  lemma {:induction false} LastFieldCounts<N>(conv: string -> Converted<N>, m: map<string, Json<N>>, fields: seq<Field>,
                                              i: nat)
    requires GoodFields(conv, fields) && i < |fields| && GoodPieces(fields[i].key) && Good(conv, fields[i].slot.value)
    requires forall j :: i < j < |fields| ==>
               GoodPieces(fields[j].key) && PiecesValue(fields[j].key) != PiecesValue(fields[i].key)
    ensures var k, r := PiecesValue(fields[i].key), MeaningMap(conv, m, fields);
            k in r && r[k] == Meaning(conv, fields[i].slot.value)
    decreases fields
  {
    hide Good, Meaning, GoodPieces, PiecesValue;
    var m' := m[PiecesValue(fields[0].key) := Meaning(conv, fields[0].slot.value)];
    if i > 0 {
      LastFieldCounts(conv, m', fields[1..], i - 1);
    } else {
      OtherFieldsKeep(conv, m', fields[1..], PiecesValue(fields[0].key));
    }
  }

  lemma {:induction false} OtherFieldsKeep<N>(conv: string -> Converted<N>, m: map<string, Json<N>>, fields: seq<Field>,
                                              k: string)
    requires GoodFields(conv, fields) && k in m
    requires forall j :: 0 <= j < |fields| ==> GoodPieces(fields[j].key) && PiecesValue(fields[j].key) != k
    ensures k in MeaningMap(conv, m, fields) && MeaningMap(conv, m, fields)[k] == m[k]
    decreases fields
  {
    hide Good, Meaning, GoodPieces, PiecesValue;
    if |fields| > 0 {
      OtherFieldsKeep(conv, m[PiecesValue(fields[0].key) := Meaning(conv, fields[0].slot.value)], fields[1..], k);
    }
  }

  // ----- every such text is accepted: strings

  lemma QuadHexStep(c: char, r: string, n: nat, acc: nat)
    requires 1 <= n <= 4 && acc < HexCap(n) && HexValue(c) != -1
    ensures QuadHex([c] + r, n, acc) == QuadHex(r, n - 1, acc * 16 + HexValue(c))
  {
    assert ([c] + r)[1..] == r;
  }

  lemma QuadHexIs(h: string, tail: string)
    requires HexNumber(h) >= 0
    ensures QuadHex(h + tail, 4, 0) == (HexNumber(h), tail)
  {
    var a, b, c, d := h[0], h[1], h[2], h[3];
    assert h + tail == [a] + ([b] + ([c] + ([d] + tail)));
    QuadHexStep(a, [b] + ([c] + ([d] + tail)), 4, 0);
    QuadHexStep(b, [c] + ([d] + tail), 3, HexValue(a));
    QuadHexStep(c, [d] + tail, 2, HexValue(a) * 16 + HexValue(b));
    QuadHexStep(d, tail, 1, HexValue(a) * 256 + HexValue(b) * 16 + HexValue(c));
  }

  lemma PieceParsed(p: Piece, acc: string, tail: string)
    requires GoodPiece(p)
    ensures ParseString(SpellPiece(p) + tail, acc) == ParseString(tail, acc + PieceValue(p))
  {
    hide SpellPiece, PieceValue, GoodPiece, ParseString;
    if p.Plain? || p.Short? { SimpleParsed(p, acc, tail); } else { EscapeParsed(p, acc, tail); }
  }

  lemma SimpleParsed(p: Piece, acc: string, tail: string)
    requires GoodPiece(p) && (p.Plain? || p.Short?)
    ensures ParseString(SpellPiece(p) + tail, acc) == ParseString(tail, acc + PieceValue(p))
  {
    hide ParseString, SimpleEscape;
    var r := SpellPiece(p) + tail;
    if p.Plain? { assert r[1..] == tail; } else { assert r[2..] == tail; }
    StringStep(r, acc);
  }

  lemma EscapeParsed(p: Piece, acc: string, tail: string)
    requires GoodPiece(p) && (p.Code? || p.Pair?)
    ensures ParseString(SpellPiece(p) + tail, acc) == ParseString(tail, acc + PieceValue(p))
  {
    hide CodePoint, HexNumber, ParseString, PieceValue;
    var r := SpellPiece(p) + tail;
    if p.Code? { assert r[2..] == p.hex + tail; } else { assert r[2..] == p.high + ("\\u" + (p.low + tail)); }
    CodeParsed(p, tail);
    CodeStep(r, acc);
  }

  /** What ParseString does with one character or a short escape. */
  lemma StringStep(r: string, acc: string)
    requires |r| > 0 && r[0] >= ' ' && r[0] != '"'
    ensures r[0] != '\\' ==> ParseString(r, acc) == ParseString(r[1..], acc + [r[0]])
    ensures r[0] == '\\' && |r| > 1 && |SimpleEscape(r[1])| > 0 ==>
              ParseString(r, acc) == ParseString(r[2..], acc + SimpleEscape(r[1]))
  {
    hide SimpleEscape, CodePoint;
  }

  lemma CodeStep(r: string, acc: string)
    requires |r| > 1 && r[0] == '\\' && r[1] == 'u'
    ensures var p := CodePoint(r[2..]);
            ParseString(r, acc) == if p.Ok? then ParseString(p.rest, acc + p.value) else Fail(p.rest)
  {
    hide CodePoint;
  }

  lemma CodeParsed(p: Piece, tail: string)
    requires GoodPiece(p)
    ensures p.Code? ==> CodePoint(p.hex + tail) == Ok(PieceValue(p), tail)
    ensures p.Pair? ==> CodePoint(p.high + ("\\u" + (p.low + tail))) == Ok(PieceValue(p), tail)
  {
    hide QuadHex, HexNumber, Utf8, MatchText;
    match p
    case Code(h) =>
      QuadHexIs(h, tail);
    case Pair(h, l) =>
      QuadHexIs(h, "\\u" + (l + tail));
      MatchWhole("\\u", l + tail);
      QuadHexIs(l, tail);
    case _ =>
  }

  lemma {:induction false} MatchWhole(text: string, rest: string)
    ensures MatchText(text + rest, text) == (true, rest)
  {
    if |text| == 0 {
      assert text + rest == rest;
    } else {
      MatchWhole(text[1..], rest);
      assert (text + rest)[1..] == text[1..] + rest;
    }
  }

  lemma {:induction false} PiecesParsed(ps: seq<Piece>, acc: string, rest: string)
    requires GoodPieces(ps)
    ensures ParseString(SpellPieces(ps) + "\"" + rest, acc) == Ok(acc + PiecesValue(ps), rest)
  {
    hide SpellPiece, PieceValue, GoodPiece, SimpleEscape, CodePoint;
    if |ps| == 0 {
      assert SpellPieces(ps) + "\"" + rest == "\"" + rest;
      assert ("\"" + rest)[1..] == rest && acc + PiecesValue(ps) == acc;
    } else {
      var tail := SpellPieces(ps[1..]) + "\"" + rest;
      assert SpellPieces(ps) + "\"" + rest == SpellPiece(ps[0]) + tail;
      PieceParsed(ps[0], acc, tail);
      PiecesParsed(ps[1..], acc + PieceValue(ps[0]), rest);
      assert acc + PieceValue(ps[0]) + PiecesValue(ps[1..]) == acc + PiecesValue(ps);
    }
  }

  // ----- white space and numbers

  /** r starts with a character that is not white space. */
  predicate Solid(r: string)
  {
    |r| > 0 && !IsSpace(r[0])
  }

  lemma {:induction false} SkipPast(w: string, x: string)
    requires AllSpace(w) && Solid(x)
    ensures SkipSpace(w + x) == x
  {
    if |w| == 0 {
      assert w + x == x;
    } else {
      SkipPast(w[1..], x);
      assert (w + x)[1..] == w[1..] + x;
    }
  }

  lemma ExpectPast(w: string, c: char, d: char, rest: string)
    requires AllSpace(w) && !IsSpace(c)
    ensures Expect(w + ([c] + rest), d) == if c == d then (true, rest) else (false, [c] + rest)
  {
    SkipPast(w, [c] + rest);
    assert ([c] + rest)[1..] == rest;
  }

  lemma ExpectHere(c: char, d: char, rest: string)
    requires !IsSpace(c)
    ensures Expect([c] + rest, d) == if c == d then (true, rest) else (false, [c] + rest)
  {
    assert [c] + rest == "" + ([c] + rest);
    ExpectPast("", c, d, rest);
  }

  predicate NumberStops(rest: string)
  {
    |rest| > 0 ==> !IsNumberChar(rest[0])
  }

  lemma {:induction false} NumberEnds(x: string, rest: string)
    requires NumberStops(rest) && forall i :: 0 <= i < |x| ==> IsNumberChar(x[i])
    ensures AfterNumber(x + rest) == rest
  {
    if |x| == 0 {
      assert x + rest == rest;
    } else {
      NumberEnds(x[1..], rest);
      assert (x + rest)[1..] == x[1..] + rest;
    }
  }

  // ----- values

  lemma ParseLetter<N>(conv: string -> Converted<N>, q: string)
    requires |q| > 0
    ensures q[0] == 'n' ==> Parse(Building, conv, q) == Literal(q[1..], "ull", Null)
    ensures q[0] == 'f' ==> Parse(Building, conv, q) == Literal(q[1..], "alse", Bool(false))
    ensures q[0] == 't' ==> Parse(Building, conv, q) == Literal(q[1..], "rue", Bool(true))
  {
    hide MatchText, ParseString, Expect, ParseItems, ParseMembers, AfterNumber;
    if q[0] == 'n' || q[0] == 'f' || q[0] == 't' { assert SkipSpace(q) == q; }
  }

  lemma WordParsed<N>(conv: string -> Converted<N>, s: Syntax, rest: string)
    requires s.NullWord? || s.BoolWord?
    ensures Parse(Building, conv, Spell(s) + rest) == Ok(Meaning(conv, s), rest)
  {
    hide Parse, MatchText;
    ParseLetter(conv, Spell(s) + rest);
    var tail := if s.NullWord? then "ull" else if s.b then "rue" else "alse";
    assert (Spell(s) + rest)[1..] == tail + rest;
    MatchWhole(tail, rest);
  }

  lemma TokenParsed<N>(conv: string -> Converted<N>, x: string, rest: string)
    requires NumberToken(x) && NumberStops(rest) && conv(x).Finite?
    ensures Parse(Building, conv, x + rest) == Ok(Number(conv(x).n), rest)
  {
    NumberEnds(x, rest);
    var q := x + rest;
    assert IsNumberChar(x[0]) && q[0] == x[0];
    assert SkipSpace(q) == q;
    assert q[..|q| - |rest|] == x;
  }

  lemma ParseQuote<N>(conv: string -> Converted<N>, body: string)
    ensures Parse(Building, conv, ['"'] + body) ==
              var p := ParseString(body, ""); if p.Ok? then Ok(Str(p.value), p.rest) else Fail(p.rest)
  {
    hide ParseString;
    var q := ['"'] + body;
    assert q[1..] == body && SkipSpace(q) == q;
  }

  lemma QuoteParsed<N>(conv: string -> Converted<N>, ps: seq<Piece>, rest: string)
    requires GoodPieces(ps)
    ensures Parse(Building, conv, "\"" + SpellPieces(ps) + "\"" + rest) == Ok(Str(PiecesValue(ps)), rest)
  {
    hide Parse, SpellPieces, PiecesValue, GoodPieces, ParseString;
    var x := SpellPieces(ps) + "\"" + rest;
    assert "\"" + SpellPieces(ps) + "\"" + rest == ['"'] + x;
    ParseQuote(conv, x);
    PiecesParsed(ps, "", rest);
    assert "" + PiecesValue(ps) == PiecesValue(ps);
  }

  lemma ParseBracket<N>(conv: string -> Converted<N>, body: string)
    ensures Parse(Building, conv, ['['] + body) ==
              var (empty, q) := Expect(body, ']'); if empty then Ok(Arr([]), q) else ParseItems(Building, conv, q, [])
  {
    var q := ['['] + body;
    assert q[1..] == body && SkipSpace(q) == q;
  }

  lemma ParseBrace<N>(conv: string -> Converted<N>, body: string)
    ensures Parse(Building, conv, ['{'] + body) ==
              var (empty, q) := Expect(body, '}');
              if empty then Ok(Obj(map[]), q) else ParseMembers(Building, conv, q, map[])
  {
    var q := ['{'] + body;
    assert q[1..] == body && SkipSpace(q) == q;
  }

  /** Leading white space does not matter. */
  lemma ParseSkips<N>(conv: string -> Converted<N>, w: string, x: string)
    requires AllSpace(w) && Solid(x)
    ensures Parse(Building, conv, w + x) == Parse(Building, conv, x)
  {
    SkipPast(w, x);
  }

  lemma SpellSolid<N>(conv: string -> Converted<N>, s: Syntax)
    requires Good(conv, s)
    ensures Solid(Spell(s)) && Spell(s)[0] != ']'
  {
    if s.Num? { assert IsNumberChar(s.token[0]); }
  }

  /** What follows a value: its white space and a comma or the closing bracket. */
  lemma Follows(w: string, c: char, rest: string)
    requires AllSpace(w) && !IsNumberChar(c)
    ensures NumberStops(w + ([c] + rest))
  {
    if |w| > 0 { assert (w + ([c] + rest))[0] == w[0]; }
  }

  /** Every text of the grammar is parsed to what it denotes, whatever comes behind it (behind a
      number, anything that does not go on with it). */
  lemma {:induction false} Complete<N>(conv: string -> Converted<N>, s: Syntax, rest: string)
    requires Good(conv, s) && (s.Num? ==> NumberStops(rest))
    ensures Parse(Building, conv, Spell(s) + rest) == Ok(Meaning(conv, s), rest)
    decreases s
  {
    match s
    case NullWord => WordParsed(conv, s, rest);
    case BoolWord(_) => WordParsed(conv, s, rest);
    case Num(token) => TokenParsed(conv, token, rest);
    case Quote(ps) => QuoteParsed(conv, ps, rest);
    case List(inner, items) =>
      if |items| > 0 { CompleteSlots(conv, items, [], rest); }
      ListParsed(conv, inner, items, rest);
    case Record(inner, fields) =>
      if |fields| > 0 { CompleteFields(conv, fields, map[], rest); }
      RecordParsed(conv, inner, fields, rest);
  }

  /** The text of slots, grouped the way the parser takes it apart. */
  lemma SlotsFirst(slots: seq<Slot>, close: string)
    requires |slots| > 0
    ensures SpellSlots(slots) + close ==
              slots[0].before + (Spell(slots[0].value) + (slots[0].after +
                (Comma(|slots| > 1) + (SpellSlots(slots[1..]) + close))))
  {
    hide Spell;
    Regroup(slots[0].before, Spell(slots[0].value), slots[0].after, Comma(|slots| > 1), SpellSlots(slots[1..]), close);
  }

  lemma Regroup(a: string, b: string, c: string, d: string, e: string, f: string)
    ensures a + b + c + d + e + f == a + (b + (c + (d + (e + f))))
  {}

  lemma {:induction false} CompleteSlots<N>(conv: string -> Converted<N>, slots: seq<Slot>, acc: seq<Json<N>>,
                                            rest: string)
    requires GoodSlots(conv, slots) && |slots| > 0
    ensures ParseItems(Building, conv, SpellSlots(slots) + ([']'] + rest), acc) ==
            Ok(Arr(acc + Meanings(conv, slots)), rest)
    decreases slots
  {
    hide Spell, Parse, Expect, Good, Meaning, AllSpace;
    var Slot(before, value, w) := slots[0];
    var close := [']'] + rest;
    var after := SpellSlots(slots[1..]) + close;
    var c := if |slots| > 1 then ',' else ']';
    var more := if |slots| > 1 then after else rest;
    SlotsFirst(slots, close);
    assert Comma(|slots| > 1) + after == [c] + more by {
      if |slots| == 1 { assert SpellSlots(slots[1..]) == ""; }
    }
    var tail := w + ([c] + more);
    SpellSolid(conv, value);
    ParseSkips(conv, before, Spell(value) + tail);
    Follows(w, c, more);
    Complete(conv, value, tail);
    ExpectPast(w, c, ',', more);
    if |slots| > 1 {
      CompleteSlots(conv, slots[1..], acc + [Meaning(conv, value)], rest);
      assert acc + [Meaning(conv, value)] + Meanings(conv, slots[1..]) == acc + Meanings(conv, slots);
    } else {
      ExpectHere(']', ']', rest);
      assert acc + Meanings(conv, slots) == acc + [Meaning(conv, value)];
    }
  }

  lemma Wrapped(a: string, b: string, c: string, d: string)
    ensures a + b + c + d == a + (b + (c + d))
  {}

  lemma ListSpelled(inner: string, items: seq<Slot>, rest: string)
    ensures Spell(List(inner, items)) + rest == ['['] + (ListBody(inner, items) + ([']'] + rest))
  {
    hide ListBody;
    Wrapped("[", ListBody(inner, items), "]", rest);
  }

  lemma ListParsed<N>(conv: string -> Converted<N>, inner: string, items: seq<Slot>, rest: string)
    requires AllSpace(inner) && GoodSlots(conv, items)
    requires |items| > 0 ==>
               ParseItems(Building, conv, SpellSlots(items) + ([']'] + rest), []) ==
                 Ok(Arr([] + Meanings(conv, items)), rest)
    ensures Parse(Building, conv, Spell(List(inner, items)) + rest) == Ok(Arr(Meanings(conv, items)), rest)
  {
    var body := ListBody(inner, items) + ([']'] + rest);
    ListSpelled(inner, items, rest);
    hide Spell, SpellSlots, Parse, ParseItems, Expect;
    ParseBracket(conv, body);
    if |items| == 0 {
      ExpectPast(inner, ']', ']', rest);
      assert Meanings(conv, items) == [];
    } else {
      var x := Spell(items[0].value) +
        (items[0].after + (Comma(|items| > 1) + (SpellSlots(items[1..]) + ([']'] + rest))));
      SlotsFirst(items, [']'] + rest);
      SpellSolid(conv, items[0].value);
      NotClosed(conv, items[0].before, x);
      assert [] + Meanings(conv, items) == Meanings(conv, items);
    }
  }

  lemma NotClosed<N>(conv: string -> Converted<N>, w: string, x: string)
    requires AllSpace(w) && Solid(x) && x[0] != ']'
    ensures Expect(w + x, ']') == (false, x)
    ensures ParseItems(Building, conv, x, []) == ParseItems(Building, conv, w + x, [])
  {
    SkipPast(w, x);
    ParseSkips(conv, w, x);
  }

  // ----- objects

  /** What follows the opening quote of a field's key. */
  function FieldRest(f: Field, tail: string): string
  {
    SpellPieces(f.key) + "\"" + (f.colon + ([':'] + (f.slot.before + (Spell(f.slot.value) + (f.slot.after + tail)))))
  }

  lemma FieldsFirst(fields: seq<Field>, close: string)
    requires |fields| > 0
    ensures SpellFields(fields) + close ==
              fields[0].before + (['"'] +
                FieldRest(fields[0], Comma(|fields| > 1) + (SpellFields(fields[1..]) + close)))
  {
    hide Spell, SpellPieces;
    var f := fields[0];
    RegroupField(f.before, SpellPieces(f.key), f.colon, f.slot.before, Spell(f.slot.value), f.slot.after,
                 Comma(|fields| > 1), SpellFields(fields[1..]), close);
  }

  lemma RegroupField(a: string, k: string, w: string, b: string, v: string, c: string, d: string, e: string, f: string)
    ensures a + ("\"" + k + "\"") + (w + ":") + b + v + c + d + e + f
              == a + (['"'] + (k + "\"" + (w + ([':'] + (b + (v + (c + (d + (e + f)))))))))
  {
    assert ("\"" + k + "\"") + (w + ":") == ['"'] + (k + "\"" + (w + [':']));
    var x := c + (d + (e + f));
    assert b + v + c + d + e + f == b + (v + x);
  }

  /** What the member loop does behind a value. */
  function MembersAfter<N>(conv: string -> Converted<N>, r: string, m: map<string, Json<N>>): Parsed<Json<N>>
  {
    var (comma, q) := Expect(r, ',');
    if comma then ParseMembers(Building, conv, q, m)
    else
      var (close, q1) := Expect(q, '}');
      if close then Ok(Obj(m), q1) else Fail(q1)
  }

  /** One field up to and including its value. */
  lemma FieldParsed<N>(conv: string -> Converted<N>, f: Field, tail: string, m: map<string, Json<N>>)
    requires GoodFields(conv, [f])
    requires Parse(Building, conv, Spell(f.slot.value) + (f.slot.after + tail)) ==
             Ok(Meaning(conv, f.slot.value), f.slot.after + tail)
    ensures ParseMembers(Building, conv, f.before + (['"'] + FieldRest(f, tail)), m)
              == MembersAfter(conv, f.slot.after + tail, m[PiecesValue(f.key) := Meaning(conv, f.slot.value)])
  {
    hide Spell, Parse, Expect, ParseString, SpellPieces, PiecesValue, GoodPieces, Good, Meaning, AllSpace;
    var x := Spell(f.slot.value) + (f.slot.after + tail);
    var y := f.slot.before + x;
    SpellSolid(conv, f.slot.value);
    ParseSkips(conv, f.slot.before, x);
    ExpectPast(f.before, '"', '"', FieldRest(f, tail));
    PiecesParsed(f.key, "", f.colon + ([':'] + y));
    assert "" + PiecesValue(f.key) == PiecesValue(f.key);
    ExpectPast(f.colon, ':', ':', y);
  }

  lemma {:induction false} CompleteFields<N>(conv: string -> Converted<N>, fields: seq<Field>, m: map<string, Json<N>>,
                                             rest: string)
    requires GoodFields(conv, fields) && |fields| > 0
    ensures ParseMembers(Building, conv, SpellFields(fields) + (['}'] + rest), m)
              == Ok(Obj(MeaningMap(conv, m, fields)), rest)
    decreases fields
  {
    hide Spell, Parse, ParseMembers, Expect, SpellPieces, PiecesValue, GoodPieces, Good, Meaning, AllSpace, FieldRest;
    var f := fields[0];
    var close := ['}'] + rest;
    var after := SpellFields(fields[1..]) + close;
    var c := if |fields| > 1 then ',' else '}';
    var more := if |fields| > 1 then after else rest;
    FieldsFirst(fields, close);
    assert Comma(|fields| > 1) + after == [c] + more by {
      if |fields| == 1 { assert SpellFields(fields[1..]) == ""; }
    }
    Follows(f.slot.after, c, more);
    Complete(conv, f.slot.value, f.slot.after + ([c] + more));
    FieldParsed(conv, f, [c] + more, m);
    ExpectPast(f.slot.after, c, ',', more);
    if |fields| > 1 {
      CompleteFields(conv, fields[1..], m[PiecesValue(f.key) := Meaning(conv, f.slot.value)], rest);
    } else {
      ExpectHere('}', '}', rest);
    }
  }

  lemma RecordSpelled(inner: string, fields: seq<Field>, rest: string)
    ensures Spell(Record(inner, fields)) + rest == ['{'] + (RecordBody(inner, fields) + (['}'] + rest))
  {
    hide RecordBody;
    Wrapped("{", RecordBody(inner, fields), "}", rest);
  }

  lemma RecordParsed<N>(conv: string -> Converted<N>, inner: string, fields: seq<Field>, rest: string)
    requires AllSpace(inner) && GoodFields(conv, fields)
    requires |fields| > 0 ==>
               ParseMembers(Building, conv, SpellFields(fields) + (['}'] + rest), map[])
                 == Ok(Obj(MeaningMap(conv, map[], fields)), rest)
    ensures Parse(Building, conv, Spell(Record(inner, fields)) + rest) == Ok(Obj(MeaningMap(conv, map[], fields)), rest)
  {
    var body := RecordBody(inner, fields) + (['}'] + rest);
    RecordSpelled(inner, fields, rest);
    hide Spell, SpellFields, Parse, Expect, ParseString, Good, AllSpace, GoodPieces, FieldRest;
    ParseBrace(conv, body);
    if |fields| == 0 {
      ExpectPast(inner, '}', '}', rest);
    } else {
      var f := fields[0];
      var x := FieldRest(f, Comma(|fields| > 1) + (SpellFields(fields[1..]) + (['}'] + rest)));
      FieldsFirst(fields, ['}'] + rest);
      ExpectPast(f.before, '"', '}', x);
      ExpectPast(f.before, '"', '"', x);
      ExpectHere('"', '"', x);
    }
  }

  // ----- numbers by the standard (section 6)

  function AfterDigits(x: string): string
  {
    if |x| > 0 && IsDigit(x[0]) then AfterDigits(x[1..]) else x
  }

  predicate Digits(x: string) { |x| > 0 && IsDigit(x[0]) }

  /** A fraction, if there is one, has a digit; and what follows it. */
  function AfterFraction(x: string): (bool, string)
  {
    if |x| == 0 || x[0] != '.' then (true, x) else (Digits(x[1..]), AfterDigits(x[1..]))
  }

  /** Likewise for an exponent. */
  function AfterExponent(x: string): (bool, string)
  {
    if |x| == 0 || (x[0] != 'e' && x[0] != 'E') then (true, x)
    else
      var y := if |x| > 1 && (x[1] == '+' || x[1] == '-') then x[2..] else x[1..];
      (Digits(y), AfterDigits(y))
  }

  /** An optional minus sign, digits without a leading zero, a fraction, an exponent. */
  predicate StandardNumber(x: string)
  {
    var a := if |x| > 0 && x[0] == '-' then x[1..] else x;
    && Digits(a)
    && var (fraction, c) := AfterFraction(if a[0] == '0' then a[1..] else AfterDigits(a));
       var (exponent, d) := AfterExponent(c);
       fraction && exponent && d == ""
  }

  predicate NumberChars(x: string) { forall i :: 0 <= i < |x| ==> IsNumberChar(x[i]) }

  lemma FirstChar(x: string)
    requires |x| > 0 && IsNumberChar(x[0]) && NumberChars(x[1..])
    ensures NumberChars(x)
  {
    assert forall i :: 1 <= i < |x| ==> x[i] == x[1..][i - 1];
  }

  lemma {:induction false} DigitChars(x: string)
    requires NumberChars(AfterDigits(x))
    ensures NumberChars(x)
  {
    hide NumberChars;
    if |x| > 0 && IsDigit(x[0]) {
      DigitChars(x[1..]);
      FirstChar(x);
    }
  }

  lemma FractionChars(x: string)
    requires NumberChars(AfterFraction(x).1)
    ensures NumberChars(x)
  {
    hide NumberChars;
    if |x| > 0 && x[0] == '.' {
      DigitChars(x[1..]);
      FirstChar(x);
    }
  }

  lemma ExponentChars(x: string)
    requires NumberChars(AfterExponent(x).1)
    ensures NumberChars(x)
  {
    hide NumberChars;
    if |x| > 0 && (x[0] == 'e' || x[0] == 'E') {
      if |x| > 1 && (x[1] == '+' || x[1] == '-') {
        DigitChars(x[2..]);
        assert x[1..][1..] == x[2..];
        FirstChar(x[1..]);
      } else {
        DigitChars(x[1..]);
      }
      FirstChar(x);
    }
  }

  /** The parser's scanner takes every number of the standard in whole; it also takes others. */
  lemma StandardIsToken(x: string)
    requires StandardNumber(x)
    ensures NumberToken(x)
    ensures NumberToken("01") && !StandardNumber("01")
  {
    var a := if x[0] == '-' then x[1..] else x;
    var b := if a[0] == '0' then a[1..] else AfterDigits(a);
    assert NumberChars("");
    ExponentChars(AfterFraction(b).1);
    FractionChars(b);
    if a[0] == '0' { FirstChar(a); } else { DigitChars(a); }
    if x[0] == '-' { FirstChar(x); }
  }
}
