/** picojson's parser accepts only texts of the grammar, and gives them the value they denote. */
module JsonExact {
  import opened JsonSpec
  import opened JsonGrammar

  lemma {:induction false} SpaceSkipped(r: string) returns (w: string)
    ensures AllSpace(w) && r == w + SkipSpace(r)
    ensures SkipSpace(SkipSpace(r)) == SkipSpace(r)
  {
    w := "";
    if |r| > 0 && IsSpace(r[0]) {
      w := SpaceSkipped(r[1..]);
      w := [r[0]] + w;
    }
  }

  lemma ExpectSound(r: string, c: char) returns (w: string)
    ensures AllSpace(w)
    ensures var (found, q) := Expect(r, c); r == w + (if found then [c] + q else q)
    ensures !Expect(r, c).0 ==> Expect(r, c).1 == SkipSpace(r)
  {
    w := SpaceSkipped(r);
    var q := SkipSpace(r);
    if Expect(r, c).0 { assert q == [c] + q[1..]; }
  }

  /** Asking twice skips white space once. */
  lemma ExpectTwice(r: string, c: char)
    ensures Expect(SkipSpace(r), c) == Expect(r, c)
  {
    var w := SpaceSkipped(r);
  }

  lemma QuadHexSound(r: string)
    requires QuadHex(r, 4, 0).0 != -1
    ensures |r| >= 4 && QuadHex(r, 4, 0) == (HexNumber(r[..4]), r[4..])
  {
    hide QuadHex, HexValue, HexNumber;
    DigitsThere(r, 4, 0);
    assert r == r[..4] + r[4..];
    FourDigits(r[..4]);
    QuadHexIs(r[..4], r[4..]);
  }

  lemma FourDigits(h: string)
    requires |h| == 4 && forall i :: 0 <= i < 4 ==> HexValue(h[i]) >= 0
    ensures HexNumber(h) >= 0
  {}

  lemma {:induction false} DigitsThere(r: string, n: nat, acc: nat)
    requires n <= 4 && acc < HexCap(n) && QuadHex(r, n, acc).0 != -1
    ensures |r| >= n && forall i :: 0 <= i < n ==> HexValue(r[i]) >= 0
    decreases n
  {
    hide HexValue;
    if n > 0 {
      DigitsThere(r[1..], n - 1, acc * 16 + HexValue(r[0]));
      assert forall i :: 1 <= i < n ==> r[i] == r[1..][i - 1];
    }
  }

  lemma {:induction false} MatchSound(r: string, text: string)
    ensures var (m, q) := MatchText(r, text); m ==> r == text + q
    decreases text
  {
    if |text| == 0 {
      assert r == text + r;
    } else if |r| > 0 && r[0] == text[0] {
      MatchSound(r[1..], text[1..]);
      assert r == [r[0]] + r[1..];
    }
  }

  /** An escape with hex digits. */
  lemma CodeSound(r: string) returns (p: Piece)
    requires CodePoint(r).Ok?
    ensures GoodPiece(p) && CodePoint(r).value == PieceValue(p)
    ensures "\\u" + r == SpellPiece(p) + CodePoint(r).rest
  {
    hide QuadHex, HexNumber, Utf8, MatchText;
    QuadHexSound(r);
    var h, q := r[..4], r[4..];
    assert r == h + q;
    if 0xd800 <= HexNumber(h) <= 0xdfff {
      MatchSound(q, "\\u");
      var q2 := MatchText(q, "\\u").1;
      QuadHexSound(q2);
      assert q2 == q2[..4] + q2[4..];
      p := Pair(h, q2[..4]);
    } else {
      p := Code(h);
    }
  }

  lemma {:induction false} StringSound(r: string, acc: string) returns (ps: seq<Piece>)
    requires ParseString(r, acc).Ok?
    ensures var Ok(v, rest) := ParseString(r, acc);
            GoodPieces(ps) && r == SpellPieces(ps) + "\"" + rest && v == acc + PiecesValue(ps)
    decreases |r|
  {
    var Ok(v, rest) := ParseString(r, acc);
    if r[0] == '"' {
      ps := [];
    } else {
      var p, q := FirstPiece(r, acc);
      hide SpellPiece, PieceValue, GoodPiece, ParseString;
      ps := StringSound(q, acc + PieceValue(p));
      PiecesMore(p, ps, acc, rest);
      ps := [p] + ps;
    }
  }

  lemma FirstPiece(r: string, acc: string) returns (p: Piece, q: string)
    requires ParseString(r, acc).Ok? && r[0] != '"'
    ensures GoodPiece(p) && |q| < |r| && r == SpellPiece(p) + q
    ensures ParseString(r, acc) == ParseString(q, acc + PieceValue(p))
  {
    assert r[0] >= ' ' && (r[0] == '\\' ==> |r| > 1 && (|SimpleEscape(r[1])| > 0 || r[1] == 'u'));
    hide CodePoint, ParseString, SimpleEscape, Utf8, HexNumber;
    StringStep(r, acc);
    if r[0] != '\\' {
      p, q := Plain(r[0]), r[1..];
    } else if |SimpleEscape(r[1])| > 0 {
      p, q := Short(r[1]), r[2..];
    } else {
      CodeStep(r, acc);
      assert r == "\\u" + r[2..];
      p := CodeSound(r[2..]);
      q := CodePoint(r[2..]).rest;
    }
  }

  lemma PiecesMore(p: Piece, ps: seq<Piece>, acc: string, rest: string)
    requires GoodPiece(p) && GoodPieces(ps)
    ensures GoodPieces([p] + ps) && acc + PieceValue(p) + PiecesValue(ps) == acc + PiecesValue([p] + ps)
    ensures SpellPiece(p) + (SpellPieces(ps) + "\"" + rest) == SpellPieces([p] + ps) + "\"" + rest
  {
    hide SpellPiece, PieceValue, GoodPiece;
    assert ([p] + ps)[1..] == ps;
  }

  lemma {:induction false} NumberSound(r: string)
    ensures var q := AfterNumber(r);
            NumberStops(q) && r == r[..|r| - |q|] + q && forall i :: 0 <= i < |r| - |q| ==> IsNumberChar(r[i])
  {
    if |r| > 0 && IsNumberChar(r[0]) { NumberSound(r[1..]); }
  }

  /** s, behind white space, is what the parser read from r. */
  ghost predicate Derives<N(!new)>(conv: string -> Converted<N>, r: string, v: Json<N>, rest: string, w: string,
                                   s: Syntax)
  {
    && AllSpace(w) && Good(conv, s) && r == w + (Spell(s) + rest) && v == Meaning(conv, s)
    && (s.Num? ==> NumberStops(rest))
  }

  /** Whatever the parser accepts is a text of the grammar, with the value it denotes. */
  lemma {:induction false} Sound<N(!new)>(conv: string -> Converted<N>, r: string) returns (w: string, s: Syntax)
    requires Parse(Building, conv, r).Ok?
    ensures var Ok(v, rest) := Parse(Building, conv, r); Derives(conv, r, v, rest, w, s)
    decreases |r|, 1
  {
    hide Parse, SkipSpace, Spell, Good, Meaning, AllSpace;
    w := SpaceSkipped(r);
    var q := SkipSpace(r);
    ParseSolid(conv, r);
    assert q == [q[0]] + q[1..];
    if q[0] == '[' {
      s := SoundList(conv, q[1..]);
    } else if q[0] == '{' {
      s := SoundRecord(conv, q[1..]);
    } else {
      s := SoundAtom(conv, q);
    }
  }

  lemma ParseSolid<N>(conv: string -> Converted<N>, r: string)
    ensures Parse(Building, conv, SkipSpace(r)) == Parse(Building, conv, r)
    ensures Parse(Building, conv, r).Ok? ==> Solid(SkipSpace(r))
  {
    var w := SpaceSkipped(r);
    hide SkipSpace, MatchText, ParseString, Expect, ParseItems, ParseMembers, AfterNumber;
  }

  lemma SoundAtom<N(!new)>(conv: string -> Converted<N>, q: string) returns (s: Syntax)
    requires Parse(Building, conv, q).Ok? && Solid(q) && q[0] != '[' && q[0] != '{'
    ensures var Ok(v, rest) := Parse(Building, conv, q);
            Good(conv, s) && q == Spell(s) + rest && v == Meaning(conv, s) && (s.Num? ==> NumberStops(rest))
  {
    hide Parse, GoodPieces, SpellPieces, PiecesValue;
    if q[0] == 'n' || q[0] == 'f' || q[0] == 't' {
      s := SoundWord(conv, q);
    } else if q[0] == '"' {
      assert q == ['"'] + q[1..];
      s := SoundQuote(conv, q[1..]);
    } else {
      s := SoundToken(conv, q);
    }
  }

  lemma SoundWord<N>(conv: string -> Converted<N>, q: string) returns (s: Syntax)
    requires Parse(Building, conv, q).Ok? && |q| > 0 && (q[0] == 'n' || q[0] == 'f' || q[0] == 't')
    ensures var Ok(v, rest) := Parse(Building, conv, q);
            (s.NullWord? || s.BoolWord?) && q == Spell(s) + rest && v == Meaning(conv, s)
  {
    hide Parse, MatchText;
    ParseLetter(conv, q);
    MatchSound(q[1..], if q[0] == 'n' then "ull" else if q[0] == 'f' then "alse" else "rue");
    assert q == [q[0]] + q[1..];
    s := if q[0] == 'n' then NullWord else BoolWord(q[0] == 't');
  }

  lemma SoundQuote<N>(conv: string -> Converted<N>, body: string) returns (s: Syntax)
    requires Parse(Building, conv, ['"'] + body).Ok?
    ensures var Ok(v, rest) := Parse(Building, conv, ['"'] + body);
            s.Quote? && Good(conv, s) && ['"'] + body == Spell(s) + rest && v == Meaning(conv, s)
  {
    hide Parse, ParseString, GoodPieces, SpellPieces, PiecesValue;
    ParseQuote(conv, body);
    var ps := StringSound(body, "");
    assert "" + PiecesValue(ps) == PiecesValue(ps);
    s := Quote(ps);
    Wrapped("\"", SpellPieces(ps), "\"", Parse(Building, conv, ['"'] + body).rest);
  }

  lemma SoundToken<N>(conv: string -> Converted<N>, q: string) returns (s: Syntax)
    requires Parse(Building, conv, q).Ok? && Solid(q)
    requires q[0] != 'n' && q[0] != 'f' && q[0] != 't' && q[0] != '"' && q[0] != '[' && q[0] != '{'
    ensures var Ok(v, rest) := Parse(Building, conv, q);
            s.Num? && Good(conv, s) && q == Spell(s) + rest && v == Meaning(conv, s) && NumberStops(rest)
  {
    assert SkipSpace(q) == q;
    hide SkipSpace, AfterNumber;
    NumberSound(q);
    s := Num(q[..|q| - |AfterNumber(q)|]);
    assert IsNumberChar(q[0]);
    TokenStarts(q);
  }

  lemma TokenStarts(q: string)
    requires |q| > 0 && IsNumberChar(q[0])
    ensures |AfterNumber(q)| < |q|
  {}

  /** What the item loop does behind a value. */
  function ItemsAfter<N>(conv: string -> Converted<N>, r: string, acc: seq<Json<N>>): Parsed<Json<N>>
  {
    var (comma, q) := Expect(r, ',');
    if comma then ParseItems(Building, conv, q, acc)
    else
      var (close, q1) := Expect(q, ']');
      if close then Ok(Arr(acc), q1) else Fail(q1)
  }

  lemma ItemsUnfold<N>(conv: string -> Converted<N>, r: string, acc: seq<Json<N>>)
    requires ParseItems(Building, conv, r, acc).Ok?
    ensures var p := Parse(Building, conv, r);
            p.Ok? && ParseItems(Building, conv, r, acc) == ItemsAfter(conv, p.rest, acc + [p.value])
  {
    hide Parse, Expect;
  }

  /** A value, the white space behind it, and a comma or the rest. */
  lemma {:induction false} SoundSlots<N(!new)>(conv: string -> Converted<N>, r: string, acc: seq<Json<N>>)
    returns (slots: seq<Slot>)
    requires ParseItems(Building, conv, r, acc).Ok?
    ensures var Ok(v, rest) := ParseItems(Building, conv, r, acc);
            && |slots| > 0 && GoodSlots(conv, slots) && r == SpellSlots(slots) + ([']'] + rest)
            && v == Arr(acc + Meanings(conv, slots))
    decreases |r|, 2
  {
    hide Parse, ParseItems, Expect, Spell, SpellSlots, Good, GoodSlots, Meaning, Meanings, AllSpace;
    var rest := ParseItems(Building, conv, r, acc).rest;
    ItemsUnfold(conv, r, acc);
    var Ok(v, q) := Parse(Building, conv, r);
    var w, s := Sound(conv, r);
    var a := ExpectSound(q, ',');
    var (comma, q1) := Expect(q, ',');
    if comma {
      slots := SoundSlots(conv, q1, acc + [v]);
      OneSlotMore(conv, Slot(w, s, a), slots, [']'] + rest);
      assert acc + [v] + Meanings(conv, slots) == acc + ([v] + Meanings(conv, slots));
      slots := [Slot(w, s, a)] + slots;
    } else {
      ExpectTwice(q, ']');
      a := ExpectSound(q, ']');
      NoSlots(conv);
      OneSlotMore(conv, Slot(w, s, a), [], [']'] + rest);
      slots := [Slot(w, s, a)] + [];
    }
  }

  lemma NoSlots<N>(conv: string -> Converted<N>)
    ensures GoodSlots(conv, []) && Meanings(conv, []) == [] && SpellSlots([]) == ""
  {}

  /** What follows an item: a comma and the rest, or the end. */
  function Tail(rest: string, close: string, more: bool): string { if more then [','] + rest else close }

  lemma CommaTail(rest: string, close: string, more: bool)
    requires more || rest == close
    ensures Comma(more) + rest == Tail(rest, close, more)
  {}

  lemma OneSlotMore<N>(conv: string -> Converted<N>, slot: Slot, slots: seq<Slot>, close: string)
    requires AllSpace(slot.before) && Good(conv, slot.value) && AllSpace(slot.after) && GoodSlots(conv, slots)
    ensures GoodSlots(conv, [slot] + slots)
    ensures Meanings(conv, [slot] + slots) == [Meaning(conv, slot.value)] + Meanings(conv, slots)
    ensures SpellSlots([slot] + slots) + close ==
              slot.before + (Spell(slot.value) + (slot.after + Tail(SpellSlots(slots) + close, close, |slots| > 0)))
  {
    hide Spell, Good, Meaning;
    assert ([slot] + slots)[1..] == slots;
    CommaTail(SpellSlots(slots) + close, close, |slots| > 0);
    SlotsFirst([slot] + slots, close);
  }

  lemma SoundList<N(!new)>(conv: string -> Converted<N>, body: string) returns (s: Syntax)
    requires Parse(Building, conv, ['['] + body).Ok?
    ensures var Ok(v, rest) := Parse(Building, conv, ['['] + body);
            s.List? && Good(conv, s) && ['['] + body == Spell(s) + rest && v == Meaning(conv, s)
    decreases |body|, 3
  {
    hide Parse, ParseItems, Expect, AllSpace, Spell, Good, Meaning, SpellSlots, GoodSlots, Meanings;
    ParseBracket(conv, body);
    var rest := Parse(Building, conv, ['['] + body).rest;
    var w := ExpectSound(body, ']');
    if Expect(body, ']').0 {
      s := List(w, []);
      NoSlots(conv);
      ListParts(conv, w, []);
      ListSpelled(w, [], rest);
    } else {
      ItemsSolid<N>(conv, body, []);
      var slots := SoundSlots(conv, body, []);
      assert [] + Meanings(conv, slots) == Meanings(conv, slots);
      s := List("", slots);
      NoSpace();
      ListParts(conv, "", slots);
      ListSpelled("", slots, rest);
    }
  }

  /** White space in front of the items does not matter. */
  lemma ItemsSolid<N>(conv: string -> Converted<N>, r: string, acc: seq<Json<N>>)
    ensures ParseItems(Building, conv, SkipSpace(r), acc) == ParseItems(Building, conv, r, acc)
  {
    hide Parse, Expect, SkipSpace;
    ParseSolid(conv, r);
  }

  lemma NoSpace()
    ensures AllSpace("")
  {}

  lemma ListParts<N>(conv: string -> Converted<N>, inner: string, items: seq<Slot>)
    requires AllSpace(inner) && GoodSlots(conv, items)
    ensures Good(conv, List(inner, items)) && Meaning(conv, List(inner, items)) == Arr(Meanings(conv, items))
  {
    hide GoodSlots, Meanings, AllSpace;
  }

  /** A field up to its value. */
  lemma SoundKey<N>(conv: string -> Converted<N>, r: string, m: map<string, Json<N>>)
    returns (before: string, key: seq<Piece>, colon: string, q: string)
    requires ParseMembers(Building, conv, r, m).Ok?
    ensures AllSpace(before) && GoodPieces(key) && AllSpace(colon) && |q| < |r|
    ensures r == before + (['"'] + (SpellPieces(key) + "\"" + (colon + ([':'] + q))))
    ensures Parse(Building, conv, q).Ok?
    ensures var Ok(v, q1) := Parse(Building, conv, q);
            ParseMembers(Building, conv, r, m) == MembersAfter(conv, q1, m[PiecesValue(key) := v])
  {
    hide Parse, Expect, ParseString, GoodPieces, SpellPieces, PiecesValue;
    before := ExpectSound(r, '"');
    var x := Expect(r, '"').1;
    key := StringSound(x, "");
    assert "" + PiecesValue(key) == PiecesValue(key);
    var y := ParseString(x, "").rest;
    colon := ExpectSound(y, ':');
    q := Expect(y, ':').1;
  }

  lemma {:induction false} SoundFields<N(!new)>(conv: string -> Converted<N>, r: string, m: map<string, Json<N>>)
    returns (fields: seq<Field>)
    requires ParseMembers(Building, conv, r, m).Ok?
    ensures var Ok(v, rest) := ParseMembers(Building, conv, r, m);
            && |fields| > 0 && GoodFields(conv, fields) && r == SpellFields(fields) + (['}'] + rest)
            && v == Obj(MeaningMap(conv, m, fields))
    decreases |r|, 2
  {
    hide Parse, ParseMembers, Expect, Spell, SpellFields, Good, GoodFields, Meaning, MeaningMap, SpellPieces,
         PiecesValue, GoodPieces, AllSpace;
    var rest := ParseMembers(Building, conv, r, m).rest;
    var before, key, colon, q := SoundKey(conv, r, m);
    var Ok(v, q1) := Parse(Building, conv, q);
    var w, s := Sound(conv, q);
    var a := ExpectSound(q1, ',');
    var (comma, q2) := Expect(q1, ',');
    var f := Field(before, key, colon, Slot(w, s, a));
    if comma {
      fields := SoundFields(conv, q2, m[PiecesValue(key) := v]);
      OneField(conv, f);
      OneFieldMore(conv, f, fields, m, ['}'] + rest);
      fields := [f] + fields;
    } else {
      ExpectTwice(q1, '}');
      a := ExpectSound(q1, '}');
      f := Field(before, key, colon, Slot(w, s, a));
      OneField(conv, f);
      NoFields(conv, m[PiecesValue(key) := v]);
      OneFieldMore(conv, f, [], m, ['}'] + rest);
      fields := [f] + [];
    }
  }

  lemma OneField<N>(conv: string -> Converted<N>, f: Field)
    requires AllSpace(f.before) && GoodPieces(f.key) && AllSpace(f.colon)
    requires AllSpace(f.slot.before) && Good(conv, f.slot.value) && AllSpace(f.slot.after)
    ensures GoodFields(conv, [f])
  {
    hide Good, GoodPieces, AllSpace;
  }

  lemma NoFields<N>(conv: string -> Converted<N>, m: map<string, Json<N>>)
    ensures GoodFields(conv, []) && MeaningMap(conv, m, []) == m && SpellFields([]) == ""
  {}

  lemma OneFieldMore<N>(conv: string -> Converted<N>, f: Field, fields: seq<Field>, m: map<string, Json<N>>,
                        close: string)
    requires GoodFields(conv, [f]) && GoodFields(conv, fields)
    ensures GoodFields(conv, [f] + fields)
    ensures MeaningMap(conv, m, [f] + fields) ==
            MeaningMap(conv, m[PiecesValue(f.key) := Meaning(conv, f.slot.value)], fields)
    ensures SpellFields([f] + fields) + close ==
              f.before + (['"'] + FieldRest(f, Tail(SpellFields(fields) + close, close, |fields| > 0)))
  {
    hide Spell, Good, Meaning, SpellPieces, PiecesValue, GoodPieces, AllSpace, FieldRest;
    assert ([f] + fields)[1..] == fields;
    CommaTail(SpellFields(fields) + close, close, |fields| > 0);
    FieldsFirst([f] + fields, close);
  }

  lemma SoundRecord<N(!new)>(conv: string -> Converted<N>, body: string) returns (s: Syntax)
    requires Parse(Building, conv, ['{'] + body).Ok?
    ensures var Ok(v, rest) := Parse(Building, conv, ['{'] + body);
            s.Record? && Good(conv, s) && ['{'] + body == Spell(s) + rest && v == Meaning(conv, s)
    decreases |body|, 3
  {
    hide Parse, ParseMembers, Expect, AllSpace, Spell, Good, Meaning, SpellFields, GoodFields, MeaningMap;
    ParseBrace(conv, body);
    var rest := Parse(Building, conv, ['{'] + body).rest;
    var w := ExpectSound(body, '}');
    if Expect(body, '}').0 {
      s := Record(w, []);
      NoFields<N>(conv, map[]);
      RecordParts<N>(conv, w, []);
      RecordSpelled(w, [], rest);
    } else {
      MembersSolid<N>(conv, body, map[]);
      var fields := SoundFields(conv, body, map[]);
      s := Record("", fields);
      NoSpace();
      RecordParts(conv, "", fields);
      RecordSpelled("", fields, rest);
    }
  }

  lemma MembersSolid<N>(conv: string -> Converted<N>, r: string, m: map<string, Json<N>>)
    ensures ParseMembers(Building, conv, SkipSpace(r), m) == ParseMembers(Building, conv, r, m)
  {
    hide Parse, Expect, SkipSpace, ParseString;
    ExpectTwice(r, '"');
  }

  lemma RecordParts<N>(conv: string -> Converted<N>, inner: string, fields: seq<Field>)
    requires AllSpace(inner) && GoodFields(conv, fields)
    ensures Good(conv, Record(inner, fields)) &&
            Meaning(conv, Record(inner, fields)) == Obj(MeaningMap(conv, map[], fields))
  {
    hide GoodFields, MeaningMap, AllSpace;
  }

  /** The parser accepts exactly the texts of the grammar: it reads v from r and leaves rest if and only
      if r is white space, a text that denotes v, and rest. */
  lemma ParseIff<N(!new)>(conv: string -> Converted<N>, r: string, v: Json<N>, rest: string)
    ensures Parse(Building, conv, r) == Ok(v, rest) <==> exists w, s :: Derives(conv, r, v, rest, w, s)
  {
    if Parse(Building, conv, r) == Ok(v, rest) {
      var w, s := Sound(conv, r);
      assert Derives(conv, r, v, rest, w, s);
    }
    forall w, s | Derives(conv, r, v, rest, w, s)
      ensures Parse(Building, conv, r) == Ok(v, rest)
    {
      SpellSolid(conv, s);
      ParseSkips(conv, w, Spell(s) + rest);
      Complete(conv, s, rest);
    }
  }

  /** So the grammar is unambiguous: a text denotes one value and ends at one place. */
  lemma Unambiguous<N(!new)>(conv: string -> Converted<N>, r: string, v: Json<N>, rest: string, w: string, s: Syntax,
                             v': Json<N>, rest': string, w': string, s': Syntax)
    requires Derives(conv, r, v, rest, w, s) && Derives(conv, r, v', rest', w', s')
    ensures v == v' && rest == rest'
  {
    hide Derives, Parse;
    ParseIff(conv, r, v, rest);
    ParseIff(conv, r, v', rest');
  }
}
