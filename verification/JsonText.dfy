/** What the characters of a JSON text stand for, stated by their codes: white space, hex digits, escapes, and
    the UTF-8 form of code points, with a decoder that is its inverse. */
module JsonText {
  import opened JsonSpec
  import opened JsonGrammar

  // ----- characters

  /** Section 2 of RFC 8259: space, tab, line feed and carriage return. */
  lemma SpacesByCode(c: char)
    ensures IsSpace(c) <==> c as int in {0x20, 0x09, 0x0a, 0x0d}
  {}

  const LOWER: string := "0123456789abcdef"
  const UPPER: string := "0123456789ABCDEF"

  /** Hex digits of either case have the value of their place; other characters are none. */
  lemma DigitsByPlace(n: nat, c: char)
    ensures n < 16 ==> HexValue(LOWER[n]) == HexValue(UPPER[n]) == n && HexDigit(n) == LOWER[n]
    ensures c !in LOWER && c !in UPPER ==> HexValue(c) == -1
  {
    var v := HexValue(c);
    if v >= 0 { assert c == LOWER[v] || c == UPPER[v]; }
  }

  /** Section 7: the eight short escapes and the codes they stand for. */
  lemma EscapesByCode(c: char)
    ensures SimpleEscape('"') == [0x22 as char] && SimpleEscape('\\') == [0x5c as char]
    ensures SimpleEscape('/') == [0x2f as char] && SimpleEscape('b') == [0x08 as char]
    ensures SimpleEscape('f') == [0x0c as char] && SimpleEscape('n') == [0x0a as char]
    ensures SimpleEscape('r') == [0x0d as char] && SimpleEscape('t') == [0x09 as char]
    ensures c !in ['"', '\\', '/', 'b', 'f', 'n', 'r', 't'] ==> SimpleEscape(c) == ""
  {}

  // ----- UTF-8

  /** The six bits of a byte from 80 to BF, or -1. */
  function SixBits(s: string, i: nat): (v: int)
    ensures -1 <= v < 64
  {
    if i < |s| && 0x80 <= s[i] as int < 0xc0 then s[i] as int - 0x80 else -1
  }

  /** The form that the lead byte announces: how many bytes follow, and its own bits. */
  function Lead(c: char): (int, int)
  {
    var b := c as int;
    if b < 0x80 then (0, b)
    else if 0xc0 <= b < 0xe0 then (1, b - 0xc0)
    else if 0xe0 <= b < 0xf0 then (2, b - 0xe0)
    else if 0xf0 <= b < 0xf8 then (3, b - 0xf0)
    else (-1, 0)
  }

  /** The code point at the start of s, or -1, and how many bytes it has. */
  function Decode(s: string): (int, nat)
  {
    if |s| == 0 then (-1, 0)
    else
      var (n, v) := Lead(s[0]);
      if n == 0 then (v, 1)
      else if n == 1 then (if SixBits(s, 1) < 0 then -1 else v * 64 + SixBits(s, 1), 2)
      else if n == 2 then
        (if SixBits(s, 1) < 0 || SixBits(s, 2) < 0 then -1 else (v * 64 + SixBits(s, 1)) * 64 + SixBits(s, 2), 3)
      else if n == 3 then
        (if SixBits(s, 1) < 0 || SixBits(s, 2) < 0 || SixBits(s, 3) < 0 then -1
         else ((v * 64 + SixBits(s, 1)) * 64 + SixBits(s, 2)) * 64 + SixBits(s, 3), 4)
      else (-1, 0)
  }

  /** Decoding undoes the encoding, whatever follows. */
  lemma Utf8Back(u: nat, rest: string)
    requires u < 0x110000
    ensures Decode(Utf8(u) + rest) == (u, |Utf8(u)|)
  {
    if u >= 0x10000 { Back4(u, rest); } else if u >= 0x800 { Back3(u, rest); }
  }

  lemma Back4(u: nat, rest: string)
    requires 0x10000 <= u < 0x110000
    ensures Decode(Utf8(u) + rest) == (u, 4)
  {
    var s := Utf8(u) + rest;
    var a, b, c, d := u / 262144, u / 4096 % 64, u / 64 % 64, u % 64;
    assert u / 4096 == 64 * a + b && u / 64 == 64 * (u / 4096) + c && u == 64 * (u / 64) + d;
    assert Lead(s[0]) == (3, a) && SixBits(s, 1) == b && SixBits(s, 2) == c && SixBits(s, 3) == d;
    hide Utf8, Lead, SixBits;
  }

  lemma Back3(u: nat, rest: string)
    requires 0x800 <= u < 0x10000
    ensures Decode(Utf8(u) + rest) == (u, 3)
  {
    var s := Utf8(u) + rest;
    var a, b, c := u / 4096, u / 64 % 64, u % 64;
    assert u / 64 == 64 * a + b && u == 64 * (u / 64) + c;
    assert Lead(s[0]) == (2, a) && SixBits(s, 1) == b && SixBits(s, 2) == c;
    hide Utf8, Lead, SixBits;
  }

  /** No other bytes spell the code point as shortly: the encoding is the shortest form, and the only one
      of its length. */
  lemma Utf8Shortest(u: nat, s: string)
    requires u < 0x110000 && Decode(s).0 == u
    ensures Decode(s).1 >= |Utf8(u)|
    ensures Decode(s).1 == |Utf8(u)| ==> |s| >= |Utf8(u)| && s[..|Utf8(u)|] == Utf8(u)
  {
    var n := Lead(s[0]).0;
    if n == 3 { FourBytes(u, s); } else if n == 2 { ThreeBytes(u, s); }
  }

  lemma FourBytes(u: nat, s: string)
    requires u < 0x110000 && Decode(s) == (u, 4)
    ensures |Utf8(u)| == 4 ==> s[..4] == Utf8(u)
  {
    var a, b, c, d := Lead(s[0]).1, SixBits(s, 1), SixBits(s, 2), SixBits(s, 3);
    assert u == ((a * 64 + b) * 64 + c) * 64 + d;
    assert u / 64 == (a * 64 + b) * 64 + c && u % 64 == d;
    assert u / 4096 == a * 64 + b && u / 262144 == a;
  }

  lemma ThreeBytes(u: nat, s: string)
    requires u < 0x110000 && Decode(s) == (u, 3)
    ensures |Utf8(u)| <= 3 && (|Utf8(u)| == 3 ==> s[..3] == Utf8(u))
  {
    var a, b, c := Lead(s[0]).1, SixBits(s, 1), SixBits(s, 2);
    assert u / 64 == a * 64 + b && u % 64 == c;
  }

  // ----- escaped code points

  /** Four digits, highest first. */
  function Hex4(u: nat): string
    requires u < 0x10000
  {
    [Digit(u / 4096), Digit(u / 256 % 16), Digit(u / 16 % 16), Digit(u % 16)]
  }

  function Digit(n: nat): char
    requires n < 16
  {
    LOWER[n]
  }

  lemma Hex4Value(u: nat)
    requires u < 0x10000
    ensures HexNumber(Hex4(u)) == u
  {
    hide HexValue, Digit;
    DigitValue(u / 4096);
    DigitValue(u / 256 % 16);
    DigitValue(u / 16 % 16);
    DigitValue(u % 16);
    assert u / 16 == u / 256 * 16 + u / 16 % 16 && u / 256 == u / 4096 * 16 + u / 256 % 16;
  }

  lemma DigitValue(n: nat)
    requires n < 16
    ensures HexValue(Digit(n)) == n
  {
    DigitsByPlace(n, '0');
  }

  predicate Surrogate(u: nat) { 0xd800 <= u <= 0xdfff }

  /** Section 7: a code point in four digits, or above ffff as a surrogate pair of ten bits each. */
  function EscapeOf(u: nat): Piece
    requires u < 0x110000
  {
    if u < 0x10000 then Code(Hex4(u))
    else Pair(Hex4(0xd800 + (u - 0x10000) / 1024), Hex4(0xdc00 + (u - 0x10000) % 1024))
  }

  /** Every escaped code point is read as the bytes that decode to it. */
  lemma CodePointRead(u: nat, rest: string)
    requires u < 0x110000 && !Surrogate(u)
    ensures var r := ParseString(SpellPiece(EscapeOf(u)) + "\"" + rest, "");
            r.Ok? && r.rest == rest && Decode(r.value) == (u, |r.value|)
  {
    hide EscapeOf, GoodPiece, PieceValue, Utf8, Decode, ParseString, SpellPiece;
    EscapeValue(u);
    OnePiece(EscapeOf(u), rest);
    Utf8Back(u, "");
    assert Utf8(u) + "" == Utf8(u);
  }

  lemma EscapeValue(u: nat)
    requires u < 0x110000 && !Surrogate(u)
    ensures GoodPiece(EscapeOf(u)) && PieceValue(EscapeOf(u)) == Utf8(u)
  {
    hide Hex4, HexNumber, Utf8;
    if u < 0x10000 {
      Hex4Value(u);
    } else {
      Hex4Value(0xd800 + (u - 0x10000) / 1024);
      Hex4Value(0xdc00 + (u - 0x10000) % 1024);
    }
  }

  lemma OnePiece(p: Piece, rest: string)
    requires GoodPiece(p)
    ensures ParseString(SpellPiece(p) + "\"" + rest, "") == Ok(PieceValue(p), rest)
  {
    hide ParseString, SpellPiece, PieceValue, GoodPiece;
    PiecesParsed([p], "", rest);
    assert SpellPieces([p]) == SpellPiece(p) + SpellPieces([]);
    assert PiecesValue([p]) == PieceValue(p) + PiecesValue([]);
    assert SpellPieces([p]) == SpellPiece(p) && "" + PiecesValue([p]) == PieceValue(p);
  }

  // ----- layout

  lemma NewLines()
    ensures NewLine(-1) == "" && NewLine(0) == "\n" && NewLine(1) == "\n  " && NewLine(2) == "\n    "
    ensures Colon(-1) == ":" && Colon(1) == ": "
  {
    assert Spaces(1) == " " && Spaces(2) == " " + " ";
    assert Spaces(4) == " " + (" " + Spaces(2));
  }

  /** How an array is printed: each item on a line of its own, one level deeper. */
  lemma ArrayLayout<N>(show: N -> string, indent: int)
    requires indent >= -1
    ensures var d := if indent == -1 then -1 else indent + 1;
            Text(show, TArr([TBool(true), TNull]), indent) ==
            "[" + (NewLine(d) + "true" + "," + (NewLine(d) + "null")) + NewLine(indent) + "]"
  {
    var t: Tree<N>, n: Tree<N> := TBool(true), TNull;
    var d := Deeper(indent);
    assert [t, n][1..] == [n] && [n][1..] == [];
    hide NewLine;
    assert ItemsText(show, [n], d) == NewLine(d) + "null" by {
      assert NewLine(d) + "null" + "" + "" == NewLine(d) + "null";
    }
  }

  /** How an object is printed: the key, a colon, and a space unless compact. */
  lemma ObjectLayout<N>(show: N -> string, indent: int)
    requires indent >= -1
    ensures var d := if indent == -1 then -1 else indent + 1;
            Text(show, TObj([Entry("a", TNull)]), indent) ==
            "{" + (NewLine(d) + "\"a\"" + Colon(d) + "null") + NewLine(indent) + "}"
    ensures Text(show, TObj([]), indent) == "{}" && Text(show, TArr([]), indent) == "[]"
  {
    hide NewLine, Colon;
    var e: Entry<N> := Entry("a", TNull);
    var d := Deeper(indent);
    assert [e][1..] == [];
    assert Escape('a') == "a";
    assert Escaped("a") == "a" + "";
    assert Quoted("a") == "\"a\"";
    hide Quoted;
    var x := NewLine(d) + "\"a\"" + Colon(d) + "null";
    assert EntriesText(show, [e], d) == x + "" + "";
    assert x + "" + "" == x;
  }
}
