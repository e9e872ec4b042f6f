/** JSON values, and the text and the grammar picojson gives them. A char stands for one
    byte of the input. Parsers are functions from the remaining input to a result and what
    then remains. */
module JsonSpec {

  /** N is the type of finite numbers. */
  datatype Json<N> =
    | Null
    | Bool(b: bool)
    | Number(n: N)
    | Str(s: string)
    | Arr(items: seq<Json<N>>)
    | Obj(members: map<string, Json<N>>)

  /** A value together with the order in which each of its objects is iterated. */
  datatype Tree<N> =
    | TNull
    | TBool(b: bool)
    | TNumber(n: N)
    | TStr(s: string)
    | TArr(items: seq<Tree<N>>)
    | TObj(entries: seq<Entry<N>>)

  datatype Entry<N> = Entry(key: string, value: Tree<N>)

  function ValueOf<N>(t: Tree<N>): Json<N>
  {
    match t
    case TNull => Null
    case TBool(b) => Bool(b)
    case TNumber(n) => Number(n)
    case TStr(s) => Str(s)
    case TArr(items) => Arr(ValuesOf(items))
    case TObj(entries) => Obj(MapOf(map[], entries))
  }

  function ValuesOf<N>(ts: seq<Tree<N>>): (vs: seq<Json<N>>)
    ensures |vs| == |ts|
  {
    if |ts| == 0 then [] else [ValueOf(ts[0])] + ValuesOf(ts[1..])
  }

  function MapOf<N>(m: map<string, Json<N>>, entries: seq<Entry<N>>): map<string, Json<N>>
    decreases entries
  {
    if |entries| == 0 then m else MapOf(m[entries[0].key := ValueOf(entries[0].value)], entries[1..])
  }

  // ----- text

  function HexDigit(n: nat): char
    requires n < 16
  {
    if n < 10 then '0' + n as char else 'a' + (n - 10) as char
  }

  /** serialize_str_char. */
  function Escape(c: char): (r: string)
    ensures |r| >= 1
  {
    if c == '"' then "\\\""
    else if c == '\\' then "\\\\"
    else if c == '/' then "\\/"
    else if c == 8 as char then "\\b"
    else if c == 12 as char then "\\f"
    else if c == '\n' then "\\n"
    else if c == '\r' then "\\r"
    else if c == '\t' then "\\t"
    else if c < ' ' || c == 127 as char then "\\u00" + [HexDigit(c as nat / 16), HexDigit(c as nat % 16)]
    else [c]
  }

  function Escaped(s: string): string
  {
    if |s| == 0 then "" else Escape(s[0]) + Escaped(s[1..])
  }

  function Quoted(s: string): string
  {
    "\"" + Escaped(s) + "\""
  }

  function Spaces(n: nat): string
  {
    if n == 0 then "" else " " + Spaces(n - 1)
  }

  /** A new line, unless the output is compact (indent is -1). */
  function NewLine(indent: int): string
    requires indent >= -1
  {
    if indent == -1 then "" else "\n" + Spaces(2 * indent)
  }

  function Deeper(indent: int): (r: int)
    requires indent >= -1
    ensures r == -1 || r >= 1
  {
    if indent == -1 then -1 else indent + 1
  }

  /** The text of a value without the final new line of a pretty-printed document. */
  function Text<N>(show: N -> string, t: Tree<N>, indent: int): string
    requires indent >= -1
    decreases t
  {
    match t
    case TNull => "null"
    case TBool(b) => if b then "true" else "false"
    case TNumber(n) => show(n)
    case TStr(s) => Quoted(s)
    case TArr(items) =>
      "[" + ItemsText(show, items, Deeper(indent)) + (if |items| == 0 then "" else NewLine(indent)) + "]"
    case TObj(entries) =>
      "{" + EntriesText(show, entries, Deeper(indent)) + (if |entries| == 0 then "" else NewLine(indent)) + "}"
  }

  /** A comma between this item and the ones that follow. */
  function Comma(more: bool): string
  {
    if more then "," else ""
  }

  function ItemsText<N>(show: N -> string, items: seq<Tree<N>>, indent: int): string
    requires indent >= -1
    decreases items
  {
    if |items| == 0 then ""
    else NewLine(indent) + Text(show, items[0], indent) + Comma(|items| > 1) + ItemsText(show, items[1..], indent)
  }

  function Colon(indent: int): string
  {
    ":" + Spaces(if indent == -1 then 0 else 1)
  }

  function EntriesText<N>(show: N -> string, entries: seq<Entry<N>>, indent: int): string
    requires indent >= -1
    decreases entries
  {
    if |entries| == 0 then ""
    else
      NewLine(indent) + Quoted(entries[0].key) + Colon(indent) + Text(show, entries[0].value, indent)
      + Comma(|entries| > 1) + EntriesText(show, entries[1..], indent)
  }

  /** _serialize: at the outermost level of pretty printing, a new line follows. */
  function Serialized<N>(show: N -> string, t: Tree<N>, indent: int): string
    requires indent >= -1
  {
    Text(show, t, indent) + (if indent == 0 then "\n" else "")
  }

  // ----- grammar

  /** What strtod makes of a number token. */
  datatype Converted<N> = NotANumber | NonFinite | Finite(n: N)

  /** The two parse contexts: build a value, or only check. */
  datatype Context = Building | Checking

  /** Success and failure with the remaining input; or the exception that the value of a
      number that is not finite throws. */
  datatype Parsed<T> = Ok(value: T, rest: string) | Fail(rest: string) | Thrown

  predicate IsSpace(c: char) { c == ' ' || c == '\t' || c == '\n' || c == '\r' }

  predicate IsDigit(c: char) { '0' <= c <= '9' }

  predicate IsNumberChar(c: char)
  {
    IsDigit(c) || c == '+' || c == '-' || c == 'e' || c == 'E' || c == '.'
  }

  function SkipSpace(r: string): (q: string)
    ensures |q| <= |r|
    ensures |q| > 0 ==> !IsSpace(q[0])
  {
    if |r| > 0 && IsSpace(r[0]) then SkipSpace(r[1..]) else r
  }

  /** Is the next character after white space c? */
  function Expect(r: string, c: char): (e: (bool, string))
    ensures |e.1| <= |r| && (e.0 ==> |e.1| < |r|)
  {
    var q := SkipSpace(r);
    if |q| > 0 && q[0] == c then (true, q[1..]) else (false, q)
  }

  function MatchText(r: string, text: string): (e: (bool, string))
    ensures |e.1| <= |r|
    decreases text
  {
    if |text| == 0 then (true, r)
    else if |r| > 0 && r[0] == text[0] then MatchText(r[1..], text[1..])
    else (false, r)
  }

  /** What follows the longest run of number characters. */
  function AfterNumber(r: string): (q: string)
    ensures |q| <= |r|
  {
    if |r| > 0 && IsNumberChar(r[0]) then AfterNumber(r[1..]) else r
  }

  function HexValue(c: char): (v: int)
    ensures -1 <= v < 16
  {
    if '0' <= c <= '9' then c as int - '0' as int
    else if 'A' <= c <= 'F' then c as int - 'A' as int + 10
    else if 'a' <= c <= 'f' then c as int - 'a' as int + 10
    else -1
  }

  /** A bound for the value of four hex digits while n are still to come. */
  function HexCap(n: nat): nat
  {
    if n == 0 then 65536 else HexCap(n - 1) / 16
  }

  /** Four hex digits, of which n are still to come; the value is -1 when one is missing. */
  function QuadHex(r: string, n: nat, acc: nat): (e: (int, string))
    requires n <= 4 && acc < HexCap(n)
    ensures -1 <= e.0 < 65536 && |e.1| <= |r|
    decreases n
  {
    if n == 0 then (acc, r)
    else if |r| == 0 || HexValue(r[0]) == -1 then (-1, r)
    else QuadHex(r[1..], n - 1, acc * 16 + HexValue(r[0]))
  }

  /** The UTF-8 encoding (table 3-6 of the Unicode standard). */
  function Utf8(u: nat): string
    requires u < 0x110000
  {
    if u < 0x80 then [u as char]
    else if u < 0x800 then [(0xc0 + u / 64) as char, (0x80 + u % 64) as char]
    else if u < 0x10000 then [(0xe0 + u / 4096) as char, (0x80 + u / 64 % 64) as char, (0x80 + u % 64) as char]
    else [(0xf0 + u / 262144) as char, (0x80 + u / 4096 % 64) as char, (0x80 + u / 64 % 64) as char,
          (0x80 + u % 64) as char]
  }

  /** After a backslash and a u: one code point, possibly a surrogate pair. */
  function CodePoint(r: string): (e: Parsed<string>)
    ensures e.Ok? ==> |e.rest| <= |r|
    ensures !e.Thrown?
  {
    var (u, q) := QuadHex(r, 4, 0);
    if u == -1 then Fail(q)
    else if 0xd800 <= u <= 0xdfff then
      if 0xdc00 <= u then Fail(q)
      else
        var (m, q2) := MatchText(q, "\\u");
        if !m then Fail(q2)
        else
          var (second, q3) := QuadHex(q2, 4, 0);
          if 0xdc00 <= second <= 0xdfff then
            Ok(Utf8(0x10000 + (u - 0xd800) * 1024 + (second - 0xdc00)), q3)
          else Fail(q3)
    else Ok(Utf8(u), q)
  }

  /** The character an escape stands for; empty when c is no such escape. */
  function SimpleEscape(c: char): string
  {
    if c == '"' then "\""
    else if c == '\\' then "\\"
    else if c == '/' then "/"
    else if c == 'b' then [8 as char]
    else if c == 'f' then [12 as char]
    else if c == 'n' then "\n"
    else if c == 'r' then "\r"
    else if c == 't' then "\t"
    else ""
  }

  /** After the opening quote. */
  function ParseString(r: string, acc: string): (e: Parsed<string>)
    ensures e.Ok? ==> |e.rest| < |r|
    ensures !e.Thrown?
    decreases |r|
  {
    if |r| == 0 then Fail(r)
    else if r[0] < ' ' then Fail(r)
    else if r[0] == '"' then Ok(acc, r[1..])
    else if r[0] == '\\' then
      if |r| == 1 then Fail(r[1..])
      else
        var c, q := r[1], r[2..];
        if |SimpleEscape(c)| > 0 then ParseString(q, acc + SimpleEscape(c))
        else if c == 'u' then
          var p := CodePoint(q);
          if p.Ok? then ParseString(p.rest, acc + p.value) else Fail(p.rest)
        else Fail(q)
    else ParseString(r[1..], acc + [r[0]])
  }

  /** set_number: a built value must be finite. */
  function SetNumber<N>(ctx: Context, c: Converted<N>, q: string): Parsed<Json<N>>
  {
    match c
    case NotANumber => Fail(q)
    case Finite(n) => Ok(if ctx.Building? then Number(n) else Null, q)
    case NonFinite => if ctx.Building? then Thrown else Ok(Null, q)
  }

  function Literal<N>(r: string, text: string, v: Json<N>): (e: Parsed<Json<N>>)
    ensures e.Ok? ==> |e.rest| <= |r|
  {
    var (m, q) := MatchText(r, text);
    if m then Ok(v, q) else Fail(q)
  }

  function Made<N>(ctx: Context, v: Json<N>): Json<N>
  {
    if ctx.Building? then v else Null
  }

  function Parse<N>(ctx: Context, conv: string -> Converted<N>, r: string): (e: Parsed<Json<N>>)
    ensures e.Ok? ==> |e.rest| < |r|
    decreases |r|, 1
  {
    var q := SkipSpace(r);
    if |q| == 0 then Fail(q)
    else if q[0] == 'n' then Literal(q[1..], "ull", Null)
    else if q[0] == 'f' then Literal(q[1..], "alse", Made(ctx, Bool(false)))
    else if q[0] == 't' then Literal(q[1..], "rue", Made(ctx, Bool(true)))
    else if q[0] == '"' then
      var p := ParseString(q[1..], "");
      if p.Ok? then Ok(Made(ctx, Str(p.value)), p.rest) else Fail(p.rest)
    else if q[0] == '[' then
      var (empty, q1) := Expect(q[1..], ']');
      if empty then Ok(Made(ctx, Arr([])), q1) else ParseItems(ctx, conv, q1, [])
    else if q[0] == '{' then
      var (empty, q1) := Expect(q[1..], '}');
      if empty then Ok(Made(ctx, Obj(map[])), q1) else ParseMembers(ctx, conv, q1, map[])
    else if IsDigit(q[0]) || q[0] == '-' then
      var q1 := AfterNumber(q);
      SetNumber(ctx, conv(q[..|q| - |q1|]), q1)
    else Fail(q)
  }

  /** The items of an array up to its bracket. */
  function ParseItems<N>(ctx: Context, conv: string -> Converted<N>, r: string, acc: seq<Json<N>>): (e: Parsed<Json<N>>)
    ensures e.Ok? ==> |e.rest| < |r|
    decreases |r|, 2
  {
    match Parse(ctx, conv, r)
    case Thrown => Thrown
    case Fail(q) => Fail(q)
    case Ok(v, q) =>
      var (comma, q1) := Expect(q, ',');
      if comma then ParseItems(ctx, conv, q1, acc + [v])
      else
        var (close, q2) := Expect(q1, ']');
        if close then Ok(Made(ctx, Arr(acc + [v])), q2) else Fail(q2)
  }

  /** The members of an object up to its brace; a repeated key overwrites. */
  function ParseMembers<N>(ctx: Context, conv: string -> Converted<N>, r: string,
                           m: map<string, Json<N>>): (e: Parsed<Json<N>>)
    ensures e.Ok? ==> |e.rest| < |r|
    decreases |r|, 2
  {
    var (quote, q) := Expect(r, '"');
    if !quote then Fail(q)
    else
      match ParseString(q, "")
      case Fail(q1) => Fail(q1)
      case Ok(key, q1) =>
        var (colon, q2) := Expect(q1, ':');
        if !colon then Fail(q2)
        else
          match Parse(ctx, conv, q2)
          case Thrown => Thrown
          case Fail(q3) => Fail(q3)
          case Ok(v, q3) =>
            var (comma, q4) := Expect(q3, ',');
            if comma then ParseMembers(ctx, conv, q4, m[key := v])
            else
              var (close, q5) := Expect(q4, '}');
              if close then Ok(Made(ctx, Obj(m[key := v])), q5) else Fail(q5)
  }
}
