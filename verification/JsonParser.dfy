/** The recursive-descent parser of picojson over its input, proved against the grammar
    of JsonSpec. The templates take a parse context; a context here says whether
    values are built or only checked. */
module JsonParser {
  import opened JsonSpec
  import opened JsonInput

  /** How a parse ends. */
  datatype Status = Succeeded | Failed | Threw

  ghost predicate Delivers<T>(spec: Parsed<T>, st: Status, v: T, rest: string)
  {
    match spec
    case Ok(w, r) => st == Succeeded && v == w && rest == r
    case Fail(r) => st == Failed && rest == r
    case Thrown => st == Threw
  }

  /** _parse_codepoint: the bytes of one escaped code point. */
  method ParseCodePoint(input: Input) returns (ok: bool, out: string)
    requires input.Valid()
    modifies input
    ensures input.Valid()
    ensures Delivers(CodePoint(old(input.Rest())), if ok then Succeeded else Failed, out, input.Rest())
  {
    hide QuadHex, Utf8;
    out := "";
    var u := input.ParseQuadHex();
    if u == -1 {
      return false, out;
    }
    if 0xd800 <= u <= 0xdfff {
      if 0xdc00 <= u {
        return false, out;
      }
      var pair := input.Match("\\u"); // two getc calls, and an ungetc at the first mismatch
      if !pair {
        return false, out;
      }
      var second := input.ParseQuadHex();
      if !(0xdc00 <= second <= 0xdfff) {
        return false, out;
      }
      u := (u - 0xd800) * 1024 + (second - 0xdc00);
      u := u + 0x10000;
    }
    out := EncodeUtf8(u);
    ok := true;
  }

  /** The push_back chain that writes a code point as UTF-8. */
  method EncodeUtf8(u: nat) returns (out: string)
    requires u < 0x110000
    ensures out == Utf8(u)
  {
    out := "";
    if u < 0x80 {
      out := out + [u as char];
    } else {
      if u < 0x800 {
        out := out + [(0xc0 + u / 64) as char];
      } else {
        if u < 0x10000 {
          out := out + [(0xe0 + u / 4096) as char];
        } else {
          out := out + [(0xf0 + u / 262144) as char];
          out := out + [(0x80 + u / 4096 % 64) as char];
        }
        out := out + [(0x80 + u / 64 % 64) as char];
      }
      out := out + [(0x80 + u % 64) as char];
    }
  }

  /** _parse_string, after the opening quote. */
  method ParseStringBody(input: Input) returns (ok: bool, out: string)
    requires input.Valid()
    modifies input
    ensures input.Valid()
    ensures Delivers(ParseString(old(input.Rest()), ""), if ok then Succeeded else Failed, out, input.Rest())
  {
    hide CodePoint;
    out := "";
    while true
      invariant input.Valid()
      invariant ParseString(input.Rest(), out) == ParseString(old(input.Rest()), "")
      decreases |input.Rest()|
    {
      ghost var r := input.Rest();
      var ch := input.Getc();
      if ch < ' ' as int {
        input.Ungetc();
        return false, out;
      } else if ch == '"' as int {
        return true, out;
      } else if ch == '\\' as int {
        ch := input.Getc();
        if ch == -1 {
          return false, out;
        }
        var simple := SimpleEscape(ch as char);
        if |simple| > 0 {
          out := out + simple;
        } else if ch == 'u' as int {
          assert input.Rest() == r[2..];
          var good, bytes := ParseCodePoint(input);
          if !good {
            return false, out;
          }
          out := out + bytes;
        } else {
          return false, out;
        }
        assert r[1..][1..] == r[2..];
      } else {
        out := out + [ch as char];
      }
    }
  }

  /** _parse_number: the longest run of number characters. */
  method ParseNumberToken(input: Input) returns (token: string)
    requires input.Valid()
    modifies input
    ensures input.Valid() && input.Rest() == AfterNumber(old(input.Rest()))
    ensures token == old(input.Rest())[..|old(input.Rest())| - |input.Rest()|]
  {
    hide AfterNumber;
    token := "";
    ghost var r0 := input.Rest();
    while true
      invariant input.Valid() && AfterNumber(input.Rest()) == AfterNumber(r0)
      invariant r0 == token + input.Rest()
      decreases |input.Rest()|
    {
      ghost var r := input.Rest();
      NumberStep(r, token);
      var ch := input.Getc();
      if '0' as int <= ch <= '9' as int || ch == '+' as int || ch == '-' as int || ch == 'e' as int || ch == 'E' as int
         || ch == '.' as int {
        token := token + [ch as char];
      } else {
        input.Ungetc();
        break;
      }
    }
  }

  lemma NumberStep(r: string, token: string)
    ensures if |r| > 0 && IsNumberChar(r[0]) then AfterNumber(r) == AfterNumber(r[1..]) else AfterNumber(r) == r
    ensures |r| > 0 ==> token + r == token + [r[0]] + r[1..]
  {
    if |r| > 0 { MoveFirst(token, r); }
  }

  lemma MoveFirst(token: string, r: string)
    requires |r| > 0
    ensures token + r == token + [r[0]] + r[1..]
  {
    hide *;
    var a, b := [r[0]], r[1..];
    assert r == a + b;
    assert token + (a + b) == token + a + b;
  }

  /** The number branch of _parse. */
  method ParseNumber<N>(ctx: Context, conv: string -> Converted<N>, input: Input) returns (st: Status, v: Json<N>)
    requires input.Valid()
    modifies input
    ensures input.Valid()
    ensures var q := old(input.Rest()); var q1 := AfterNumber(q);
            Delivers(SetNumber(ctx, conv(q[..|q| - |q1|]), q1), st, v, input.Rest())
  {
    hide AfterNumber;
    var token := ParseNumberToken(input);
    v := Null;
    match conv(token) {
      case NotANumber => st := Failed;
      case NonFinite => st := if ctx.Building? then Threw else Succeeded;
      case Finite(n) => st, v := Succeeded, Made(ctx, Number(n));
    }
  }

  method ParseLiteral<N>(input: Input, text: string, v: Json<N>) returns (st: Status, w: Json<N>)
    requires input.Valid()
    modifies input
    ensures input.Valid() && Delivers(Literal(old(input.Rest()), text, v), st, w, input.Rest())
  {
    var found := input.Match(text);
    st, w := if found then Succeeded else Failed, v;
  }

  /** What the first character after white space decides. */
  lemma ParseByFirst<N>(ctx: Context, conv: string -> Converted<N>, r: string)
    ensures var q, e := SkipSpace(r), Parse(ctx, conv, r);
            if |q| == 0 then e == Fail(q)
            else if q[0] == 'n' then e == Literal(q[1..], "ull", Null)
            else if q[0] == 'f' then e == Literal(q[1..], "alse", Made(ctx, Bool(false)))
            else if q[0] == 't' then e == Literal(q[1..], "rue", Made(ctx, Bool(true)))
            else if q[0] == '"' then
              var p := ParseString(q[1..], "");
              e == if p.Ok? then Ok(Made(ctx, Str(p.value)), p.rest) else Fail(p.rest)
            else if q[0] == '[' then
              var (empty, q1) := Expect(q[1..], ']');
              e == if empty then Ok(Made(ctx, Arr([])), q1) else ParseItems(ctx, conv, q1, [])
            else if q[0] == '{' then
              var (empty, q1) := Expect(q[1..], '}');
              e == if empty then Ok(Made(ctx, Obj(map[])), q1) else ParseMembers(ctx, conv, q1, map[])
            else if IsDigit(q[0]) || q[0] == '-' then
              var q1 := AfterNumber(q);
              e == SetNumber(ctx, conv(q[..|q| - |q1|]), q1)
            else e == Fail(q)
  {}

  /** _parse: one value. The conversion of number tokens is a parameter. */
  method ParseValue<N>(ctx: Context, conv: string -> Converted<N>, input: Input) returns (st: Status, v: Json<N>)
    requires input.Valid()
    modifies input
    ensures input.Valid() && Delivers(Parse(ctx, conv, old(input.Rest())), st, v, input.Rest())
    decreases |input.Rest()|, 1
  {
    hide Parse, ParseString, ParseItems, ParseMembers, Expect, Literal, SkipSpace, AfterNumber, SetNumber, Made;
    ParseByFirst(ctx, conv, input.Rest());
    input.SkipWs();
    ghost var q := input.Rest();
    var ch := input.Getc();
    assert |q| > 0 ==> q[0] as int == ch && q[1..] == input.Rest();
    if ch == 'n' as int {
      st, v := ParseLiteral(input, "ull", Null);
    } else if ch == 'f' as int {
      st, v := ParseLiteral(input, "alse", Made(ctx, Bool(false)));
    } else if ch == 't' as int {
      st, v := ParseLiteral(input, "rue", Made(ctx, Bool(true)));
    } else if ch == '"' as int {
      var ok, s := ParseStringBody(input);
      st, v := if ok then Succeeded else Failed, Made(ctx, Str(s));
    } else if ch == '[' as int {
      st, v := ParseArray(ctx, conv, input);
    } else if ch == '{' as int {
      st, v := ParseObject(ctx, conv, input);
    } else if '0' as int <= ch <= '9' as int || ch == '-' as int {
      input.Ungetc();
      st, v := ParseNumber(ctx, conv, input);
    } else {
      input.Ungetc();
      st, v := Failed, Null;
    }
  }

  /** _parse_array, after the opening bracket. */
  method ParseArray<N>(ctx: Context, conv: string -> Converted<N>, input: Input) returns (st: Status, v: Json<N>)
    requires input.Valid()
    modifies input
    ensures input.Valid()
    ensures var (empty, q) := Expect(old(input.Rest()), ']');
            Delivers(if empty then Ok(Made(ctx, Arr([])), q) else ParseItems(ctx, conv, q, []), st, v, input.Rest())
    decreases |input.Rest()|, 3
  {
    hide Expect, Parse;
    v := Null;
    var empty := input.ExpectChar(']');
    if empty {
      return Succeeded, Made(ctx, Arr([]));
    }
    ghost var q := input.Rest();
    var items: seq<Json<N>> := [];
    var more := true;
    while more
      invariant input.Valid() && |input.Rest()| <= |q|
      invariant more ==> ParseItems(ctx, conv, input.Rest(), items) == ParseItems(ctx, conv, q, [])
      invariant !more ==> ParseItems(ctx, conv, q, []) ==
                            var (close, q2) := Expect(input.Rest(), ']');
                            if close then Ok(Made(ctx, Arr(items)), q2) else Fail(q2)
      decreases more, |input.Rest()|
    {
      var item;
      st, item := ParseValue(ctx, conv, input);
      if st != Succeeded {
        return;
      }
      items := items + [item];
      more := input.ExpectChar(',');
    }
    var close := input.ExpectChar(']');
    st, v := if close then Succeeded else Failed, Made(ctx, Arr(items));
  }

  /** _parse_object, after the opening brace. */
  method ParseObject<N>(ctx: Context, conv: string -> Converted<N>, input: Input) returns (st: Status, v: Json<N>)
    requires input.Valid()
    modifies input
    ensures input.Valid()
    ensures var (empty, q) := Expect(old(input.Rest()), '}');
            Delivers(if empty then Ok(Made(ctx, Obj(map[])), q) else ParseMembers(ctx, conv, q, map[]),
                     st, v, input.Rest())
    decreases |input.Rest()|, 3
  {
    hide Expect, Parse, ParseString;
    v := Null;
    var empty := input.ExpectChar('}');
    if empty {
      return Succeeded, Made(ctx, Obj(map[]));
    }
    ghost var q := input.Rest();
    var members: map<string, Json<N>> := map[];
    var more := true;
    while more
      invariant input.Valid() && |input.Rest()| <= |q|
      invariant more ==> ParseMembers(ctx, conv, input.Rest(), members) == ParseMembers(ctx, conv, q, map[])
      invariant !more ==> ParseMembers(ctx, conv, q, map[]) ==
                            var (close, q2) := Expect(input.Rest(), '}');
                            if close then Ok(Made(ctx, Obj(members)), q2) else Fail(q2)
      decreases more, |input.Rest()|
    {
      var quote := input.ExpectChar('"');
      if !quote {
        return Failed, v;
      }
      var ok, key := ParseStringBody(input);
      if !ok {
        return Failed, v;
      }
      var colon := input.ExpectChar(':');
      if !colon {
        return Failed, v;
      }
      var value;
      st, value := ParseValue(ctx, conv, input);
      if st != Succeeded {
        return;
      }
      members := members[key := value];
      more := input.ExpectChar(',');
    }
    var close := input.ExpectChar('}');
    st, v := if close then Succeeded else Failed, Made(ctx, Obj(members));
  }
}
