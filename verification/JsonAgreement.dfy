/** The validator (null_parse_context) against the parser that builds a value
    (default_parse_context). */
module JsonAgreement {
  import opened JsonSpec

  // ----- both contexts stop at the same place

  predicate SameStop<N>(b: Parsed<Json<N>>, c: Parsed<Json<N>>)
  {
    (b.Ok? && c.Ok? && b.rest == c.rest) || (b.Fail? && c.Fail? && b.rest == c.rest)
  }

  /** Checking never throws, and building either throws or stops where checking does. */
  predicate Agree<N>(b: Parsed<Json<N>>, c: Parsed<Json<N>>)
  {
    !c.Thrown? && (b.Thrown? || SameStop(b, c))
  }

  lemma {:induction false} ContextsAgree<N>(conv: string -> Converted<N>, r: string)
    ensures Agree(Parse(Building, conv, r), Parse(Checking, conv, r))
    decreases |r|, 1
  {
    var q := SkipSpace(r);
    if |q| > 0 && q[0] == '[' {
      var (empty, q1) := Expect(q[1..], ']');
      if !empty { ItemsAgree(conv, q1, [], []); }
    } else if |q| > 0 && q[0] == '{' {
      var (empty, q1) := Expect(q[1..], '}');
      if !empty { MembersAgree(conv, q1, map[], map[]); }
    }
  }

  lemma {:induction false} ItemsAgree<N>(conv: string -> Converted<N>, r: string, acc: seq<Json<N>>, acc': seq<Json<N>>)
    ensures Agree(ParseItems(Building, conv, r, acc), ParseItems(Checking, conv, r, acc'))
    decreases |r|, 2
  {
    ContextsAgree(conv, r);
    var b, c := Parse(Building, conv, r), Parse(Checking, conv, r);
    if b.Ok? {
      var (comma, q) := Expect(b.rest, ',');
      if comma { ItemsAgree(conv, q, acc + [b.value], acc' + [c.value]); }
    } else if b.Thrown? {
      CheckingItems(conv, r, acc');
    }
  }

  lemma {:induction false} MembersAgree<N>(conv: string -> Converted<N>, r: string, m: map<string, Json<N>>,
                                           m': map<string, Json<N>>)
    ensures Agree(ParseMembers(Building, conv, r, m), ParseMembers(Checking, conv, r, m'))
    decreases |r|, 2
  {
    var (quote, q) := Expect(r, '"');
    if quote && ParseString(q, "").Ok? {
      var Ok(key, q1) := ParseString(q, "");
      var (colon, q2) := Expect(q1, ':');
      if colon {
        ContextsAgree(conv, q2);
        var b, c := Parse(Building, conv, q2), Parse(Checking, conv, q2);
        if b.Ok? {
          var (comma, q3) := Expect(b.rest, ',');
          if comma { MembersAgree(conv, q3, m[key := b.value], m'[key := c.value]); }
        } else if b.Thrown? {
          CheckingMembers(conv, r, m');
        }
      }
    }
  }

  /** The validator never throws. */
  lemma {:induction false} CheckingItems<N>(conv: string -> Converted<N>, r: string, acc: seq<Json<N>>)
    ensures !ParseItems(Checking, conv, r, acc).Thrown?
    decreases |r|, 2
  {
    CheckingValue(conv, r);
    var c := Parse(Checking, conv, r);
    if c.Ok? {
      var (comma, q) := Expect(c.rest, ',');
      if comma { CheckingItems(conv, q, acc + [c.value]); }
    }
  }

  lemma {:induction false} CheckingMembers<N>(conv: string -> Converted<N>, r: string, m: map<string, Json<N>>)
    ensures !ParseMembers(Checking, conv, r, m).Thrown?
    decreases |r|, 2
  {
    var (quote, q) := Expect(r, '"');
    if quote && ParseString(q, "").Ok? {
      var Ok(key, q1) := ParseString(q, "");
      var (colon, q2) := Expect(q1, ':');
      if colon {
        CheckingValue(conv, q2);
        var c := Parse(Checking, conv, q2);
        if c.Ok? {
          var (comma, q3) := Expect(c.rest, ',');
          if comma { CheckingMembers(conv, q3, m[key := c.value]); }
        }
      }
    }
  }

  lemma {:induction false} CheckingValue<N>(conv: string -> Converted<N>, r: string)
    ensures !Parse(Checking, conv, r).Thrown?
    decreases |r|, 1
  {
    var q := SkipSpace(r);
    if |q| > 0 && q[0] == '[' {
      var (empty, q1) := Expect(q[1..], ']');
      if !empty { CheckingItems(conv, q1, []); }
    } else if |q| > 0 && q[0] == '{' {
      var (empty, q1) := Expect(q[1..], '}');
      if !empty { CheckingMembers(conv, q1, map[]); }
    }
  }

  // ----- building throws exactly at a number that is not finite

  /** The value behind a key and its colon, if they are there. */
  function AfterKey(r: string): (e: (bool, string))
    ensures e.0 ==> |e.1| < |r|
  {
    var (quote, q) := Expect(r, '"');
    var key := ParseString(q, "");
    if !quote || !key.Ok? then (false, q) else Expect(key.rest, ':')
  }

  /** The number tokens that the validator converts while it reads r, in order. */
  function Met<N>(conv: string -> Converted<N>, r: string): seq<string>
    decreases |r|, 1
  {
    var q := SkipSpace(r);
    if |q| == 0 then []
    else if q[0] == '[' then
      var (empty, q1) := Expect(q[1..], ']');
      if empty then [] else MetInItems(conv, q1)
    else if q[0] == '{' then
      var (empty, q1) := Expect(q[1..], '}');
      if empty then [] else MetInMembers(conv, q1)
    else if IsDigit(q[0]) || q[0] == '-' then [q[..|q| - |AfterNumber(q)|]]
    else []
  }

  function MetInItems<N>(conv: string -> Converted<N>, r: string): seq<string>
    decreases |r|, 2
  {
    var c := Parse(Checking, conv, r);
    Met(conv, r) + if c.Ok? && Expect(c.rest, ',').0 then MetInItems(conv, Expect(c.rest, ',').1) else []
  }

  function MetInMembers<N>(conv: string -> Converted<N>, r: string): seq<string>
    decreases |r|, 2
  {
    var (there, q) := AfterKey(r);
    if !there then []
    else
      var c := Parse(Checking, conv, q);
      Met(conv, q) + if c.Ok? && Expect(c.rest, ',').0 then MetInMembers(conv, Expect(c.rest, ',').1) else []
  }

  /** Some of these tokens converts to a number that is not finite. */
  predicate SomeInfinite<N(==)>(conv: string -> Converted<N>, tokens: seq<string>)
  {
    exists i :: 0 <= i < |tokens| && conv(tokens[i]) == NonFinite
  }

  lemma SomeInfiniteIn<N>(conv: string -> Converted<N>, a: seq<string>, b: seq<string>)
    ensures SomeInfinite(conv, a + b) <==> SomeInfinite(conv, a) || SomeInfinite(conv, b)
  {
    var c := a + b;
    if i :| 0 <= i < |a| && conv(a[i]) == NonFinite { assert c[i] == a[i]; }
    if i :| 0 <= i < |b| && conv(b[i]) == NonFinite { assert c[|a| + i] == b[i]; }
    if i :| 0 <= i < |c| && conv(c[i]) == NonFinite && i >= |a| { assert c[i] == b[i - |a|]; }
  }

  /** The parser throws if and only if the validator meets such a token. */
  lemma {:induction false} ThrowsIff<N>(conv: string -> Converted<N>, r: string)
    ensures Parse(Building, conv, r).Thrown? <==> SomeInfinite(conv, Met(conv, r))
    decreases |r|, 1
  {
    hide ParseItems, ParseMembers, MetInItems, MetInMembers, SkipSpace, Expect, ParseString, MatchText, AfterNumber;
    var q := SkipSpace(r);
    if |q| > 0 && q[0] == '[' {
      var (empty, q1) := Expect(q[1..], ']');
      if !empty { ItemsThrowIff(conv, q1, []); }
    } else if |q| > 0 && q[0] == '{' {
      var (empty, q1) := Expect(q[1..], '}');
      if !empty { MembersThrowIff(conv, q1, map[]); }
    } else if |q| > 0 && (IsDigit(q[0]) || q[0] == '-') {
      assert Met(conv, r)[0] == q[..|q| - |AfterNumber(q)|];
    }
  }

  lemma {:induction false} ItemsThrowIff<N>(conv: string -> Converted<N>, r: string, acc: seq<Json<N>>)
    ensures ParseItems(Building, conv, r, acc).Thrown? <==> SomeInfinite(conv, MetInItems(conv, r))
    decreases |r|, 2
  {
    hide Parse, Met, Expect, SomeInfinite;
    ThrowsIff(conv, r);
    ContextsAgree(conv, r);
    var b := Parse(Building, conv, r);
    var c := Parse(Checking, conv, r);
    var more := if c.Ok? && Expect(c.rest, ',').0 then MetInItems(conv, Expect(c.rest, ',').1) else [];
    SomeInfiniteIn(conv, Met(conv, r), more);
    if b.Ok? && Expect(b.rest, ',').0 {
      ItemsThrowIff(conv, Expect(b.rest, ',').1, acc + [b.value]);
    } else {
      NoneInfinite(conv);
    }
  }

  lemma {:induction false} MembersThrowIff<N>(conv: string -> Converted<N>, r: string, m: map<string, Json<N>>)
    ensures ParseMembers(Building, conv, r, m).Thrown? <==> SomeInfinite(conv, MetInMembers(conv, r))
    decreases |r|, 2
  {
    hide Parse, Met, Expect, SomeInfinite, ParseString;
    NoneInfinite(conv);
    var (there, q) := AfterKey(r);
    if there {
      ThrowsIff(conv, q);
      ContextsAgree(conv, q);
      var b, c := Parse(Building, conv, q), Parse(Checking, conv, q);
      var more := if c.Ok? && Expect(c.rest, ',').0 then MetInMembers(conv, Expect(c.rest, ',').1) else [];
      SomeInfiniteIn(conv, Met(conv, q), more);
      if b.Ok? && Expect(b.rest, ',').0 {
        var key := ParseString(Expect(r, '"').1, "").value;
        MembersThrowIff(conv, Expect(b.rest, ',').1, m[key := b.value]);
      }
    }
  }

  lemma NoneInfinite<N>(conv: string -> Converted<N>)
    ensures !SomeInfinite(conv, [])
  {}

  /** The validator and the parser succeed on the same inputs and stop at the same place if and
      only if every number token met converts to a finite value, or to none. */
  lemma ValidatorIsParser<N>(conv: string -> Converted<N>, r: string)
    ensures SameStop(Parse(Building, conv, r), Parse(Checking, conv, r)) <==> !SomeInfinite(conv, Met(conv, r))
  {
    hide Parse, Met, SomeInfinite;
    ContextsAgree(conv, r);
    ThrowsIff(conv, r);
  }

  /** A conversion that overflows where strtod does, on 1e999. */
  function Overflowing(x: string): Converted<int>
  {
    if x == "1e999" then NonFinite else Finite(0)
  }

  /** An overflowing number is accepted by the validator only. */
  lemma OverflowSplits()
    ensures Parse(Building, Overflowing, "1e999") == Thrown && Parse(Checking, Overflowing, "1e999") == Ok(Null, "")
  {
    var r := "1e999";
    assert SkipSpace(r) == r;
    AllNumber(r);
    assert r[..|r| - |AfterNumber(r)|] == r;
  }

  lemma {:induction false} AllNumber(r: string)
    requires forall i :: 0 <= i < |r| ==> IsNumberChar(r[i])
    ensures AfterNumber(r) == ""
  {
    if |r| > 0 { AllNumber(r[1..]); }
  }
}
