/** picojson's input: a cursor with one character of push-back and a line count, and the
    readers of white space, fixed text and four hexadecimal digits on it. */
module JsonInput {
  import opened JsonSpec

  function Newlines(s: string): nat
  {
    if |s| == 0 then 0 else Newlines(s[..|s| - 1]) + (if s[|s| - 1] == '\n' then 1 else 0)
  }

  class Input {
    const text: string
    var cur: nat
    var consumed: bool
    var line: nat

    ghost predicate Valid()
      reads this
    {
      && cur + (if consumed then 1 else 0) <= |text|
      && line == 1 + Newlines(text[..cur])
    }

    /** What is still to be read. */
    ghost function Rest(): string
      reads this
      requires Valid()
    {
      text[cur + (if consumed then 1 else 0)..]
    }

    constructor (text: string)
      ensures Valid() && this.text == text && Rest() == text && line == 1
    {
      this.text, cur, consumed, line := text, 0, false, 1;
    }

    /** The next character, or -1 at the end. The line counts the new lines passed. */
    method Getc() returns (ch: int)
      requires Valid()
      modifies this
      ensures Valid()
      ensures old(Rest()) == [] ==> ch == -1 && Rest() == [] && !consumed
      ensures old(Rest()) != [] ==> ch == old(Rest())[0] as int && Rest() == old(Rest())[1..] && consumed
      ensures text[cur..] == old(Rest())
    {
      if consumed {
        assert text[..cur + 1][..cur] == text[..cur];
        if text[cur] == '\n' {
          line := line + 1;
        }
        cur := cur + 1;
      }
      if cur == |text| {
        consumed := false;
        return -1;
      }
      consumed := true;
      ch := text[cur] as int;
    }

    /** Give the last character back. */
    method Ungetc()
      requires Valid()
      modifies this
      ensures Valid() && cur == old(cur) && Rest() == text[cur..]
    {
      consumed := false;
    }

    method SkipWs()
      requires Valid()
      modifies this
      ensures Valid() && Rest() == SkipSpace(old(Rest()))
    {
      while true
        invariant Valid() && SkipSpace(Rest()) == SkipSpace(old(Rest()))
        decreases |Rest()|
      {
        var ch := Getc();
        if !(ch == ' ' as int || ch == '\t' as int || ch == '\n' as int || ch == '\r' as int) {
          Ungetc();
          break;
        }
      }
    }

    method ExpectChar(expected: char) returns (found: bool)
      requires Valid()
      modifies this
      ensures Valid() && (found, Rest()) == Expect(old(Rest()), expected)
    {
      SkipWs();
      var ch := Getc();
      if ch != expected as int {
        Ungetc();
        return false;
      }
      return true;
    }

    method Match(pattern: string) returns (found: bool)
      requires Valid()
      modifies this
      ensures Valid() && (found, Rest()) == MatchText(old(Rest()), pattern)
    {
      var i := 0;
      while i < |pattern|
        invariant Valid() && 0 <= i <= |pattern|
        invariant MatchText(Rest(), pattern[i..]) == MatchText(old(Rest()), pattern)
      {
        var ch := Getc();
        if ch != pattern[i] as int {
          Ungetc();
          return false;
        }
        assert pattern[i..][1..] == pattern[i + 1..];
        i := i + 1;
      }
      return true;
    }

    /** _parse_quadhex: four hex digits, or -1. */
    method ParseQuadHex() returns (u: int)
      requires Valid()
      modifies this
      ensures Valid() && (u, Rest()) == QuadHex(old(Rest()), 4, 0)
    {
      hide QuadHex, HexCap;
      u := 0;
      var i := 0;
      HexStart();
      while i < 4
        invariant Valid() && 0 <= i <= 4 && 0 <= u < HexCap(4 - i)
        invariant QuadHex(Rest(), 4 - i, u) == QuadHex(old(Rest()), 4, 0)
      {
        HexStep(Rest(), 4 - i, u);
        var hex := Getc();
        if hex == -1 {
          return -1;
        }
        if '0' as int <= hex <= '9' as int {
          hex := hex - '0' as int;
        } else if 'A' as int <= hex <= 'F' as int {
          hex := hex - ('A' as int - 10);
        } else if 'a' as int <= hex <= 'f' as int {
          hex := hex - ('a' as int - 10);
        } else {
          Ungetc();
          return -1;
        }
        u := u * 16 + hex;
        i := i + 1;
      }
      HexEnd(Rest(), u);
    }
  }

  lemma HexStart()
    ensures 0 < HexCap(4)
  {
    assert HexCap(2) == 256;
  }

  lemma HexStep(r: string, n: nat, acc: nat)
    requires 0 < n <= 4 && acc < HexCap(n)
    ensures |r| > 0 && HexValue(r[0]) >= 0 ==>
              var u := acc * 16 + HexValue(r[0]); u < HexCap(n - 1) && QuadHex(r, n, acc) == QuadHex(r[1..], n - 1, u)
    ensures |r| == 0 || HexValue(r[0]) == -1 ==> QuadHex(r, n, acc) == (-1, r)
  {}

  lemma HexEnd(r: string, acc: nat)
    requires acc < HexCap(0)
    ensures QuadHex(r, 0, acc) == (acc, r)
  {}
}
