/** UTF-8 over bytes, strict: overlong forms, surrogates and code points past U+10FFFF are refused. */
module Utf8 {
  import opened Wrappers

  newtype Byte = b: int | 0 <= b < 256

  datatype Step = Step(c: char, rest: seq<Byte>)

  function EncodeChar(c: char): (b: seq<Byte>)
    ensures 1 <= |b| <= 4
  {
    var n := c as int;
    if n < 0x80 then [n as Byte]
    else if n < 0x800 then [(0xC0 + n / 0x40) as Byte, (0x80 + n % 0x40) as Byte]
    else if n < 0x10000 then [(0xE0 + n / 0x1000) as Byte, (0x80 + n / 0x40 % 0x40) as Byte, (0x80 + n % 0x40) as Byte]
    else [(0xF0 + n / 0x40000) as Byte, (0x80 + n / 0x1000 % 0x40) as Byte, (0x80 + n / 0x40 % 0x40) as Byte,
          (0x80 + n % 0x40) as Byte]
  }

  function Encode(s: string): seq<Byte> {
    if s == "" then [] else EncodeChar(s[0]) + Encode(s[1..])
  }

  predicate Continues(b: Byte) { 0x80 <= b < 0xC0 }

  /** The first character of a byte sequence and what follows it. */
  function DecodeChar(b: seq<Byte>): (r: Option<Step>)
    ensures r.Some? ==> |r.value.rest| < |b|
  {
    if b == [] then None
    else
      var x := b[0] as int;
      if x < 0x80 then Some(Step(x as char, b[1..]))
      else if 0xC0 <= x < 0xE0 && |b| > 1 && Continues(b[1]) then
        var n := (x - 0xC0) * 0x40 + (b[1] as int - 0x80);
        if n < 0x80 then None else Some(Step(n as char, b[2..]))
      else if 0xE0 <= x < 0xF0 && |b| > 2 && Continues(b[1]) && Continues(b[2]) then
        var n := (x - 0xE0) * 0x1000 + (b[1] as int - 0x80) * 0x40 + (b[2] as int - 0x80);
        if n < 0x800 || 0xD800 <= n < 0xE000 then None else Some(Step(n as char, b[3..]))
      else if 0xF0 <= x < 0xF8 && |b| > 3 && Continues(b[1]) && Continues(b[2]) && Continues(b[3]) then
        var n := (x - 0xF0) * 0x40000 + (b[1] as int - 0x80) * 0x1000 + (b[2] as int - 0x80) * 0x40
          + (b[3] as int - 0x80);
        if n < 0x10000 || 0x110000 <= n then None else Some(Step(n as char, b[4..]))
      else None
  }

  function Decode(b: seq<Byte>): Option<string>
    decreases |b|
  {
    if b == [] then Some("")
    else
      match DecodeChar(b)
      case None => None
      case Some(s) =>
        match Decode(s.rest)
        case None => None
        case Some(t) => Some([s.c] + t)
  }

  lemma Split(n: int)
    requires 0 <= n
    ensures n == (n / 0x40) * 0x40 + n % 0x40
    ensures n / 0x40 == (n / 0x1000) * 0x40 + n / 0x40 % 0x40
    ensures n / 0x1000 == (n / 0x40000) * 0x40 + n / 0x1000 % 0x40
  {
    assert n / 0x40 / 0x40 == n / 0x1000;
    assert n / 0x1000 / 0x40 == n / 0x40000;
  }

  lemma CharRoundTrip(c: char, rest: seq<Byte>)
    ensures DecodeChar(EncodeChar(c) + rest) == Some(Step(c, rest))
  {
    var n := c as int;
    Split(n);
    var e := EncodeChar(c);
    var b := e + rest;
    assert b[0] == e[0] && b[|e|..] == rest;
    if n >= 0x80 { assert b[1] == e[1]; }
    if n >= 0x800 { assert b[2] == e[2]; }
    if n >= 0x10000 { assert b[3] == e[3]; }
  }

  lemma {:induction false} DecodeEncode(s: string)
    ensures Decode(Encode(s)) == Some(s)
  {
    if s != "" {
      CharRoundTrip(s[0], Encode(s[1..]));
      DecodeEncode(s[1..]);
      assert [s[0]] + s[1..] == s;
    }
  }
}
