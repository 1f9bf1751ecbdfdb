/** A list's opaque cursor (besdk/lists.py, next and the reading part of resume): compact ASCII JSON in base64url
    without padding (section 5 of RFC 4648), bound to the digests of the filter and of the plan. */
module Cursor {
  import opened Wrappers
  import opened Json
  import Utf8

  // ----- base64url -----

  function Symbol(n: nat): char
    requires n < 64
  {
    if n < 26 then 'A' + n as char
    else if n < 52 then 'a' + (n - 26) as char
    else if n < 62 then '0' + (n - 52) as char
    else if n == 62 then '-' else '_'
  }

  function SymbolValue(c: char): Option<nat> {
    if 'A' <= c <= 'Z' then Some(c as int - 'A' as int)
    else if 'a' <= c <= 'z' then Some(c as int - 'a' as int + 26)
    else if '0' <= c <= '9' then Some(c as int - '0' as int + 52)
    else if c == '-' then Some(62) else if c == '_' then Some(63) else None
  }

  function Base64(b: seq<Utf8.Byte>): string {
    if b == [] then ""
    else
      var x := b[0] as int;
      if |b| == 1 then [Symbol(x / 4), Symbol(x % 4 * 16)]
      else
        var y := b[1] as int;
        if |b| == 2 then [Symbol(x / 4), Symbol(x % 4 * 16 + y / 16), Symbol(y % 16 * 4)]
        else
          var z := b[2] as int;
          [Symbol(x / 4), Symbol(x % 4 * 16 + y / 16), Symbol(y % 16 * 4 + z / 64), Symbol(z % 64)] + Base64(b[3..])
  }

  function Unbase64(s: string): Option<seq<Utf8.Byte>> {
    if s == "" then Some([])
    else if |s| == 1 then None
    else
      match (SymbolValue(s[0]), SymbolValue(s[1]))
      case (Some(p), Some(q)) =>
        var x := (p * 4 + q / 16) as Utf8.Byte;
        if |s| == 2 then Some([x])
        else
          (match SymbolValue(s[2])
           case None => None
           case Some(r) =>
             var y := (q % 16 * 16 + r / 4) as Utf8.Byte;
             if |s| == 3 then Some([x, y])
             else
               match (SymbolValue(s[3]), Unbase64(s[4..]))
               case (Some(t), Some(rest)) => Some([x, y, (r % 4 * 64 + t) as Utf8.Byte] + rest)
               case _ => None)
      case _ => None
  }

  lemma SymbolRoundTrip(n: nat)
    requires n < 64
    ensures SymbolValue(Symbol(n)) == Some(n)
  {}

  lemma Bits(x: nat, y: nat, z: nat)
    requires x < 256 && y < 256 && z < 256
    ensures x / 4 * 4 + (x % 4 * 16) / 16 == x
    ensures (x % 4 * 16 + y / 16) / 16 == x % 4 && (x % 4 * 16 + y / 16) % 16 == y / 16
    ensures (y % 16 * 4 + z / 64) / 4 == y % 16 && (y % 16 * 4 + z / 64) % 4 == z / 64
    ensures y / 16 * 16 + y % 16 == y && z / 64 * 64 + z % 64 == z && x / 4 * 4 + x % 4 == x
  {}

  lemma OneByte(x: nat)
    requires x < 256
    ensures Unbase64([Symbol(x / 4), Symbol(x % 4 * 16)]) == Some([x as Utf8.Byte])
  {
    Bits(x, 0, 0);
    SymbolRoundTrip(x / 4);
    SymbolRoundTrip(x % 4 * 16);
  }

  lemma TwoBytes(x: nat, y: nat)
    requires x < 256 && y < 256
    ensures Unbase64([Symbol(x / 4), Symbol(x % 4 * 16 + y / 16), Symbol(y % 16 * 4)]) ==
      Some([x as Utf8.Byte, y as Utf8.Byte])
  {
    Bits(x, y, 0);
    SymbolRoundTrip(x / 4);
    SymbolRoundTrip(x % 4 * 16 + y / 16);
    SymbolRoundTrip(y % 16 * 4);
  }

  /** Four symbols carry three bytes. */
  lemma BlockRoundTrip(x: nat, y: nat, z: nat, rest: string)
    requires x < 256 && y < 256 && z < 256 && Unbase64(rest).Some?
    ensures
      Unbase64([Symbol(x / 4), Symbol(x % 4 * 16 + y / 16), Symbol(y % 16 * 4 + z / 64), Symbol(z % 64)] + rest) ==
      Some([x as Utf8.Byte, y as Utf8.Byte, z as Utf8.Byte] + Unbase64(rest).value)
  {
    var s := [Symbol(x / 4), Symbol(x % 4 * 16 + y / 16), Symbol(y % 16 * 4 + z / 64), Symbol(z % 64)] + rest;
    Bits(x, y, z);
    SymbolRoundTrip(x / 4);
    SymbolRoundTrip(x % 4 * 16 + y / 16);
    SymbolRoundTrip(y % 16 * 4 + z / 64);
    SymbolRoundTrip(z % 64);
    assert s[4..] == rest;
  }

  /** Decoding gives back the bytes, whatever their number. */
  lemma {:induction false} Base64RoundTrip(b: seq<Utf8.Byte>)
    ensures Unbase64(Base64(b)) == Some(b)
  {
    if |b| == 1 {
      OneByte(b[0] as int);
      assert [b[0]] == b;
    } else if |b| == 2 {
      TwoBytes(b[0] as int, b[1] as int);
      assert [b[0], b[1]] == b;
    } else if |b| > 2 {
      Base64RoundTrip(b[3..]);
      BlockRoundTrip(b[0] as int, b[1] as int, b[2] as int, Base64(b[3..]));
      assert [b[0], b[1], b[2]] + b[3..] == b;
    }
  }

  // ----- ASCII JSON -----

  /** json.dumps escapes everything outside printable ASCII; a character past U+FFFF becomes a surrogate pair. */
  function AsciiEsc(c: char): string {
    var n := c as int;
    match ShortEscape(c)
    case Some(e) => ['\\', e]
    case None =>
      if ' ' <= c <= '~' then [c]
      else if n < 0x10000 then ['\\', 'u'] + Hex4(n)
      else (['\\', 'u'] + Hex4(0xD800 + (n - 0x10000) / 0x400)) + (['\\', 'u'] + Hex4(0xDC00 + (n - 0x10000) % 0x400))
  }

  lemma UnicodeEscape(n: nat, rest: string)
    requires n < 0x10000
    ensures var s := (['\\', 'u'] + Hex4(n)) + rest;
      s[0] == '\\' && s[1] == 'u' && |s| >= 6 && ReadHex4(s[2..]) == Some(n) && s[6..] == rest
  {
    var s := (['\\', 'u'] + Hex4(n)) + rest;
    HexRoundTrip(n, rest);
    assert s[2..] == Hex4(n) + rest;
  }

  /** A character past U+FFFF as its two surrogates. */
  lemma Surrogates(n: nat)
    requires 0x10000 <= n < 0x110000
    ensures 0xD800 <= 0xD800 + (n - 0x10000) / 0x400 < 0xDC00
    ensures 0xDC00 <= 0xDC00 + (n - 0x10000) % 0x400 < 0xE000
    ensures 0x10000 + ((n - 0x10000) / 0x400) * 0x400 + (n - 0x10000) % 0x400 == n
  {}

  lemma HighReads(high: nat, tail: string)
    requires 0xD800 <= high < 0xDC00
    ensures ReadChar((['\\', 'u'] + Hex4(high)) + tail) == ReadLow(high, tail)
  {
    UnicodeEscape(high, tail);
  }

  lemma LowReads(high: nat, low: nat, rest: string)
    requires 0xD800 <= high < 0xDC00 && 0xDC00 <= low < 0xE000
    ensures ReadLow(high, (['\\', 'u'] + Hex4(low)) + rest) ==
      Some(ReadOne((0x10000 + (high - 0xD800) * 0x400 + (low - 0xDC00)) as char, rest))
  {
    UnicodeEscape(low, rest);
  }

  lemma PairOf(esc: char -> string, c: char, high: nat, low: nat, rest: string)
    requires 0xD800 <= high < 0xDC00 && 0xDC00 <= low < 0xE000
    requires 0x10000 + (high - 0xD800) * 0x400 + (low - 0xDC00) == c as int
    requires esc(c) == (['\\', 'u'] + Hex4(high)) + (['\\', 'u'] + Hex4(low))
    ensures ReadsBack(esc, c, rest)
  {
    var tail := (['\\', 'u'] + Hex4(low)) + rest;
    assert esc(c) + rest == (['\\', 'u'] + Hex4(high)) + tail;
    HighReads(high, tail);
    LowReads(high, low, rest);
  }

  lemma PairReads(c: char, rest: string)
    requires c as int >= 0x10000
    ensures ReadsBack(AsciiEsc, c, rest)
  {
    var n := c as int;
    Surrogates(n);
    PairOf(AsciiEsc, c, 0xD800 + (n - 0x10000) / 0x400, 0xDC00 + (n - 0x10000) % 0x400, rest);
  }

  lemma AsciiReadable()
    ensures Readable(AsciiEsc)
  {
    forall c: char, rest: string ensures ReadsBack(AsciiEsc, c, rest) {
      var s := AsciiEsc(c) + rest;
      if ShortEscape(c).Some? {
        assert s[2..] == rest;
      } else if ' ' <= c <= '~' {
        assert s[1..] == rest;
      } else if c as int < 0x10000 {
        UnicodeEscape(c as int, rest);
      } else {
        PairReads(c, rest);
      }
    }
  }

  // ----- the cursor -----

  datatype Data = Data(keys: seq<string>, id: string, filter: string, plan: string)

  datatype Refusal = CursorInvalid | QueryPlanChanged

  function Texts(keys: seq<string>): (es: seq<Value>)
    ensures |es| == |keys| && forall i :: 0 <= i < |keys| ==> es[i] == Str(keys[i])
  {
    if keys == [] then [] else [Str(keys[0])] + Texts(keys[1..])
  }

  function Body(d: Data): Value {
    Obj([Field("v", Int(1)), Field("k", Arr(Texts(d.keys))), Field("id", Str(d.id)), Field("f", Str(d.filter)),
         Field("p", Str(d.plan))])
  }

  /** Query.next: the cursor text. */
  function Token(d: Data): string { Base64(Utf8.Encode(Print(AsciiEsc, Body(d)))) }

  /** A dictionary's value: the last one read for a key. */
  function Get(fs: seq<Field>, key: string): Option<Value> {
    if fs == [] then None
    else if fs[|fs| - 1].key == key then Some(fs[|fs| - 1].value)
    else Get(fs[..|fs| - 1], key)
  }

  function Strings(es: seq<Value>): (r: Option<seq<string>>)
    ensures r.Some? ==> |r.value| == |es|
  {
    if es == [] then Some([])
    else
      match (es[0], Strings(es[1..]))
      case (Str(s), Some(rest)) => Some([s] + rest)
      case _ => None
  }

  /** The value a cursor's text holds. */
  function Decoded(raw: string): Option<Value> {
    match Unbase64(raw)
    case None => None
    case Some(b) =>
      match Utf8.Decode(b)
      case None => None
      case Some(text) => Read(text)
  }

  /** The checks of resume, in their order: readable with n sort values, the same filter, the same plan. */
  function Open(raw: string, n: nat, filter: string, plan: string): (r: Result<Data, Refusal>)
    ensures r.Ok? ==> |r.value.keys| == n && r.value.filter == filter && r.value.plan == plan
  {
    match Decoded(raw)
    case Some(Obj(fs)) =>
      (match (Get(fs, "v"), Get(fs, "k"), Get(fs, "id"))
       case (Some(v), Some(Arr(es)), Some(Str(id))) =>
         if (v != Int(1) && v != Bool(true)) || |es| != n || Strings(es).None? then Err(CursorInvalid)
         else if Get(fs, "f") != Some(Str(filter)) then Err(CursorInvalid)
         else if Get(fs, "p") != Some(Str(plan)) then Err(QueryPlanChanged)
         else Ok(Data(Strings(es).value, id, filter, plan))
       case _ => Err(CursorInvalid))
    case _ => Err(CursorInvalid)
  }

  predicate AllTexts(es: seq<Value>) { forall i :: 0 <= i < |es| ==> es[i].Str? }

  lemma {:induction false} StringsExactly(es: seq<Value>)
    ensures Strings(es).Some? <==> AllTexts(es)
    ensures Strings(es).Some? ==> forall i :: 0 <= i < |es| ==> es[i] == Str(Strings(es).value[i])
  {
    if es != [] {
      StringsExactly(es[1..]);
      assert AllTexts(es) <==> es[0].Str? && AllTexts(es[1..]) by {
        assert forall i :: 0 < i < |es| ==> es[i] == es[1..][i - 1];
      }
    }
  }

  /** A cursor text is accepted exactly when it holds an object of version 1 with as many sort values as the list has
      keys, all of them texts, an ID, and the digests of this filter and this plan; it then stands for those values. */
  lemma OpensExactly(raw: string, n: nat, filter: string, plan: string)
    ensures Open(raw, n, filter, plan).Ok? <==>
      match Decoded(raw)
      case Some(Obj(fs)) =>
        && (Get(fs, "v") == Some(Int(1)) || Get(fs, "v") == Some(Bool(true)))
        && (match Get(fs, "k") case Some(Arr(es)) => |es| == n && AllTexts(es) case _ => false)
        && (match Get(fs, "id") case Some(Str(_)) => true case _ => false)
        && Get(fs, "f") == Some(Str(filter)) && Get(fs, "p") == Some(Str(plan))
      case _ => false
    ensures Open(raw, n, filter, plan).Ok? ==>
      var d, fs := Open(raw, n, filter, plan).value, Decoded(raw).value.fs;
      Get(fs, "k") == Some(Arr(Texts(d.keys))) && Get(fs, "id") == Some(Str(d.id))
  {
    var v := Decoded(raw);
    if v.Some? && v.value.Obj? {
      var k := Get(v.value.fs, "k");
      if k.Some? && k.value.Arr? {
        StringsExactly(k.value.es);
        if Strings(k.value.es).Some? { assert Texts(Strings(k.value.es).value) == k.value.es; }
      }
    }
  }

  lemma StringsTexts(keys: seq<string>)
    ensures Strings(Texts(keys)) == Some(keys)
  {
    StringsExactly(Texts(keys));
    assert Strings(Texts(keys)).value == keys;
  }

  lemma BodyGets(d: Data)
    ensures var fs := Body(d).fs;
      && Get(fs, "v") == Some(Int(1)) && Get(fs, "k") == Some(Arr(Texts(d.keys))) && Get(fs, "id") == Some(Str(d.id))
      && Get(fs, "f") == Some(Str(d.filter)) && Get(fs, "p") == Some(Str(d.plan))
  {
    var fs := Body(d).fs;
    assert fs[..4][..3] == fs[..3] && fs[..3][..2] == fs[..2] && fs[..2][..1] == fs[..1];
    assert Get(fs, "f") == Get(fs[..4], "f");
    assert Get(fs, "id") == Get(fs[..4], "id") == Get(fs[..3], "id");
    assert Get(fs, "k") == Get(fs[..4], "k") == Get(fs[..3], "k") == Get(fs[..2], "k");
    assert Get(fs, "v") == Get(fs[..4], "v") == Get(fs[..3], "v") == Get(fs[..2], "v") == Get(fs[..1], "v");
  }

  lemma DecodedText(v: Value)
    requires NoFloat(v)
    ensures Decoded(Base64(Utf8.Encode(Print(AsciiEsc, v)))) == Some(v)
  {
    Base64RoundTrip(Utf8.Encode(Print(AsciiEsc, v)));
    Utf8.DecodeEncode(Print(AsciiEsc, v));
    AsciiReadable();
    ReadPrint(AsciiEsc, v);
  }

  lemma BodyNoFloat(d: Data)
    ensures NoFloat(Body(d))
  {
    assert NoFloat(Arr(Texts(d.keys)));
  }

  lemma DecodedToken(d: Data)
    ensures Decoded(Token(d)) == Some(Body(d))
  {
    BodyNoFloat(d);
    DecodedText(Body(d));
  }

  /** A cursor opens to exactly what it was made of, and only under the digests it was made with. */
  lemma CursorRoundTrip(d: Data, filter: string, plan: string)
    ensures Open(Token(d), |d.keys|, filter, plan) ==
      if d.filter != filter then Err(CursorInvalid)
      else if d.plan != plan then Err(QueryPlanChanged)
      else Ok(d)
  {
    DecodedToken(d);
    BodyGets(d);
    StringsTexts(d.keys);
  }

  /** A cursor is never the empty text, which means the first page. */
  lemma TokenNotEmpty(d: Data)
    ensures Token(d) != ""
  {
    DecodedToken(d);
    assert Unbase64("") == Some([]);
    assert Utf8.Decode([]) == Some("");
    assert Read("").None?;
  }
}
