/** The form of canonical text: which of all JSON texts of a value it is (besdk/canon.py; sections 3.2.2.2 and 3.2.3 of
    RFC 8785). */
module CanonForm {
  import opened Wrappers
  import opened Json
  import opened Canon

  // ----- characters -----

  predicate LowerHex(c: char) { '0' <= c <= '9' || 'a' <= c <= 'f' }

  /** Quotation mark, reverse solidus and the five control characters with a short escape are written with it, any other
      control character as four lower-case hexadecimal digits, and every other character as itself. */
  lemma EscapesExactly(c: char)
    ensures c == '\"' ==> Esc(c) == "\\\""
    ensures c == '\\' ==> Esc(c) == "\\\\"
    ensures c as int == 8 ==> Esc(c) == "\\b"
    ensures c as int == 9 ==> Esc(c) == "\\t"
    ensures c as int == 10 ==> Esc(c) == "\\n"
    ensures c as int == 12 ==> Esc(c) == "\\f"
    ensures c as int == 13 ==> Esc(c) == "\\r"
    ensures c as int < 32 && c as int !in {8, 9, 10, 12, 13} ==>
      |Esc(c)| == 6 && Esc(c)[..4] == "\\u00" && ReadHex4(Esc(c)[2..]) == Some(c as int)
      && LowerHex(Esc(c)[4]) && LowerHex(Esc(c)[5])
    ensures c as int >= 32 && c != '\"' && c != '\\' ==> Esc(c) == [c]
  {
    if c as int < 32 && c as int !in {8, 9, 10, 12, 13} {
      HexRoundTrip(c as int, "");
      assert Hex4(c as int) + "" == Hex4(c as int);
      assert Esc(c)[2..] == Hex4(c as int);
      assert Esc(c)[..4] == ['\\', 'u'] + Hex4(c as int)[..2];
    }
  }

  // ----- the order of keys -----

  /** The order of two characters by their UTF-16 code units: a character of two units stands before those from U+E000
      on, and after those below its surrogates. */
  predicate UnitLess(c: char, d: char) {
    if c as int >= 0x10000 && (d as int) < 0x10000 then d as int >= 0xE000
    else if (c as int) < 0x10000 && d as int >= 0x10000 then (c as int) < 0xE000
    else c < d
  }

  lemma UnitsAssoc(u: seq<int>, v: seq<int>, w: seq<int>)
    ensures u + (v + w) == (u + v) + w
  {}

  lemma {:induction false} UnitsSplit(s: string, i: nat)
    requires i <= |s|
    ensures Units(s) == Units(s[..i]) + Units(s[i..])
  {
    if i == 0 {
      assert s[..0] == "" && s[0..] == s;
    } else {
      var t := s[1..];
      UnitsSplit(t, i - 1);
      assert s[..i][1..] == t[..i - 1] && s[i..] == t[i - 1..];
      UnitsAssoc(CharUnits(s[0]), Units(t[..i - 1]), Units(s[i..]));
    }
  }

  lemma {:induction false} CommonPrefix(u: seq<int>, v: seq<int>, w: seq<int>)
    ensures LexLess(u + v, u + w) <==> LexLess(v, w)
  {
    if u == [] {
      assert u + v == v && u + w == w;
    } else {
      CommonPrefix(u[1..], v, w);
      assert (u + v)[1..] == u[1..] + v && (u + w)[1..] == u[1..] + w;
    }
  }

  lemma HeadsDecide(c: char, d: char, u: seq<int>, v: seq<int>)
    requires c != d
    ensures LexLess(CharUnits(c) + u, CharUnits(d) + v) <==> UnitLess(c, d)
  {
    var s, t := CharUnits(c) + u, CharUnits(d) + v;
    assert s[0] == CharUnits(c)[0] && t[0] == CharUnits(d)[0];
    if c as int >= 0x10000 && d as int >= 0x10000 {
      assert s[1] == CharUnits(c)[1] && t[1] == CharUnits(d)[1];
      assert s[1..][0] == s[1] && t[1..][0] == t[1];
    }
  }

  /** Keys are ordered by the first character on which they differ, and a key stands before those it begins. */
  lemma KeysExactly(f: Field, g: Field, i: nat)
    requires i <= |f.key| && i <= |g.key| && f.key[..i] == g.key[..i]
    ensures i < |f.key| && i < |g.key| && f.key[i] != g.key[i] ==> (KeyLess(f, g) <==> UnitLess(f.key[i], g.key[i]))
    ensures i == |f.key| < |g.key| ==> KeyLess(f, g) && !KeyLess(g, f)
  {
    UnitsSplit(f.key, i);
    UnitsSplit(g.key, i);
    CommonPrefix(Units(f.key[..i]), Units(f.key[i..]), Units(g.key[i..]));
    CommonPrefix(Units(f.key[..i]), Units(g.key[i..]), Units(f.key[i..]));
    if i < |f.key| && i < |g.key| && f.key[i] != g.key[i] {
      HeadsDecide(f.key[i], g.key[i], Units(f.key[i..][1..]), Units(g.key[i..][1..]));
    }
  }

  // ----- what has no canonical text -----

  /** Integers lie strictly between -2^53 and 2^53, there is no null and no floating point number, and what holds of a
      whole holds of all its parts. */
  lemma EncodedExactly(v: Value)
    ensures Encode(v).Some? <==>
      match v
      case Null => false
      case Float(_) => false
      case Int(n) => -9007199254740992 < n < 9007199254740992
      case Arr(es) => forall i :: 0 <= i < |es| ==> Encode(es[i]).Some?
      case Obj(fs) => forall i :: 0 <= i < |fs| ==> Encode(fs[i].value).Some?
      case _ => true
  {}

  // ----- the shortest text -----

  function Len(v: Value): nat { |Print(Esc, v)| }

  function StringLen(s: string): nat { |PrintString(Esc, s)| }

  lemma EscLength(c: char)
    ensures 1 <= |Esc(c)| <= 6 && (c as int >= 32 && c != '\"' && c != '\\' ==> |Esc(c)| == 1)
    ensures ShortEscape(c).Some? ==> |Esc(c)| == 2
  {}

  /** Whatever way a character is written, its own escape is no longer. */
  lemma CharShortest(s: string)
    requires ReadChar(s).Some?
    ensures |Esc(ReadChar(s).value.c)| + |ReadChar(s).value.rest| <= |s|
  {
    EscLength(ReadChar(s).value.c);
  }

  lemma {:induction false} StringShortest(s: string)
    requires ReadString(s).Some?
    ensures |Escaped(Esc, ReadString(s).value.text)| + 1 + |ReadString(s).value.rest| <= |s|
    decreases |s|
  {
    if s[0] != '\"' {
      CharShortest(s);
      var one := ReadChar(s).value;
      StringShortest(one.rest);
      var t := ReadString(one.rest).value;
      assert ([one.c] + t.text)[1..] == t.text;
    }
  }

  lemma {:induction false} NatShortest(d: string)
    requires AllDigits(d) && d != ""
    ensures |PrintNat(NatOf(d))| <= |d|
    decreases |d|
  {
    var n := NatOf(d);
    var front := d[..|d| - 1];
    if n >= 10 {
      assert front != "";
      NatShortest(front);
      assert n / 10 == NatOf(front);
    }
  }

  lemma IntShortest(s: string)
    requires ReadInt(s).Some?
    ensures Len(ReadInt(s).value.v) + |ReadInt(s).value.rest| <= |s|
  {
    var neg := s != "" && s[0] == '-';
    var t := if neg then s[1..] else s;
    var k := LeadingDigits(t);
    NatShortest(t[..k]);
  }

  lemma {:induction false} AnyShortest(s: string)
    requires ReadAny(s).Some?
    ensures Len(ReadAny(s).value.v) + |ReadAny(s).value.rest| <= |s|
    decreases |s|, 2
  {
    if s[0] == '\"' {
      StringShortest(s[1..]);
    } else if s[0] == '[' {
      var t := SkipSpace(s[1..]);
      if !(t != "" && t[0] == ']') { ElementsShortest(t); }
    } else if s[0] == '{' {
      var t := SkipSpace(s[1..]);
      if !(t != "" && t[0] == '}') { MembersShortest(t); }
    } else if !("null" <= s) && !("true" <= s) && !("false" <= s) {
      IntShortest(s);
    }
  }

  lemma {:induction false} ElementsShortest(s: string)
    requires ReadElements(s).Some?
    ensures |PrintElements(Esc, ReadElements(s).value.es)| + 1 + |ReadElements(s).value.rest| <= |s|
    decreases |s|, 3
  {
    AnyShortest(s);
    var first := ReadAny(s).value;
    var t := SkipSpace(first.rest);
    if t[0] == ',' {
      ElementsShortest(SkipSpace(t[1..]));
      var more := ReadElements(SkipSpace(t[1..])).value.es;
      ElementsLength(first.v, more);
    }
  }

  lemma ElementsLength(v: Value, es: seq<Value>)
    ensures |PrintElements(Esc, [v] + es)| == Len(v) + if es == [] then 0 else 1 + |PrintElements(Esc, es)|
  {
    assert ([v] + es)[1..] == es;
  }

  lemma MembersLength(f: Field, fs: seq<Field>)
    ensures |PrintMembers(Esc, [f] + fs)|
      == StringLen(f.key) + 1 + Len(f.value) + if fs == [] then 0 else 1 + |PrintMembers(Esc, fs)|
  {
    assert ([f] + fs)[1..] == fs;
  }

  lemma {:induction false} MembersShortest(s: string)
    requires ReadMembers(s).Some?
    ensures |PrintMembers(Esc, ReadMembers(s).value.fs)| + 1 + |ReadMembers(s).value.rest| <= |s|
    decreases |s|, 3
  {
    StringShortest(s[1..]);
    var key := ReadString(s[1..]).value;
    var c := SkipSpace(key.rest);
    AnyShortest(SkipSpace(c[1..]));
    var value := ReadAny(SkipSpace(c[1..])).value;
    var t := SkipSpace(value.rest);
    var f := Field(key.text, value.v);
    if t[0] == '}' {
      MembersLength(f, []);
      assert [f] + [] == [f];
    } else {
      MembersShortest(SkipSpace(t[1..]));
      MembersLength(f, ReadMembers(SkipSpace(t[1..])).value.fs);
    }
  }

  /** The canonical text is the shortest: no JSON text of the same members in the same order, with whatever whitespace
      and escapes, has fewer characters. */
  lemma ShortestText(v: Value, t: string)
    requires Encodable(v) && Read(t) == Some(Norm(v))
    ensures |Text(v)| <= |t| && Read(Text(v)) == Some(Norm(v))
  {
    ReadEncode(v);
    AnyShortest(SkipSpace(t));
  }
}
