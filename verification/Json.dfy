/** JSON text: values, the compact printer and a general reader.

    A string is a sequence of Unicode scalar values. An object keeps its members in the order they were read or
    inserted. The printer takes the escaping of one character as a parameter, because the canonical encoding and
    cursors escape differently; the reader accepts any JSON (whitespace, any escape, any member order). */
module Json {
  import opened Wrappers

  datatype Value =
    | Null
    | Bool(b: bool)
    | Int(n: int)
    | Float(x: real)
    | Str(s: string)
    | Arr(es: seq<Value>)
    | Obj(fs: seq<Field>)

  datatype Field = Field(key: string, value: Value)

  // ----- digits -----

  predicate IsDigit(c: char) { '0' <= c <= '9' }

  function Digit(d: nat): (c: char)
    requires d < 10
    ensures IsDigit(c) && c as int - '0' as int == d
  {
    '0' + d as char
  }

  function PrintNat(n: nat): (s: string)
    ensures |s| > 0
    ensures forall i :: 0 <= i < |s| ==> IsDigit(s[i])
    ensures n > 0 ==> s[0] != '0'
    ensures n == 0 ==> s == "0"
  {
    if n < 10 then [Digit(n)] else PrintNat(n / 10) + [Digit(n % 10)]
  }

  function PrintInt(n: int): string {
    if n < 0 then "-" + PrintNat(-n) else PrintNat(n)
  }

  predicate AllDigits(s: string) { forall i :: 0 <= i < |s| ==> IsDigit(s[i]) }

  function NatOf(s: string): nat
    requires AllDigits(s)
  {
    if s == "" then 0 else 10 * NatOf(s[..|s| - 1]) + (s[|s| - 1] as int - '0' as int)
  }

  /** The length of the longest prefix of digits. */
  function DigitsLen(s: string): (k: nat)
    ensures k <= |s| && AllDigits(s[..k])
    ensures k < |s| ==> !IsDigit(s[k])
  {
    if s == "" || !IsDigit(s[0]) then 0
    else
      var k := DigitsLen(s[1..]) + 1;
      assert s[..k] == [s[0]] + s[1..][..k - 1];
      k
  }

  lemma {:induction false} NatRoundTrip(n: nat)
    ensures NatOf(PrintNat(n)) == n
  {
    if n >= 10 {
      NatRoundTrip(n / 10);
      var s := PrintNat(n);
      assert s[..|s| - 1] == PrintNat(n / 10);
    } else {
      assert PrintNat(n)[..0] == "";
    }
  }

  lemma {:induction false} DigitsLenOf(d: string, rest: string)
    requires AllDigits(d) && (rest == "" || !IsDigit(rest[0]))
    ensures DigitsLen(d + rest) == |d|
  {
    if d == "" {
      assert d + rest == rest;
    } else {
      assert (d + rest)[1..] == d[1..] + rest;
      DigitsLenOf(d[1..], rest);
    }
  }

  // ----- one character of a string -----

  function HexDigit(d: nat): (c: char)
    requires d < 16
  {
    if d < 10 then Digit(d) else 'a' + (d - 10) as char
  }

  function HexValue(c: char): (r: Option<nat>)
    ensures r.Some? ==> r.value < 16
  {
    if IsDigit(c) then Some(c as int - '0' as int)
    else if 'a' <= c <= 'f' then Some(c as int - 'a' as int + 10)
    else if 'A' <= c <= 'F' then Some(c as int - 'A' as int + 10)
    else None
  }

  function Hex4(n: nat): (s: string)
    requires n < 0x10000
    ensures |s| == 4
  {
    [HexDigit(n / 4096), HexDigit(n / 256 % 16), HexDigit(n / 16 % 16), HexDigit(n % 16)]
  }

  lemma HexBound(a: nat, b: nat, c: nat, d: nat)
    requires a < 16 && b < 16 && c < 16 && d < 16
    ensures 4096 * a + 256 * b + 16 * c + d < 0x10000
  {}

  function ReadHex4(s: string): (r: Option<nat>)
    ensures r.Some? ==> |s| >= 4 && r.value < 0x10000
  {
    if |s| < 4 then None
    else
      match (HexValue(s[0]), HexValue(s[1]), HexValue(s[2]), HexValue(s[3]))
      case (Some(a), Some(b), Some(c), Some(d)) =>
        HexBound(a, b, c, d);
        Some(4096 * a + 256 * b + 16 * c + d)
      case _ => None
  }

  lemma HexValueOf(d: nat)
    requires d < 16
    ensures HexValue(HexDigit(d)) == Some(d)
  {}

  lemma HexParts(n: nat)
    requires n < 0x10000
    ensures n == 4096 * (n / 4096) + 256 * (n / 256 % 16) + 16 * (n / 16 % 16) + n % 16
    ensures n / 4096 < 16
  {
    assert n / 16 == (n / 16 / 16) * 16 + n / 16 % 16;
    assert n / 16 / 16 == n / 256;
    assert n / 256 == (n / 256 / 16) * 16 + n / 256 % 16;
    assert n / 256 / 16 == n / 4096;
  }

  lemma HexRoundTrip(n: nat, rest: string)
    requires n < 0x10000
    ensures ReadHex4(Hex4(n) + rest) == Some(n)
  {
    var s := Hex4(n) + rest;
    HexParts(n);
    var a, b, c, d := n / 4096, n / 256 % 16, n / 16 % 16, n % 16;
    assert s[0] == HexDigit(a) && s[1] == HexDigit(b) && s[2] == HexDigit(c) && s[3] == HexDigit(d);
    HexValueOf(a);
    HexValueOf(b);
    HexValueOf(c);
    HexValueOf(d);
  }

  /** The characters with an escape of two characters. */
  function ShortEscape(c: char): Option<char> {
    if c == '\"' then Some('\"') else if c == '\\' then Some('\\') else if c as int == 8 then Some('b')
    else if c as int == 12 then Some('f') else if c == '\n' then Some('n') else if c == '\r' then Some('r')
    else if c == '\t' then Some('t') else None
  }

  function Unescape(e: char): Option<char> {
    if e == '\"' then Some('\"') else if e == '\\' then Some('\\') else if e == '/' then Some('/')
    else if e == 'b' then Some(8 as char) else if e == 'f' then Some(12 as char) else if e == 'n' then Some('\n')
    else if e == 'r' then Some('\r') else if e == 't' then Some('\t') else None
  }

  datatype ReadOne = ReadOne(c: char, rest: string)

  /** Reads one character inside a string (not its closing quote). A surrogate without its pair is no character. */
  function ReadChar(s: string): (r: Option<ReadOne>)
    ensures r.Some? ==> |r.value.rest| < |s|
  {
    if s == "" || s[0] == '\"' || s[0] as int < 0x20 then None
    else if s[0] != '\\' then Some(ReadOne(s[0], s[1..]))
    else if |s| < 2 then None
    else if s[1] != 'u' then
      match Unescape(s[1])
      case None => None
      case Some(c) => Some(ReadOne(c, s[2..]))
    else
      match ReadHex4(s[2..])
      case None => None
      case Some(u) =>
        if u < 0xD800 || 0xE000 <= u then Some(ReadOne(u as char, s[6..]))
        else if 0xDC00 <= u then None
        else ReadLow(u, s[6..])
  }

  function ReadLow(high: nat, s: string): (r: Option<ReadOne>)
    requires 0xD800 <= high < 0xDC00
    ensures r.Some? ==> |r.value.rest| < |s|
  {
    if |s| < 6 || s[0] != '\\' || s[1] != 'u' then None
    else
      match ReadHex4(s[2..])
      case None => None
      case Some(u) =>
        if 0xDC00 <= u < 0xE000 then
          Some(ReadOne((0x10000 + (high - 0xD800) * 0x400 + (u - 0xDC00)) as char, s[6..]))
        else None
  }

  datatype ReadText = ReadText(text: string, rest: string)

  /** Reads the characters of a string and its closing quote. */
  function ReadString(s: string): (r: Option<ReadText>)
    ensures r.Some? ==> |r.value.rest| < |s|
    decreases |s|
  {
    if s == "" then None
    else if s[0] == '\"' then Some(ReadText("", s[1..]))
    else
      match ReadChar(s)
      case None => None
      case Some(one) =>
        match ReadString(one.rest)
        case None => None
        case Some(t) => Some(ReadText([one.c] + t.text, t.rest))
  }

  // ----- the reader -----

  datatype ReadValue = ReadValue(v: Value, rest: string)
  datatype ReadValues = ReadValues(es: seq<Value>, rest: string)
  datatype ReadFields = ReadFields(fs: seq<Field>, rest: string)

  function SkipSpace(s: string): (r: string)
    ensures |r| <= |s|
  {
    if s != "" && (s[0] == ' ' || s[0] == '\t' || s[0] == '\n' || s[0] == '\r') then SkipSpace(s[1..]) else s
  }

  /** A fraction or an exponent after an integer makes it a floating point number. */
  predicate FloatTail(rest: string) {
    || (|rest| > 1 && rest[0] == '.' && IsDigit(rest[1]))
    || (|rest| > 1 && (rest[0] == 'e' || rest[0] == 'E') && IsDigit(rest[1]))
    || (|rest| > 2 && (rest[0] == 'e' || rest[0] == 'E') && (rest[1] == '+' || rest[1] == '-') && IsDigit(rest[2]))
  }

  /** The digits of an integer: "0" alone, or digits that do not begin with "0". */
  function LeadingDigits(t: string): (k: nat)
    ensures k <= |t| && AllDigits(t[..k])
  {
    if t != "" && t[0] == '0' then 1 else DigitsLen(t)
  }

  /** An integer; a floating point number is refused. */
  function ReadInt(s: string): (r: Option<ReadValue>)
    ensures r.Some? ==> |r.value.rest| < |s|
  {
    var neg := s != "" && s[0] == '-';
    var t := if neg then s[1..] else s;
    var k := LeadingDigits(t);
    if k == 0 || FloatTail(t[k..]) then None
    else Some(ReadValue(Int(if neg then 0 - NatOf(t[..k]) else NatOf(t[..k])), t[k..]))
  }

  function ReadAny(s: string): (r: Option<ReadValue>)
    ensures r.Some? ==> |r.value.rest| < |s|
    decreases |s|, 2
  {
    if s == "" then None
    else if s[0] == '\"' then
      match ReadString(s[1..])
      case None => None
      case Some(t) => Some(ReadValue(Str(t.text), t.rest))
    else if s[0] == '[' then
      var t := SkipSpace(s[1..]);
      if t != "" && t[0] == ']' then Some(ReadValue(Arr([]), t[1..]))
      else
        match ReadElements(t)
        case None => None
        case Some(r) => Some(ReadValue(Arr(r.es), r.rest))
    else if s[0] == '{' then
      var t := SkipSpace(s[1..]);
      if t != "" && t[0] == '}' then Some(ReadValue(Obj([]), t[1..]))
      else
        match ReadMembers(t)
        case None => None
        case Some(r) => Some(ReadValue(Obj(r.fs), r.rest))
    else if "null" <= s then Some(ReadValue(Null, s[4..]))
    else if "true" <= s then Some(ReadValue(Bool(true), s[4..]))
    else if "false" <= s then Some(ReadValue(Bool(false), s[5..]))
    else ReadInt(s)
  }

  function ReadElements(s: string): (r: Option<ReadValues>)
    ensures r.Some? ==> |r.value.rest| < |s|
    decreases |s|, 3
  {
    match ReadAny(s)
    case None => None
    case Some(first) =>
      var t := SkipSpace(first.rest);
      if t == "" then None
      else if t[0] == ']' then Some(ReadValues([first.v], t[1..]))
      else if t[0] != ',' then None
      else
        match ReadElements(SkipSpace(t[1..]))
        case None => None
        case Some(more) => Some(ReadValues([first.v] + more.es, more.rest))
  }

  function ReadMembers(s: string): (r: Option<ReadFields>)
    ensures r.Some? ==> |r.value.rest| < |s|
    decreases |s|, 3
  {
    if s == "" || s[0] != '\"' then None
    else
      match ReadString(s[1..])
      case None => None
      case Some(key) =>
        var c := SkipSpace(key.rest);
        if c == "" || c[0] != ':' then None
        else
          match ReadAny(SkipSpace(c[1..]))
          case None => None
          case Some(value) =>
            var f := Field(key.text, value.v);
            var t := SkipSpace(value.rest);
            if t == "" then None
            else if t[0] == '}' then Some(ReadFields([f], t[1..]))
            else if t[0] != ',' then None
            else
              match ReadMembers(SkipSpace(t[1..]))
              case None => None
              case Some(more) => Some(ReadFields([f] + more.fs, more.rest))
  }

  /** One JSON text: a value with nothing but whitespace around it. */
  function Read(s: string): Option<Value> {
    match ReadAny(SkipSpace(s))
    case None => None
    case Some(r) => if SkipSpace(r.rest) == "" then Some(r.v) else None
  }

  // ----- the compact printer -----

  function Escaped(esc: char -> string, s: string): string {
    if s == "" then "" else esc(s[0]) + Escaped(esc, s[1..])
  }

  function PrintString(esc: char -> string, s: string): string {
    "\"" + Escaped(esc, s) + "\""
  }

  function Print(esc: char -> string, v: Value): string
    decreases v, 1
  {
    match v
    case Null => "null"
    case Bool(b) => if b then "true" else "false"
    case Int(n) => PrintInt(n)
    case Float(_) => ""
    case Str(s) => PrintString(esc, s)
    case Arr(es) => "[" + PrintElements(esc, es) + "]"
    case Obj(fs) => "{" + PrintMembers(esc, fs) + "}"
  }

  function PrintElements(esc: char -> string, es: seq<Value>): string
    decreases es, 0
  {
    if es == [] then ""
    else if |es| == 1 then Print(esc, es[0])
    else Print(esc, es[0]) + "," + PrintElements(esc, es[1..])
  }

  function PrintMember(esc: char -> string, f: Field): string
    decreases f, 2
  {
    PrintString(esc, f.key) + ":" + Print(esc, f.value)
  }

  function PrintMembers(esc: char -> string, fs: seq<Field>): string
    decreases fs, 0
  {
    if fs == [] then ""
    else if |fs| == 1 then PrintMember(esc, fs[0])
    else PrintMember(esc, fs[0]) + "," + PrintMembers(esc, fs[1..])
  }

  // ----- reading what was printed -----

  ghost predicate ReadsBack(esc: char -> string, c: char, rest: string) {
    |esc(c)| > 0 && esc(c)[0] != '\"' && ReadChar(esc(c) + rest) == Some(ReadOne(c, rest))
  }

  /** The reader undoes the escaping of every character, whatever follows. */
  ghost predicate Readable(esc: char -> string) {
    forall c: char, rest: string :: ReadsBack(esc, c, rest)
  }

  /** No floating point number anywhere. */
  predicate NoFloat(v: Value) {
    match v
    case Float(_) => false
    case Arr(es) => forall i :: 0 <= i < |es| ==> NoFloat(es[i])
    case Obj(fs) => forall i :: 0 <= i < |fs| ==> NoFloat(fs[i].value)
    case _ => true
  }

  /** What may follow a value inside a compact text. */
  predicate Delimited(rest: string) {
    rest == "" || rest[0] == ',' || rest[0] == ']' || rest[0] == '}'
  }

  // The same text written in front of what follows it: each step puts a piece before the rest, which is how the
  // reader takes the text apart.

  function EscapedTo(esc: char -> string, s: string, rest: string): string {
    if s == "" then rest else esc(s[0]) + EscapedTo(esc, s[1..], rest)
  }

  function StringTo(esc: char -> string, s: string, rest: string): string {
    ['\"'] + EscapedTo(esc, s, ['\"'] + rest)
  }

  function PrintTo(esc: char -> string, v: Value, rest: string): string
    decreases v, 1
  {
    match v
    case Str(s) => StringTo(esc, s, rest)
    case Arr(es) => ['['] + ElementsTo(esc, es, [']'] + rest)
    case Obj(fs) => ['{'] + MembersTo(esc, fs, ['}'] + rest)
    case _ => Print(esc, v) + rest
  }

  function ElementsTo(esc: char -> string, es: seq<Value>, rest: string): string
    decreases es, 0
  {
    if es == [] then rest
    else PrintTo(esc, es[0], if |es| == 1 then rest else [','] + ElementsTo(esc, es[1..], rest))
  }

  function MembersTo(esc: char -> string, fs: seq<Field>, rest: string): string
    decreases fs, 0
  {
    if fs == [] then rest
    else
      StringTo(esc, fs[0].key, [':'] +
        PrintTo(esc, fs[0].value, if |fs| == 1 then rest else [','] + MembersTo(esc, fs[1..], rest)))
  }

  lemma Assoc(a: string, b: string, c: string)
    ensures (a + b) + c == a + (b + c)
  {}

  lemma {:induction false} EscapedToIs(esc: char -> string, s: string, rest: string)
    ensures EscapedTo(esc, s, rest) == Escaped(esc, s) + rest
  {
    if s != "" {
      EscapedToIs(esc, s[1..], rest);
      Assoc(esc(s[0]), Escaped(esc, s[1..]), rest);
    }
  }

  lemma StringToIs(esc: char -> string, s: string, rest: string)
    ensures StringTo(esc, s, rest) == PrintString(esc, s) + rest
  {
    EscapedToIs(esc, s, ['\"'] + rest);
    var q, e := "\"", Escaped(esc, s);
    Assoc(q, e, q);
    Assoc(q, e + q, rest);
    Assoc(e, q, rest);
  }

  lemma {:induction false} PrintToIs(esc: char -> string, v: Value, rest: string)
    ensures PrintTo(esc, v, rest) == Print(esc, v) + rest
    decreases v, 1
  {
    match v
    case Str(s) => StringToIs(esc, s, rest);
    case Arr(es) =>
      ElementsToIs(esc, es, "]" + rest);
      var o, e, c := "[", PrintElements(esc, es), "]";
      Assoc(o, e, c);
      Assoc(o, e + c, rest);
      Assoc(e, c, rest);
    case Obj(fs) =>
      MembersToIs(esc, fs, "}" + rest);
      var o, e, c := "{", PrintMembers(esc, fs), "}";
      Assoc(o, e, c);
      Assoc(o, e + c, rest);
      Assoc(e, c, rest);
    case _ =>
  }

  lemma {:induction false} ElementsToIs(esc: char -> string, es: seq<Value>, rest: string)
    ensures ElementsTo(esc, es, rest) == PrintElements(esc, es) + rest
    decreases es, 0
  {
    if |es| == 1 {
      PrintToIs(esc, es[0], rest);
    } else if es != [] {
      var more := PrintElements(esc, es[1..]);
      ElementsToIs(esc, es[1..], rest);
      PrintToIs(esc, es[0], [','] + ElementsTo(esc, es[1..], rest));
      Assoc(Print(esc, es[0]) + ",", more, rest);
      Assoc(Print(esc, es[0]), ",", more + rest);
    }
  }

  lemma {:induction false} MembersToIs(esc: char -> string, fs: seq<Field>, rest: string)
    ensures MembersTo(esc, fs, rest) == PrintMembers(esc, fs) + rest
    decreases fs, 0
  {
    if fs != [] {
      var f := fs[0];
      var after := if |fs| == 1 then rest else [','] + MembersTo(esc, fs[1..], rest);
      PrintToIs(esc, f.value, after);
      StringToIs(esc, f.key, [':'] + PrintTo(esc, f.value, after));
      var k, v := PrintString(esc, f.key), Print(esc, f.value);
      Assoc(":", v, after);
      Assoc(k, ":" + v, after);
      Assoc(k, ":", v);
      if |fs| > 1 {
        MembersToIs(esc, fs[1..], rest);
        var more := PrintMembers(esc, fs[1..]);
        var m := PrintMember(esc, f);
        Assoc(m + ",", more, rest);
        Assoc(m, ",", more + rest);
      }
    }
  }

  lemma {:induction false} StringRoundTrip(esc: char -> string, s: string, rest: string)
    requires Readable(esc)
    ensures ReadString(EscapedTo(esc, s, ['\"'] + rest)) == Some(ReadText(s, rest))
  {
    if s != "" {
      var more := EscapedTo(esc, s[1..], ['\"'] + rest);
      assert ReadsBack(esc, s[0], more);
      StringRoundTrip(esc, s[1..], rest);
      assert [s[0]] + s[1..] == s;
    }
  }

  lemma LeadingDigitsOf(d: string, rest: string)
    requires AllDigits(d) && d != "" && (d[0] == '0' ==> |d| == 1) && Delimited(rest)
    ensures LeadingDigits(d + rest) == |d| && !FloatTail(rest)
  {
    DigitsLenOf(d, rest);
    assert (d + rest)[0] == d[0];
  }

  lemma ReadSigned(t: string)
    requires LeadingDigits(t) > 0 && !FloatTail(t[LeadingDigits(t)..])
    ensures var k := LeadingDigits(t);
      && ReadInt(t) == Some(ReadValue(Int(NatOf(t[..k])), t[k..]))
      && ReadInt(['-'] + t) == Some(ReadValue(Int(0 - NatOf(t[..k])), t[k..]))
  {
    assert (['-'] + t)[1..] == t;
    assert IsDigit(t[..LeadingDigits(t)][0]);
  }

  lemma DigitsRoundTrip(d: string, rest: string)
    requires AllDigits(d) && d != "" && (d[0] == '0' ==> |d| == 1) && Delimited(rest)
    ensures ReadInt(d + rest) == Some(ReadValue(Int(NatOf(d)), rest))
    ensures ReadInt(['-'] + (d + rest)) == Some(ReadValue(Int(0 - NatOf(d)), rest))
  {
    LeadingDigitsOf(d, rest);
    SplitAt(d, rest);
    ReadSplit(d + rest, d, rest);
  }

  lemma ReadSplit(t: string, d: string, rest: string)
    requires AllDigits(d) && LeadingDigits(t) == |d| > 0 && t[..|d|] == d && t[|d|..] == rest && !FloatTail(rest)
    ensures ReadInt(t) == Some(ReadValue(Int(NatOf(d)), rest))
    ensures ReadInt(['-'] + t) == Some(ReadValue(Int(0 - NatOf(d)), rest))
  {
    ReadSigned(t);
  }

  lemma SplitAt(d: string, rest: string)
    ensures (d + rest)[..|d|] == d && (d + rest)[|d|..] == rest
  {}

  lemma IntRoundTrip(n: int, rest: string)
    requires Delimited(rest)
    ensures ReadInt(PrintInt(n) + rest) == Some(ReadValue(Int(n), rest))
    ensures var s := PrintInt(n) + rest; s != "" && (s[0] == '-' || IsDigit(s[0]))
  {
    var m := if n < 0 then -n else n;
    NatRoundTrip(m);
    DigitsRoundTrip(PrintNat(m), rest);
    Assoc("-", PrintNat(m), rest);
  }

  lemma WordRoundTrip(esc: char -> string, v: Value, rest: string)
    requires v.Null? || v.Bool?
    ensures ReadAny(Print(esc, v) + rest) == Some(ReadValue(v, rest))
  {
    var s := Print(esc, v) + rest;
    if v == Bool(false) {
      assert s[..5] == "false" && s[5..] == rest && s[0] == 'f';
    } else {
      assert s[..4] == Print(esc, v) && s[4..] == rest && s[0] == Print(esc, v)[0];
    }
  }

  lemma ReadNumber(s: string)
    requires s != "" && (s[0] == '-' || IsDigit(s[0]))
    ensures ReadAny(s) == ReadInt(s)
  {
    var c := s[0];
    assert c != '\"' && c != '[' && c != '{';
    assert !("null" <= s) by { assert "null"[0] != c; }
    assert !("true" <= s) by { assert "true"[0] != c; }
    assert !("false" <= s) by { assert "false"[0] != c; }
  }

  /** The first character of a printed value is neither whitespace nor a closing bracket. */
  lemma Begins(esc: char -> string, v: Value, rest: string)
    requires NoFloat(v)
    ensures var t := PrintTo(esc, v, rest); t != "" && t[0] != ']' && SkipSpace(t) == t
  {
    if v.Int? {
      assert (PrintInt(v.n) + rest)[0] == PrintInt(v.n)[0];
    }
  }

  lemma StepLast(s: string, v: Value, rest: string)
    requires ReadAny(s) == Some(ReadValue(v, [']'] + rest))
    ensures ReadElements(s) == Some(ReadValues([v], rest))
  {
    assert ([']'] + rest)[1..] == rest;
  }

  lemma StepElement(s: string, v: Value, t: string, es: seq<Value>, rest: string)
    requires ReadAny(s) == Some(ReadValue(v, [','] + t)) && SkipSpace(t) == t
    requires ReadElements(t) == Some(ReadValues(es, rest))
    ensures ReadElements(s) == Some(ReadValues([v] + es, rest))
  {
    assert ([','] + t)[1..] == t;
  }

  lemma StepArray(t: string, es: seq<Value>, rest: string)
    requires t != "" && t[0] != ']' && SkipSpace(t) == t && ReadElements(t) == Some(ReadValues(es, rest))
    ensures ReadAny(['['] + t) == Some(ReadValue(Arr(es), rest))
  {
    assert (['['] + t)[1..] == t;
  }

  lemma StepMemberLast(s: string, k: string, t: string, v: Value, rest: string)
    requires ReadString(s) == Some(ReadText(k, [':'] + t)) && SkipSpace(t) == t
    requires ReadAny(t) == Some(ReadValue(v, ['}'] + rest))
    ensures ReadMembers(['\"'] + s) == Some(ReadFields([Field(k, v)], rest))
  {
    assert (['\"'] + s)[1..] == s && ([':'] + t)[1..] == t && (['}'] + rest)[1..] == rest;
  }

  lemma StepMember(s: string, k: string, t: string, v: Value, u: string, fs: seq<Field>, rest: string)
    requires ReadString(s) == Some(ReadText(k, [':'] + t)) && SkipSpace(t) == t
    requires ReadAny(t) == Some(ReadValue(v, [','] + u)) && SkipSpace(u) == u
    requires ReadMembers(u) == Some(ReadFields(fs, rest))
    ensures ReadMembers(['\"'] + s) == Some(ReadFields([Field(k, v)] + fs, rest))
  {
    assert (['\"'] + s)[1..] == s && ([':'] + t)[1..] == t && ([','] + u)[1..] == u;
  }

  lemma StepObject(t: string, fs: seq<Field>, rest: string)
    requires t != "" && t[0] == '\"' && ReadMembers(t) == Some(ReadFields(fs, rest))
    ensures ReadAny(['{'] + t) == Some(ReadValue(Obj(fs), rest))
  {
    assert (['{'] + t)[1..] == t;
  }

  lemma StepEmpty(rest: string)
    ensures ReadAny(['['] + ([']'] + rest)) == Some(ReadValue(Arr([]), rest))
    ensures ReadAny(['{'] + (['}'] + rest)) == Some(ReadValue(Obj([]), rest))
  {
    assert (['['] + ([']'] + rest))[1..] == [']'] + rest && ([']'] + rest)[1..] == rest;
    assert (['{'] + (['}'] + rest))[1..] == ['}'] + rest && (['}'] + rest)[1..] == rest;
  }

  lemma StepString(s: string, t: string, rest: string)
    requires ReadString(s) == Some(ReadText(t, rest))
    ensures ReadAny(['\"'] + s) == Some(ReadValue(Str(t), rest))
  {
    assert (['\"'] + s)[1..] == s;
  }

  /** A general reader gives back what the compact printer wrote, whatever follows it. */
  lemma {:induction false} ValueRoundTrip(esc: char -> string, v: Value, rest: string)
    requires Readable(esc) && NoFloat(v) && Delimited(rest)
    ensures ReadAny(PrintTo(esc, v, rest)) == Some(ReadValue(v, rest))
    decreases v, 1
  {
    match v
    case Int(n) =>
      IntRoundTrip(n, rest);
      ReadNumber(PrintInt(n) + rest);
    case Str(t) =>
      StringRoundTrip(esc, t, rest);
      StepString(EscapedTo(esc, t, ['\"'] + rest), t, rest);
    case Arr(es) =>
      if es == [] {
        StepEmpty(rest);
      } else {
        ElementsRoundTrip(esc, es, rest);
        var after := if |es| == 1 then [']'] + rest else [','] + ElementsTo(esc, es[1..], [']'] + rest);
        Begins(esc, es[0], after);
        StepArray(ElementsTo(esc, es, [']'] + rest), es, rest);
      }
    case Obj(fs) =>
      if fs == [] {
        StepEmpty(rest);
      } else {
        MembersRoundTrip(esc, fs, rest);
        StepObject(MembersTo(esc, fs, ['}'] + rest), fs, rest);
      }
    case _ => WordRoundTrip(esc, v, rest);
  }

  lemma {:induction false} ElementsRoundTrip(esc: char -> string, es: seq<Value>, rest: string)
    requires Readable(esc) && es != [] && forall i :: 0 <= i < |es| ==> NoFloat(es[i])
    ensures ReadElements(ElementsTo(esc, es, [']'] + rest)) == Some(ReadValues(es, rest))
    decreases es, 0
  {
    var s := ElementsTo(esc, es, [']'] + rest);
    if |es| == 1 {
      ValueRoundTrip(esc, es[0], [']'] + rest);
      StepLast(s, es[0], rest);
      assert [es[0]] == es;
    } else {
      var t := ElementsTo(esc, es[1..], [']'] + rest);
      var after := if |es| == 2 then [']'] + rest else [','] + ElementsTo(esc, es[1..][1..], [']'] + rest);
      ValueRoundTrip(esc, es[0], [','] + t);
      ElementsRoundTrip(esc, es[1..], rest);
      Begins(esc, es[1], after);
      StepElement(s, es[0], t, es[1..], rest);
      assert [es[0]] + es[1..] == es;
    }
  }

  /** The key, the colon and the value of a printed member are read back, up to what follows. */
  predicate Reads(esc: char -> string, f: Field, after: string) {
    var t := PrintTo(esc, f.value, after);
    && ReadString(EscapedTo(esc, f.key, ['\"'] + ([':'] + t))) == Some(ReadText(f.key, [':'] + t))
    && SkipSpace(t) == t && ReadAny(t) == Some(ReadValue(f.value, after))
  }

  lemma {:induction false} MemberReads(esc: char -> string, f: Field, after: string)
    requires Readable(esc) && NoFloat(f.value) && Delimited(after)
    ensures Reads(esc, f, after)
    decreases f, 0
  {
    StringRoundTrip(esc, f.key, [':'] + PrintTo(esc, f.value, after));
    Begins(esc, f.value, after);
    ValueRoundTrip(esc, f.value, after);
  }

  lemma LastMember(esc: char -> string, f: Field, rest: string)
    requires Reads(esc, f, ['}'] + rest)
    ensures ReadMembers(MembersTo(esc, [f], ['}'] + rest)) == Some(ReadFields([f], rest))
  {
    var t := PrintTo(esc, f.value, ['}'] + rest);
    var s := EscapedTo(esc, f.key, ['\"'] + ([':'] + t));
    assert MembersTo(esc, [f], ['}'] + rest) == ['\"'] + s;
    StepMemberLast(s, f.key, t, f.value, rest);
    assert f == Field(f.key, f.value);
  }

  lemma NextMember(esc: char -> string, f: Field, fs: seq<Field>, rest: string)
    requires fs != [] && Reads(esc, f, [','] + MembersTo(esc, fs, ['}'] + rest))
    requires ReadMembers(MembersTo(esc, fs, ['}'] + rest)) == Some(ReadFields(fs, rest))
    ensures ReadMembers(MembersTo(esc, [f] + fs, ['}'] + rest)) == Some(ReadFields([f] + fs, rest))
  {
    var more := MembersTo(esc, fs, ['}'] + rest);
    var t := PrintTo(esc, f.value, [','] + more);
    var s := EscapedTo(esc, f.key, ['\"'] + ([':'] + t));
    assert ([f] + fs)[1..] == fs;
    assert MembersTo(esc, [f] + fs, ['}'] + rest) == ['\"'] + s;
    MembersBegin(esc, fs, ['}'] + rest);
    StepMember(s, f.key, t, f.value, more, fs, rest);
    assert f == Field(f.key, f.value);
  }

  lemma {:induction false} MembersRoundTrip(esc: char -> string, fs: seq<Field>, rest: string)
    requires Readable(esc) && fs != [] && forall i :: 0 <= i < |fs| ==> NoFloat(fs[i].value)
    ensures ReadMembers(MembersTo(esc, fs, ['}'] + rest)) == Some(ReadFields(fs, rest))
    decreases fs, 0
  {
    if |fs| == 1 {
      MemberReads(esc, fs[0], ['}'] + rest);
      LastMember(esc, fs[0], rest);
      assert [fs[0]] == fs;
    } else {
      MemberReads(esc, fs[0], [','] + MembersTo(esc, fs[1..], ['}'] + rest));
      MembersRoundTrip(esc, fs[1..], rest);
      NextMember(esc, fs[0], fs[1..], rest);
      assert [fs[0]] + fs[1..] == fs;
    }
  }

  lemma MembersBegin(esc: char -> string, fs: seq<Field>, rest: string)
    requires fs != []
    ensures var t := MembersTo(esc, fs, rest); t != "" && t[0] == '\"' && SkipSpace(t) == t
  {}

  /** Reading a compact text gives back the value it was printed from. */
  lemma ReadPrint(esc: char -> string, v: Value)
    requires Readable(esc) && NoFloat(v)
    ensures Read(Print(esc, v)) == Some(v)
  {
    PrintToIs(esc, v, "");
    Begins(esc, v, "");
    ValueRoundTrip(esc, v, "");
    assert Print(esc, v) + "" == Print(esc, v);
  }
}
