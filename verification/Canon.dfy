/** The canonical encoding of security records (besdk/canon.py): RFC 8785 text with the members of every object in
    the order of section 3.2.3 (UTF-16 code units), strings as in section 3.2.2.2, and no null or floating point. */
module Canon {
  import opened Wrappers
  import opened Json
  import Sorting
  import Utf8

  const MAX_INT := 0x20_0000_0000_0000

  // ----- the escaping of one character -----

  function Esc(c: char): string {
    match ShortEscape(c)
    case Some(e) => ['\\', e]
    case None => if c as int < 0x20 then ['\\', 'u'] + Hex4(c as int) else [c]
  }

  lemma EscReadable()
    ensures Readable(Esc)
  {
    forall c: char, rest: string ensures ReadsBack(Esc, c, rest) {
      var s := Esc(c) + rest;
      if ShortEscape(c).Some? {
        assert s[2..] == rest;
      } else if c as int < 0x20 {
        HexRoundTrip(c as int, rest);
        assert s[2..] == Hex4(c as int) + rest;
        assert s[6..] == rest;
      } else {
        assert s[1..] == rest;
      }
    }
  }

  // ----- key order -----

  function CharUnits(c: char): (u: seq<int>)
    ensures 1 <= |u| <= 2
  {
    var n := c as int;
    if n < 0x10000 then [n] else [0xD800 + (n - 0x10000) / 0x400, 0xDC00 + (n - 0x10000) % 0x400]
  }

  /** The UTF-16 code units of a string. */
  function Units(s: string): seq<int> {
    if s == "" then [] else CharUnits(s[0]) + Units(s[1..])
  }

  predicate LexLess(u: seq<int>, v: seq<int>) {
    v != [] && (u == [] || u[0] < v[0] || (u[0] == v[0] && LexLess(u[1..], v[1..])))
  }

  predicate KeyLess(f: Field, g: Field) { LexLess(Units(f.key), Units(g.key)) }

  lemma {:induction false} LexIrreflexive(u: seq<int>)
    ensures !LexLess(u, u)
  {
    if u != [] { LexIrreflexive(u[1..]); }
  }

  lemma {:induction false} LexTransitive(u: seq<int>, v: seq<int>, w: seq<int>)
    requires LexLess(u, v) && LexLess(v, w)
    ensures LexLess(u, w)
  {
    if u != [] && u[0] == v[0] == w[0] { LexTransitive(u[1..], v[1..], w[1..]); }
  }

  lemma {:induction false} LexTotal(u: seq<int>, v: seq<int>)
    ensures u == v || LexLess(u, v) || LexLess(v, u)
  {
    if u != [] && v != [] && u[0] == v[0] {
      LexTotal(u[1..], v[1..]);
      assert u == [u[0]] + u[1..] && v == [v[0]] + v[1..];
    }
  }

  lemma KeyOrder()
    ensures Sorting.StrictOrder(KeyLess)
  {
    forall f: Field ensures !KeyLess(f, f) { LexIrreflexive(Units(f.key)); }
    forall f: Field, g: Field, h: Field | KeyLess(f, g) && KeyLess(g, h) ensures KeyLess(f, h) {
      LexTransitive(Units(f.key), Units(g.key), Units(h.key));
    }
  }

  lemma CharUnitsInjective(c: char, d: char, u: seq<int>, v: seq<int>)
    requires CharUnits(c) + u == CharUnits(d) + v
    ensures c == d && u == v
  {
    var s, t := CharUnits(c) + u, CharUnits(d) + v;
    assert s[0] == CharUnits(c)[0] && t[0] == CharUnits(d)[0];
    if c as int >= 0x10000 {
      assert s[1] == CharUnits(c)[1];
      assert t[1] == CharUnits(d)[1];
    }
    assert |CharUnits(c)| == |CharUnits(d)|;
    assert s[|CharUnits(c)|..] == u && t[|CharUnits(d)|..] == v;
  }

  lemma {:induction false} UnitsInjective(s: string, t: string)
    requires Units(s) == Units(t)
    ensures s == t
  {
    if s != "" && t != "" {
      CharUnitsInjective(s[0], t[0], Units(s[1..]), Units(t[1..]));
      UnitsInjective(s[1..], t[1..]);
      assert s == [s[0]] + s[1..] && t == [t[0]] + t[1..];
    }
  }

  // ----- values and their normal form -----

  predicate DistinctFields(fs: seq<Field>) {
    forall i, j :: 0 <= i < j < |fs| ==> fs[i].key != fs[j].key
  }

  /** No object has a key twice: what a Python value can be. */
  predicate WellFormed(v: Value) {
    match v
    case Arr(es) => forall i :: 0 <= i < |es| ==> WellFormed(es[i])
    case Obj(fs) => DistinctFields(fs) && forall i :: 0 <= i < |fs| ==> WellFormed(fs[i].value)
    case _ => true
  }

  /** No null, no floating point, every integer below 2^53 in magnitude. */
  predicate Encodable(v: Value) {
    match v
    case Null => false
    case Float(_) => false
    case Int(n) => -MAX_INT < n < MAX_INT
    case Arr(es) => forall i :: 0 <= i < |es| ==> Encodable(es[i])
    case Obj(fs) => forall i :: 0 <= i < |fs| ==> Encodable(fs[i].value)
    case _ => true
  }

  /** Equality of Python values: the members of an object have no order. */
  ghost predicate Same(v: Value, w: Value)
    decreases v
  {
    match (v, w)
    case (Arr(es), Arr(ds)) => |es| == |ds| && forall i :: 0 <= i < |es| ==> Same(es[i], ds[i])
    case (Obj(fs), Obj(gs)) =>
      && (forall k :: HasKey(fs, k) <==> HasKey(gs, k))
      && (forall i, j :: 0 <= i < |fs| && 0 <= j < |gs| && fs[i].key == gs[j].key ==> Same(fs[i].value, gs[j].value))
    case _ => v == w
  }

  ghost predicate HasKey(fs: seq<Field>, k: string) { exists f :: f in fs && f.key == k }

  /** The members of every object in key order. */
  function Norm(v: Value): Value
    decreases v, 1
  {
    match v
    case Arr(es) => Arr(NormAll(es))
    case Obj(fs) => Obj(Sorting.Sort(KeyLess, NormFields(fs)))
    case _ => v
  }

  function NormAll(es: seq<Value>): (r: seq<Value>)
    ensures |r| == |es| && forall i :: 0 <= i < |es| ==> r[i] == Norm(es[i])
    decreases es, 0
  {
    if es == [] then [] else [Norm(es[0])] + NormAll(es[1..])
  }

  function NormFields(fs: seq<Field>): (r: seq<Field>)
    ensures |r| == |fs| && forall i :: 0 <= i < |fs| ==> r[i] == Field(fs[i].key, Norm(fs[i].value))
    decreases fs, 0
  {
    if fs == [] then [] else [Field(fs[0].key, Norm(fs[0].value))] + NormFields(fs[1..])
  }

  /** encode: the canonical text of a value, or a refusal. */
  function Text(v: Value): string { Print(Esc, Norm(v)) }

  function Encode(v: Value): Option<seq<Utf8.Byte>> {
    if Encodable(v) then Some(Utf8.Encode(Text(v))) else None
  }

  lemma FieldsDistinct(fs: seq<Field>)
    requires DistinctFields(fs)
    ensures Sorting.Distinct(NormFields(fs)) && Sorting.Comparable(KeyLess, NormFields(fs))
  {
    var r := NormFields(fs);
    forall x, y | x in r && y in r && x != y ensures KeyLess(x, y) || KeyLess(y, x) {
      var i :| 0 <= i < |r| && r[i] == x;
      var j :| 0 <= j < |r| && r[j] == y;
      assert fs[i].key != fs[j].key;
      if Units(x.key) == Units(y.key) { UnitsInjective(x.key, y.key); }
      LexTotal(Units(x.key), Units(y.key));
    }
  }

  lemma SortedElement(fs: seq<Field>, f: Field)
    ensures f in Sorting.Sort(KeyLess, fs) <==> f in fs
  {
    Sorting.SortElements(KeyLess, fs);
  }

  lemma {:induction false} NormKeeps(v: Value)
    requires Encodable(v)
    ensures Encodable(Norm(v)) && NoFloat(Norm(v))
    decreases v
  {
    match v
    case Arr(es) =>
      forall i | 0 <= i < |es| ensures Encodable(Norm(es[i])) && NoFloat(Norm(es[i]))
      { NormKeeps(es[i]); }
    case Obj(fs) =>
      var r := Norm(v).fs;
      forall j | 0 <= j < |r| ensures Encodable(r[j].value) && NoFloat(r[j].value) {
        SortedElement(NormFields(fs), r[j]);
        assert r[j] in r;
        var i :| 0 <= i < |fs| && NormFields(fs)[i] == r[j];
        NormKeeps(fs[i].value);
      }
    case _ =>
  }

  /** A general JSON reader applied to the canonical bytes gives the value back, its members in key order. */
  lemma ReadEncode(v: Value)
    requires Encodable(v)
    ensures Utf8.Decode(Encode(v).value) == Some(Text(v)) && Read(Text(v)) == Some(Norm(v))
  {
    NormKeeps(v);
    EscReadable();
    ReadPrint(Esc, Norm(v));
    Utf8.DecodeEncode(Text(v));
  }

  // ----- one byte string per value -----

  lemma SameField(fs: seq<Field>, gs: seq<Field>, f: Field)
    requires forall k :: HasKey(fs, k) ==> HasKey(gs, k)
    requires forall i, j :: 0 <= i < |fs| && 0 <= j < |gs| && fs[i].key == gs[j].key ==>
      Norm(fs[i].value) == Norm(gs[j].value)
    requires f in NormFields(fs)
    ensures f in NormFields(gs)
  {
    var a, b := NormFields(fs), NormFields(gs);
    var i :| 0 <= i < |a| && a[i] == f;
    assert fs[i] in fs && HasKey(fs, f.key);
    var g :| g in gs && g.key == f.key;
    var j :| 0 <= j < |gs| && gs[j] == g;
    assert b[j] == f;
  }

  lemma {:induction false} SameNorm(v: Value, w: Value)
    requires WellFormed(v) && WellFormed(w) && Same(v, w)
    ensures Norm(v) == Norm(w)
    decreases v
  {
    match (v, w)
    case (Arr(es), Arr(ds)) =>
      forall i | 0 <= i < |es| ensures Norm(es[i]) == Norm(ds[i]) { SameNorm(es[i], ds[i]); }
      assert NormAll(es) == NormAll(ds);
    case (Obj(fs), Obj(gs)) =>
      forall i, j | 0 <= i < |fs| && 0 <= j < |gs| && fs[i].key == gs[j].key
        ensures Norm(fs[i].value) == Norm(gs[j].value)
      {
        SameNorm(fs[i].value, gs[j].value);
      }
      var a, b := NormFields(fs), NormFields(gs);
      forall f ensures f in a <==> f in b {
        if f in a { SameField(fs, gs, f); }
        if f in b { SameField(gs, fs, f); }
      }
      KeyOrder();
      FieldsDistinct(fs);
      FieldsDistinct(gs);
      Sorting.SortIgnoresOrder(KeyLess, a, b);
    case _ =>
  }

  lemma NormFieldIndex(fs: seq<Field>, f: Field) returns (j: nat)
    requires f in Sorting.Sort(KeyLess, NormFields(fs))
    ensures j < |fs| && fs[j].key == f.key && Norm(fs[j].value) == f.value && fs[j] in fs
  {
    var r := NormFields(fs);
    SortedElement(r, f);
    j :| 0 <= j < |r| && r[j] == f;
  }

  lemma NormFieldAt(fs: seq<Field>, gs: seq<Field>, i: nat) returns (j: nat)
    requires i < |fs| && Sorting.Sort(KeyLess, NormFields(fs)) == Sorting.Sort(KeyLess, NormFields(gs))
    ensures j < |gs| && gs[j].key == fs[i].key && Norm(gs[j].value) == Norm(fs[i].value) && gs[j] in gs
  {
    var r := NormFields(fs);
    assert r[i] in r;
    SortedElement(r, r[i]);
    j := NormFieldIndex(gs, r[i]);
  }

  lemma {:induction false} NormSame(v: Value, w: Value)
    requires WellFormed(v) && WellFormed(w) && Norm(v) == Norm(w)
    ensures Same(v, w)
    decreases v
  {
    match (v, w)
    case (Arr(es), Arr(ds)) =>
      forall i | 0 <= i < |es| ensures Same(es[i], ds[i]) {
        assert NormAll(es)[i] == NormAll(ds)[i];
        NormSame(es[i], ds[i]);
      }
    case (Obj(fs), Obj(gs)) =>
      forall k ensures HasKey(fs, k) <==> HasKey(gs, k) {
        if HasKey(fs, k) {
          var f :| f in fs && f.key == k;
          var i :| 0 <= i < |fs| && fs[i] == f;
          var j := NormFieldAt(fs, gs, i);
        }
        if HasKey(gs, k) {
          var f :| f in gs && f.key == k;
          var i :| 0 <= i < |gs| && gs[i] == f;
          var j := NormFieldAt(gs, fs, i);
        }
      }
      forall i, j | 0 <= i < |fs| && 0 <= j < |gs| && fs[i].key == gs[j].key ensures Same(fs[i].value, gs[j].value) {
        var m := NormFieldAt(fs, gs, i);
        assert m == j;
        NormSame(fs[i].value, gs[j].value);
      }
    case _ =>
  }

  /** Two values have the same canonical bytes exactly when they are the same value. */
  lemma EncodeInjective(v: Value, w: Value)
    requires WellFormed(v) && WellFormed(w) && Encodable(v) && Encodable(w)
    ensures Encode(v) == Encode(w) <==> Same(v, w)
  {
    if Same(v, w) { SameNorm(v, w); }
    if Encode(v) == Encode(w) {
      ReadEncode(v);
      ReadEncode(w);
      NormSame(v, w);
    }
  }

  // ----- parse -----

  /** A dictionary's assignment: a key already present keeps its place and takes the new value. */
  function Put(fs: seq<Field>, f: Field): seq<Field> {
    if fs == [] then [f] else if fs[0].key == f.key then [f] + fs[1..] else [fs[0]] + Put(fs[1..], f)
  }

  function Dict(fs: seq<Field>): seq<Field> {
    if fs == [] then [] else Put(Dict(fs[..|fs| - 1]), fs[|fs| - 1])
  }

  /** Every string of a value normalized; nfc stands for Unicode normalization form C. */
  function Nfc(nfc: string -> string, v: Value): Value
    decreases v, 1
  {
    match v
    case Str(s) => Str(nfc(s))
    case Arr(es) => Arr(NfcAll(nfc, es))
    case Obj(fs) => Obj(Dict(NfcFields(nfc, fs)))
    case _ => v
  }

  function NfcAll(nfc: string -> string, es: seq<Value>): (r: seq<Value>)
    ensures |r| == |es| && forall i :: 0 <= i < |es| ==> r[i] == Nfc(nfc, es[i])
    decreases es, 0
  {
    if es == [] then [] else [Nfc(nfc, es[0])] + NfcAll(nfc, es[1..])
  }

  function NfcFields(nfc: string -> string, fs: seq<Field>): (r: seq<Field>)
    ensures |r| == |fs| && forall i :: 0 <= i < |fs| ==> r[i] == Field(nfc(fs[i].key), Nfc(nfc, fs[i].value))
    decreases fs, 0
  {
    if fs == [] then [] else [Field(nfc(fs[0].key), Nfc(nfc, fs[0].value))] + NfcFields(nfc, fs[1..])
  }

  /** Every string of the value, keys included, is in normalization form C. */
  predicate AllNfc(nfc: string -> string, v: Value) {
    match v
    case Str(s) => nfc(s) == s
    case Arr(es) => forall i :: 0 <= i < |es| ==> AllNfc(nfc, es[i])
    case Obj(fs) => forall i :: 0 <= i < |fs| ==> nfc(fs[i].key) == fs[i].key && AllNfc(nfc, fs[i].value)
    case _ => true
  }

  /** parse: the value of canonical bytes, refused unless they are exactly its canonical encoding. */
  function Parse(nfc: string -> string, raw: seq<Utf8.Byte>): Option<Value> {
    match Utf8.Decode(raw)
    case None => None
    case Some(text) =>
      match Read(text)
      case None => None
      case Some(v) => if WellFormed(v) && Encode(Nfc(nfc, v)) == Some(raw) then Some(v) else None
  }

  ghost predicate Idempotent(nfc: string -> string) { forall s :: nfc(nfc(s)) == nfc(s) }

  lemma {:induction false} PutFields(fs: seq<Field>, f: Field)
    requires DistinctFields(fs)
    ensures DistinctFields(Put(fs, f))
    ensures forall g :: g in Put(fs, f) <==> g == f || (g in fs && g.key != f.key)
    ensures !HasKey(fs, f.key) ==> Put(fs, f) == fs + [f]
  {
    if fs != [] {
      var t := fs[1..];
      assert DistinctFields(t);
      assert fs == [fs[0]] + t;
      assert fs[0] in fs && forall g :: g in t ==> g in fs;
      assert forall g :: g in t ==> g.key != fs[0].key;
      PutFields(t, f);
      var p := if fs[0].key == f.key then t else Put(t, f);
      var h := if fs[0].key == f.key then f else fs[0];
      assert Put(fs, f) == [h] + p;
      assert forall g :: g in p ==> g.key != h.key;
      DistinctCons(h, p);
    }
  }

  lemma DistinctCons(h: Field, p: seq<Field>)
    requires DistinctFields(p) && forall g :: g in p ==> g.key != h.key
    ensures DistinctFields([h] + p)
  {
    var r := [h] + p;
    forall i, j | 0 <= i < j < |r| ensures r[i].key != r[j].key {
      assert r[j] == p[j - 1] && p[j - 1] in p;
      if i > 0 { assert r[i] == p[i - 1]; }
    }
  }

  /** A dictionary has each key once, and everything in it was assigned to it. */
  lemma {:induction false} DictFields(fs: seq<Field>)
    ensures DistinctFields(Dict(fs))
    ensures forall g :: g in Dict(fs) ==> g in fs
  {
    if fs != [] {
      var s, f := fs[..|fs| - 1], fs[|fs| - 1];
      DictFields(s);
      PutFields(Dict(s), f);
      assert forall g :: g in s ==> g in fs;
    }
  }

  /** Assigning distinct keys keeps every member in place. */
  lemma {:induction false} DictDistinct(fs: seq<Field>)
    requires DistinctFields(fs)
    ensures Dict(fs) == fs
  {
    if fs != [] {
      var s, f := fs[..|fs| - 1], fs[|fs| - 1];
      assert DistinctFields(s);
      DictDistinct(s);
      PutFields(s, f);
      assert !HasKey(s, f.key);
      assert fs == s + [f];
    }
  }

  /** Normalizing a value that already is in form C changes nothing. */
  lemma {:induction false} NfcFixed(nfc: string -> string, v: Value)
    requires WellFormed(v) && AllNfc(nfc, v)
    ensures Nfc(nfc, v) == v
    decreases v
  {
    match v
    case Arr(es) =>
      forall i | 0 <= i < |es| ensures Nfc(nfc, es[i]) == es[i] { NfcFixed(nfc, es[i]); }
      assert NfcAll(nfc, es) == es;
    case Obj(fs) =>
      forall i | 0 <= i < |fs| ensures NfcFields(nfc, fs)[i] == fs[i] { NfcFixed(nfc, fs[i].value); }
      assert NfcFields(nfc, fs) == fs;
      DictDistinct(fs);
    case _ =>
  }

  /** A value equal to its own normalized and sorted form is in form C throughout: the keys of each object are the
      normalized keys, so every key is one of nfc's fixed points and no two were merged. */
  lemma {:induction false} FixedNfc(nfc: string -> string, v: Value)
    requires Idempotent(nfc) && WellFormed(v) && v == Norm(Nfc(nfc, v))
    ensures AllNfc(nfc, v)
    decreases v
  {
    match v
    case Arr(es) =>
      forall i | 0 <= i < |es| ensures AllNfc(nfc, es[i]) {
        assert NormAll(NfcAll(nfc, es))[i] == es[i];
        FixedNfc(nfc, es[i]);
      }
    case Obj(fs) =>
      var ns := NfcFields(nfc, fs);
      var ds := Dict(ns);
      DictFields(ns);
      forall i | 0 <= i < |fs| ensures nfc(fs[i].key) == fs[i].key {
        FixedKey(nfc, fs, i);
      }
      forall i | 0 <= i < |fs| ensures AllNfc(nfc, fs[i].value) {
        FixedField(nfc, fs, i);
        FixedNfc(nfc, fs[i].value);
      }
    case _ =>
  }

  /** Where a member of a fixed object comes from. */
  lemma FieldSource(nfc: string -> string, fs: seq<Field>, i: nat) returns (m: nat)
    requires i < |fs| && fs == Sorting.Sort(KeyLess, NormFields(Dict(NfcFields(nfc, fs))))
    ensures m < |fs| && nfc(fs[m].key) == fs[i].key && Norm(Nfc(nfc, fs[m].value)) == fs[i].value
  {
    var ns := NfcFields(nfc, fs);
    DictFields(ns);
    assert fs[i] in fs;
    var j := NormFieldIndex(Dict(ns), fs[i]);
    var f := Dict(ns)[j];
    assert f in ns;
    m :| 0 <= m < |ns| && ns[m] == f;
  }

  lemma FixedKey(nfc: string -> string, fs: seq<Field>, i: nat)
    requires Idempotent(nfc) && i < |fs| && fs == Sorting.Sort(KeyLess, NormFields(Dict(NfcFields(nfc, fs))))
    ensures nfc(fs[i].key) == fs[i].key
  {
    var m := FieldSource(nfc, fs, i);
    assert nfc(nfc(fs[m].key)) == nfc(fs[m].key);
  }

  lemma FixedField(nfc: string -> string, fs: seq<Field>, i: nat)
    requires Idempotent(nfc) && DistinctFields(fs)
    requires i < |fs| && fs == Sorting.Sort(KeyLess, NormFields(Dict(NfcFields(nfc, fs))))
    ensures Norm(Nfc(nfc, fs[i].value)) == fs[i].value
  {
    var m := FieldSource(nfc, fs, i);
    FixedKey(nfc, fs, m);
    assert m == i;
  }

  /** parse returns v exactly when v is well formed, encodable and in form C throughout with its members in key
      order, and the bytes are v's canonical encoding. */
  lemma ParseExact(nfc: string -> string, raw: seq<Utf8.Byte>, v: Value)
    requires Idempotent(nfc)
    ensures Parse(nfc, raw) == Some(v) <==>
            WellFormed(v) && AllNfc(nfc, v) && Norm(v) == v && Encode(v) == Some(raw)
  {
    if Parse(nfc, raw) == Some(v) {
      var w := Nfc(nfc, v);
      ReadEncode(w);
      assert v == Norm(w);
      FixedNfc(nfc, v);
      NfcFixed(nfc, v);
    }
    if WellFormed(v) && AllNfc(nfc, v) && Norm(v) == v && Encode(v) == Some(raw) {
      ReadEncode(v);
      NfcFixed(nfc, v);
    }
  }

  /** parse accepts one byte string for each value. */
  lemma ParseInjective(nfc: string -> string, a: seq<Utf8.Byte>, b: seq<Utf8.Byte>)
    requires Idempotent(nfc) && Parse(nfc, a).Some? && Parse(nfc, b).Some?
    ensures a == b <==> Same(Parse(nfc, a).value, Parse(nfc, b).value)
  {
    var v, w := Parse(nfc, a).value, Parse(nfc, b).value;
    ParseExact(nfc, a, v);
    ParseExact(nfc, b, w);
    EncodeInjective(v, w);
  }
}
