/** The encoder as besdk/canon.py runs it: pieces appended to one shared list while the value is walked. */
module CanonWriter {
  import opened Wrappers
  import opened Json
  import opened Canon
  import Sorting
  import Utf8

  lemma {:induction false} ElementsSnoc(es: seq<Value>, e: Value)
    requires es != []
    ensures PrintElements(Esc, es + [e]) == PrintElements(Esc, es) + "," + Print(Esc, e)
  {
    var all := es + [e];
    assert all[0] == es[0] && all[1..] == es[1..] + [e];
    if |es| == 1 {
      assert all[1..] == [e];
    } else {
      ElementsSnoc(es[1..], e);
      var a, b, c := Print(Esc, es[0]), PrintElements(Esc, es[1..]), Print(Esc, e);
      assert a + "," + (b + "," + c) == (a + "," + b) + "," + c;
    }
  }

  lemma {:induction false} MembersSnoc(fs: seq<Field>, f: Field)
    requires fs != []
    ensures PrintMembers(Esc, fs + [f]) == PrintMembers(Esc, fs) + "," + PrintMember(Esc, f)
  {
    var all := fs + [f];
    assert all[0] == fs[0] && all[1..] == fs[1..] + [f];
    if |fs| == 1 {
      assert all[1..] == [f];
    } else {
      MembersSnoc(fs[1..], f);
      var a, b, c := PrintMember(Esc, fs[0]), PrintMembers(Esc, fs[1..]), PrintMember(Esc, f);
      assert a + "," + (b + "," + c) == (a + "," + b) + "," + c;
    }
  }

  lemma {:induction false} EscapedSnoc(s: string, c: char)
    ensures Escaped(Esc, s + [c]) == Escaped(Esc, s) + Esc(c)
  {
    var all := s + [c];
    if s != "" {
      assert all[0] == s[0] && all[1..] == s[1..] + [c];
      EscapedSnoc(s[1..], c);
      Assoc(Esc(s[0]), Escaped(Esc, s[1..]), Esc(c));
    } else {
      assert all[1..] == "";
    }
  }

  lemma {:induction false} InsertNorm(f: Field, fs: seq<Field>)
    ensures NormFields(Sorting.Insert(KeyLess, f, fs))
         == Sorting.Insert(KeyLess, Field(f.key, Norm(f.value)), NormFields(fs))
  {
    if fs != [] {
      var n := NormFields(fs);
      assert n[1..] == NormFields(fs[1..]);
      if KeyLess(f, fs[0]) {
        assert ([f] + fs)[1..] == fs;
      } else {
        InsertNorm(f, fs[1..]);
        assert ([fs[0]] + Sorting.Insert(KeyLess, f, fs[1..]))[1..] == Sorting.Insert(KeyLess, f, fs[1..]);
      }
    }
  }

  /** Sorting the members and then encoding each value is normalizing each value and then sorting. */
  lemma {:induction false} SortNorm(fs: seq<Field>)
    ensures NormFields(Sorting.Sort(KeyLess, fs)) == Sorting.Sort(KeyLess, NormFields(fs))
  {
    if fs != [] {
      SortNorm(fs[1..]);
      InsertNorm(fs[0], Sorting.Sort(KeyLess, fs[1..]));
      assert NormFields(fs)[1..] == NormFields(fs[1..]);
    }
  }

  lemma EncodableSorted(fs: seq<Field>)
    requires forall i :: 0 <= i < |fs| ==> Encodable(Sorting.Sort(KeyLess, fs)[i].value)
    ensures Encodable(Obj(fs))
  {
    Sorting.SortElements(KeyLess, fs);
    var r := Sorting.Sort(KeyLess, fs);
    forall i | 0 <= i < |fs| ensures Encodable(fs[i].value) {
      assert fs[i] in r;
      var j :| 0 <= j < |r| && r[j] == fs[i];
    }
  }

  lemma ElementsStep(open: string, norm: seq<Value>, i: nat, next: string)
    requires i < |norm|
    requires next == open + PrintElements(Esc, norm[..i]) + (if i == 0 then "" else ",") + Print(Esc, norm[i])
    ensures next == open + PrintElements(Esc, norm[..i + 1])
  {
    var done, e := norm[..i], Print(Esc, norm[i]);
    var p := PrintElements(Esc, done);
    assert norm[..i + 1] == done + [norm[i]];
    if i == 0 {
      assert done + [norm[i]] == [norm[i]];
      assert open + p + "" == open;
    } else {
      ElementsSnoc(done, norm[i]);
      Assoc(open, p, ",");
      Assoc(open, p + ",", e);
    }
  }

  lemma MembersStep(open: string, norm: seq<Field>, i: nat, next: string)
    requires i < |norm|
    requires next == open + PrintMembers(Esc, norm[..i]) + (if i == 0 then "" else ",") + PrintMember(Esc, norm[i])
    ensures next == open + PrintMembers(Esc, norm[..i + 1])
  {
    var done, m := norm[..i], PrintMember(Esc, norm[i]);
    var p := PrintMembers(Esc, done);
    assert norm[..i + 1] == done + [norm[i]];
    if i == 0 {
      assert done + [norm[i]] == [norm[i]];
      assert open + p + "" == open;
    } else {
      MembersSnoc(done, norm[i]);
      Assoc(open, p, ",");
      Assoc(open, p + ",", m);
    }
  }

  lemma Enclosed(before: string, open: string, text: string, close: string)
    ensures before + open + text + close == before + (open + text + close)
  {}

  ghost predicate ElementsDone(before: string, es: seq<Value>, i: nat, out: string) {
    && i <= |es|
    && (forall k :: 0 <= k < i ==> Encodable(es[k]))
    && out == before + PrintElements(Esc, NormAll(es)[..i])
  }

  ghost predicate ElementDone(before: string, es: seq<Value>, i: nat, out: string) {
    && i < |es|
    && Encodable(es[i])
    && out == before + (if i == 0 then "" else ",") + Print(Esc, NormAll(es)[i])
  }

  lemma StartElements(before: string, es: seq<Value>)
    ensures ElementsDone(before, es, 0, before)
  {
    assert before + "" == before;
  }

  lemma StartMembers(before: string, fs: seq<Field>)
    ensures MembersDone(before, fs, 0, before)
  {
    assert before + "" == before;
  }

  lemma ElementsGo(before: string, es: seq<Value>, i: nat, mid: string, out: string)
    requires ElementsDone(before, es, i, mid) && ElementDone(mid, es, i, out)
    ensures ElementsDone(before, es, i + 1, out)
  {
    ElementsStep(before, NormAll(es), i, out);
  }

  ghost predicate MembersDone(before: string, fs: seq<Field>, i: nat, out: string) {
    && i <= |fs|
    && (forall k :: 0 <= k < i ==> Encodable(fs[k].value))
    && out == before + PrintMembers(Esc, NormFields(fs)[..i])
  }

  ghost predicate MemberDone(before: string, fs: seq<Field>, i: nat, out: string) {
    && i < |fs|
    && Encodable(fs[i].value)
    && out == before + (if i == 0 then "" else ",") + PrintMember(Esc, NormFields(fs)[i])
  }

  lemma MembersGo(before: string, fs: seq<Field>, i: nat, mid: string, out: string)
    requires MembersDone(before, fs, i, mid) && MemberDone(mid, fs, i, out)
    ensures MembersDone(before, fs, i + 1, out)
  {
    MembersStep(before, NormFields(fs), i, out);
  }

  class Writer {
    var out: string

    constructor ()
      ensures out == ""
    {
      out := "";
    }

    method PutString(s: string)
      modifies this
      ensures out == old(out) + PrintString(Esc, s)
    {
      out := out + "\"";
      for i := 0 to |s|
        invariant out == old(out) + "\"" + Escaped(Esc, s[..i])
      {
        var ch := s[i];
        ghost var before := out;
        if ShortEscape(ch).Some? {
          out := out + ['\\', ShortEscape(ch).value];
        } else if ch as int < 0x20 {
          out := out + (['\\', 'u'] + Hex4(ch as int));
        } else {
          out := out + [ch];
        }
        assert out == before + Esc(ch);
        EscapedSnoc(s[..i], ch);
        assert s[..i + 1] == s[..i] + [ch];
      }
      assert s[..|s|] == s;
      out := out + "\"";
      Assoc(old(out) + "\"", Escaped(Esc, s), "\"");
      Assoc(old(out), "\"", Escaped(Esc, s) + "\"");
    }

    /** Appends the canonical text of v; false where the source raises Refused. */
    method PutValue(v: Value) returns (ok: bool)
      modifies this
      ensures ok == Encodable(v)
      ensures ok ==> out == old(out) + Text(v)
      decreases v, 1
    {
      match v
      case Null => return false;
      case Bool(b) =>
        out := out + if b then "true" else "false";
        return true;
      case Int(n) =>
        if n >= MAX_INT || -n >= MAX_INT { return false; }
        out := out + PrintInt(n);
        return true;
      case Float(_) => return false;
      case Str(s) =>
        PutString(s);
        return true;
      case Arr(es) =>
        ok := PutElements(es);
      case Obj(fs) =>
        ok := PutMembers(fs);
    }

    method PutElements(es: seq<Value>) returns (ok: bool)
      modifies this
      ensures ok == Encodable(Arr(es))
      ensures ok ==> out == old(out) + Text(Arr(es))
      decreases es, 3
    {
      out := out + "[";
      ok := PutAll(es);
      if !ok { return; }
      assert NormAll(es)[..|es|] == NormAll(es);
      out := out + "]";
      Enclosed(old(out), "[", PrintElements(Esc, NormAll(es)), "]");
    }

    method PutAll(es: seq<Value>) returns (ok: bool)
      modifies this
      ensures ok ==> ElementsDone(old(out), es, |es|, out)
      ensures !ok ==> !Encodable(Arr(es))
      decreases es, 2
    {
      StartElements(out, es);
      for i := 0 to |es|
        invariant ElementsDone(old(out), es, i, out)
      {
        ghost var mid := out;
        ok := PutNth(es, i);
        if !ok { return false; }
        ElementsGo(old(out), es, i, mid, out);
      }
      return true;
    }

    /** The element at i, after a comma unless it is the first. */
    method PutNth(es: seq<Value>, i: nat) returns (ok: bool)
      requires i < |es|
      modifies this
      ensures ok ==> ElementDone(old(out), es, i, out)
      ensures !ok ==> !Encodable(Arr(es))
      decreases es, 1
    {
      if i != 0 { out := out + ","; } else { assert out + "" == out; }
      ok := PutValue(es[i]);
    }

    method PutMembers(fs: seq<Field>) returns (ok: bool)
      modifies this
      ensures ok == Encodable(Obj(fs))
      ensures ok ==> out == old(out) + Text(Obj(fs))
      decreases fs, 3
    {
      var order := Sorting.Sort(KeyLess, fs);
      out := out + "{";
      Sorting.SortElements(KeyLess, fs);
      ok := PutSorted(order, fs);
      if !ok { return; }
      EncodableSorted(fs);
      SortNorm(fs);
      assert NormFields(order)[..|order|] == NormFields(order);
      out := out + "}";
      Enclosed(old(out), "{", PrintMembers(Esc, NormFields(order)), "}");
    }

    method PutSorted(order: seq<Field>, ghost fs: seq<Field>) returns (ok: bool)
      requires forall f :: f in order ==> f in fs
      modifies this
      ensures ok ==> MembersDone(old(out), order, |order|, out)
      ensures !ok ==> !Encodable(Obj(fs))
      decreases fs, 2
    {
      StartMembers(out, order);
      for i := 0 to |order|
        invariant MembersDone(old(out), order, i, out)
      {
        ghost var mid := out;
        ok := PutMember(order, i, fs);
        if !ok { return false; }
        MembersGo(old(out), order, i, mid, out);
      }
      return true;
    }

    /** The member at i, after a comma unless it is the first: its key, a colon and its value. */
    method PutMember(order: seq<Field>, i: nat, ghost fs: seq<Field>) returns (ok: bool)
      requires i < |order| && order[i] in fs
      modifies this
      ensures ok ==> MemberDone(old(out), order, i, out)
      ensures !ok ==> !Encodable(Obj(fs))
      decreases fs, 1
    {
      if i != 0 { out := out + ","; } else { assert out + "" == out; }
      ghost var sep := out;
      PutString(order[i].key);
      out := out + ":";
      ghost var j :| 0 <= j < |fs| && fs[j] == order[i];
      ok := PutValue(order[i].value);
      var k, t := PrintString(Esc, order[i].key), Text(order[i].value);
      Assoc(sep, k, ":");
      Assoc(sep, k + ":", t);
    }
  }

  /** encode: the pieces joined and encoded as UTF-8. */
  method EncodeBytes(v: Value) returns (r: Option<seq<Utf8.Byte>>)
    ensures r == Encode(v)
  {
    var w := new Writer();
    var ok := w.PutValue(v);
    if !ok { return None; }
    assert "" + Text(v) == Text(v);
    return Some(Utf8.Encode(w.out));
  }
}
