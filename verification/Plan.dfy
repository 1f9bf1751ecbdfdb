/** Compiling segments into a list's SQL (besdk/authz/plan.py), and its agreement with the evaluation of one record. */
module Plan {
  import opened Wrappers
  import opened Sql
  import opened Segments
  import Canon
  import Sorting

  // ----- LIKE on an escaped path -----

  function Replace(s: string, c: char, text: string): string {
    if s == "" then "" else (if s[0] == c then text else [s[0]]) + Replace(s[1..], c, text)
  }

  /** The three replacements one after the other, the backslash first. */
  function LikeEscape(s: string): string {
    Replace(Replace(Replace(s, '\\', "\\\\"), '%', "\\%"), '_', "\\_")
  }

  function EscapeOne(c: char): string {
    if c == '\\' || c == '%' || c == '_' then ['\\', c] else [c]
  }

  function EscapeEach(s: string): string {
    if s == "" then "" else EscapeOne(s[0]) + EscapeEach(s[1..])
  }

  lemma {:induction false} ReplaceConcat(s: string, t: string, c: char, text: string)
    ensures Replace(s + t, c, text) == Replace(s, c, text) + Replace(t, c, text)
  {
    if s == "" {
      assert s + t == t;
    } else {
      assert (s + t)[1..] == s[1..] + t;
      ReplaceConcat(s[1..], t, c, text);
    }
  }

  lemma ReplaceOne(c: char, d: char, text: string)
    ensures Replace([c], d, text) == if c == d then text else [c]
  {
    assert [c][1..] == "";
    assert text + "" == text;
  }

  lemma EscapeOneChar(c: char)
    ensures LikeEscape([c]) == EscapeOne(c)
  {
    ReplaceOne(c, '\\', "\\\\");
    ReplaceOne(c, '%', "\\%");
    ReplaceOne(c, '_', "\\_");
    if c == '\\' {
      var b := "\\";
      assert "\\\\" == b + b;
      ReplaceConcat(b, b, '%', "\\%");
      ReplaceConcat(b, b, '_', "\\_");
    } else if c == '%' {
      assert "\\%" == "\\" + "%";
      ReplaceConcat("\\", "%", '_', "\\_");
      ReplaceOne('\\', '_', "\\_");
    }
  }

  /** No replacement touches what an earlier one wrote. */
  lemma {:induction false} EscapesEach(s: string)
    ensures LikeEscape(s) == EscapeEach(s)
  {
    if s != "" {
      var h, t := [s[0]], s[1..];
      assert s == h + t;
      ReplaceConcat(h, t, '\\', "\\\\");
      var a, b := Replace(h, '\\', "\\\\"), Replace(t, '\\', "\\\\");
      ReplaceConcat(a, b, '%', "\\%");
      ReplaceConcat(Replace(a, '%', "\\%"), Replace(b, '%', "\\%"), '_', "\\_");
      EscapeOneChar(s[0]);
      EscapesEach(t);
    }
  }

  lemma {:induction false} PercentMatchesAll(v: string)
    ensures LikeMatch(v, "%")
  {
    assert "%"[1..] == "";
    if v != "" { PercentMatchesAll(v[1..]); }
  }

  lemma {:induction false} EachMatchesPrefix(v: string, p: string)
    ensures LikeMatch(v, EscapeEach(p) + "/%") <==> p + "/" <= v
  {
    var pattern := EscapeEach(p) + "/%";
    if p == "" {
      assert pattern == "/%" && p + "/" == "/" && "/%"[1..] == "%";
      if v != "" { PercentMatchesAll(v[1..]); }
    } else {
      var more := EscapeEach(p[1..]) + "/%";
      assert pattern == EscapeOne(p[0]) + more;
      if v == "" {
        assert !(p + "/" <= v);
      } else {
        EachMatchesPrefix(v[1..], p[1..]);
        assert p + "/" == [p[0]] + (p[1..] + "/");
        assert v == [v[0]] + v[1..];
        assert EscapeOne(p[0]) == [p[0]] ==> pattern[1..] == more;
        assert EscapeOne(p[0]) == ['\\', p[0]] ==> pattern[2..] == more;
        assert LikeMatch(v, pattern) <==> v[0] == p[0] && LikeMatch(v[1..], more);
      }
    }
  }

  /** LIKE on the escaped path with "/%" is exactly the test for a path below it, whatever characters the path has. */
  lemma LikeIsSubtree(v: string, path: string)
    ensures LikeMatch(v, LikeEscape(path) + "/%") <==> path + "/" <= v
  {
    EscapesEach(path);
    EachMatchesPrefix(v, path);
  }

  // ----- the compilation -----

  /** Conjuncts (none for an atom that allows everything) and the arguments so far, or QUERY_NOT_COMPLETABLE. */
  datatype Step = Done(parts: seq<Pred>, args: seq<Arg>) | Refused

  datatype ListPlan = ListPlan(where: Pred, args: seq<Arg>, hits: seq<Pred>, sets: seq<seq<string>>)

  datatype Context = Context(r: Resource, principal: string, base: nat)

  function ColumnKind(d: Dimension): Kind { if d.kind == Amount then Numeric else TextKind }

  function TreeParts(c: Context, col: string, items: seq<TreeItem>, args: seq<Arg>): (s: Step)
    ensures s.Done? && args <= s.args
  {
    if items == [] then Done([], args)
    else
      var ph := c.base + |args| + 1;
      var equal := Compare(col, EQ, ph, TextKind);
      var first :=
        if items[0].mode == Subtree
        then Done([Or([equal, Like(col, ph + 1)])], args + [One(items[0].path), One(LikeEscape(items[0].path) + "/%")])
        else Done([equal], args + [One(items[0].path)]);
      var rest := TreeParts(c, col, items[1..], first.args);
      Done(first.parts + rest.parts, rest.args)
  }

  function BoundParts(c: Context, col: string, b: Option<Bound>, closed: Op, open: Op, args: seq<Arg>): (s: Step)
    ensures s.Done? && args <= s.args
  {
    match b
    case None => Done([], args)
    case Some(x) =>
      Done([Compare(col, if x.closed then closed else open, c.base + |args| + 1, Numeric)], args + [One(x.text)])
  }

  function AtomStep(c: Context, dim: string, a: Atom, args: seq<Arg>): (s: Step)
    ensures s.Done? ==> args <= s.args
  {
    if dim !in c.r.dimensions then Refused
    else
      var d := c.r.dimensions[dim];
      var col := d.column;
      var ph := c.base + |args| + 1;
      if a.All? then Done([], args)
      else if d.pushdown == NotPushdownable then Refused
      else
        match a
        case In(values) =>
          if values == [] then Done([False], args)
          else Done([AnyOf(col, ph, ColumnKind(d))], args + [Many(values)])
        case Self => Done([Compare(col, EQ, ph, TextKind)], args + [One(c.principal)])
        case Tree(items) =>
          var t := TreeParts(c, col, items, args);
          Done([if items == [] then False else Or(t.parts)], t.args)
        case Interval(currency, lo, hi) =>
          var head := [NotNull(col), Compare(d.currencyColumn, EQ, ph, TextKind)];
          var l := BoundParts(c, col, lo, GE, GT, args + [One(currency)]);
          var h := BoundParts(c, col, hi, LE, LT, l.args);
          Done([And(head + l.parts + h.parts)], h.args)
        case _ => Refused
  }

  function EntriesStep(c: Context, es: seq<Entry>, args: seq<Arg>): (s: Step)
    ensures s.Done? ==> args <= s.args
  {
    if es == [] then Done([], args)
    else
      match AtomStep(c, es[0].dim, es[0].atom, args)
      case Refused => Refused
      case Done(parts, args1) =>
        match EntriesStep(c, es[1..], args1)
        case Refused => Refused
        case Done(more, args2) => Done(parts + more, args2)
  }

  function Codes(s: string): seq<int> { seq(|s|, i requires 0 <= i < |s| => s[i] as int) }

  predicate DimLess(e: Entry, f: Entry) { Canon.LexLess(Codes(e.dim), Codes(f.dim)) }

  /** One segment as one predicate: its atoms in the order of the dimensions' names. */
  function SegmentStep(c: Context, s: Segment, args: seq<Arg>): (r: Step)
    ensures r.Done? ==> args <= r.args && |r.parts| == 1
  {
    match EntriesStep(c, Sorting.Sort(DimLess, s.atoms), args)
    case Refused => Refused
    case Done(parts, args1) => Done([if parts == [] then True else And(parts)], args1)
  }

  function SegmentsStep(c: Context, segs: seq<Segment>, args: seq<Arg>): (r: Step)
    ensures r.Done? ==> args <= r.args && |r.parts| == |segs|
  {
    if segs == [] then Done([], args)
    else
      match SegmentStep(c, segs[0], args)
      case Refused => Refused
      case Done(parts, args1) =>
        match SegmentsStep(c, segs[1..], args1)
        case Refused => Refused
        case Done(more, args2) => Done(parts + more, args2)
  }

  function OrAll(preds: seq<Pred>): Pred { if preds == [] then False else Or(preds) }

  function Active(segs: seq<Segment>, op: string, at: int): (r: seq<Segment>)
    ensures forall s :: s in r <==> s in segs && s.operation == op && ActiveAt(s, at)
  {
    if segs == [] then []
    else (if segs[0].operation == op && ActiveAt(segs[0], at) then [segs[0]] else []) + Active(segs[1..], op, at)
  }

  function OutputFields(r: Resource, fs: seq<string>): (o: seq<string>)
    ensures forall f :: f in o <==> f in fs && Output(r, f)
  {
    if fs == [] then [] else (if Output(r, fs[0]) then [fs[0]] else []) + OutputFields(r, fs[1..])
  }

  function FieldSets(r: Resource, segs: seq<Segment>): (sets: seq<seq<string>>)
    ensures |sets| == |segs| && forall i :: 0 <= i < |segs| ==> sets[i] == OutputFields(r, segs[i].readFields)
  {
    if segs == [] then [] else [OutputFields(r, segs[0].readFields)] + FieldSets(r, segs[1..])
  }

  function Hits(preds: seq<Pred>): (hs: seq<Pred>)
    ensures |hs| == |preds| && forall i :: 0 <= i < |preds| ==> hs[i] == OrFalse(preds[i])
  {
    if preds == [] then [] else [OrFalse(preds[0])] + Hits(preds[1..])
  }

  /** compile_plan: visible segments, and for another operation than view also the operation's own. */
  function PlanOf(q: Asker, r: Resource, segs: seq<Segment>, op: string, base: nat): Option<ListPlan> {
    var c := Context(r, q.principal, base);
    var view := Active(segs, r.viewOperation, q.at);
    match SegmentsStep(c, view, [])
    case Refused => None
    case Done(viewPreds, args) =>
      if op == r.viewOperation then Some(ListPlan(OrAll(viewPreds), args, Hits(viewPreds), FieldSets(r, view)))
      else
        var ops := Active(segs, op, q.at);
        match SegmentsStep(c, ops, args)
        case Refused => None
        case Done(opPreds, args2) =>
          Some(ListPlan(And([OrAll(viewPreds), OrAll(opPreds)]), args2, Hits(opPreds), FieldSets(r, ops)))
  }

  // ----- the plan's answers -----

  /** A row's hit bitmap: each bit is the value of one hit expression. */
  function Bitmap(db: Db, row: Row, args: seq<Arg>, hits: seq<Pred>): (bits: seq<bool>)
    ensures |bits| == |hits| && forall i :: 0 <= i < |hits| ==> bits[i] == Selects(db, row, args, hits[i])
  {
    if hits == [] then [] else [Selects(db, row, args, hits[0])] + Bitmap(db, row, args, hits[1..])
  }

  /** Plan.fields: the union of the sets whose bit is set. */
  method Fields(p: ListPlan, bits: seq<bool>) returns (seen: set<string>)
    ensures forall f :: f in seen <==> FieldSeen(p, bits, f)
  {
    seen := {};
    for i := 0 to |bits|
      invariant forall f :: f in seen <==> exists j :: 0 <= j < i && j < |p.sets| && bits[j] && f in p.sets[j]
    {
      if bits[i] && i < |p.sets| {
        seen := seen + set f | f in p.sets[i];
      }
    }
  }

  ghost predicate FieldSeen(p: ListPlan, bits: seq<bool>, f: string) {
    exists j :: 0 <= j < |bits| && j < |p.sets| && bits[j] && f in p.sets[j]
  }

  /** Plan.readable_where: some hit whose set has the field. */
  function ReadableWhere(p: ListPlan, name: string): Pred
    requires |p.hits| == |p.sets|
  {
    OrAll(Reading(p.hits, p.sets, name))
  }

  function Reading(hits: seq<Pred>, sets: seq<seq<string>>, name: string): (r: seq<Pred>)
    requires |hits| == |sets|
    ensures forall q :: q in r <==> exists j :: 0 <= j < |hits| && q == hits[j] && name in sets[j]
  {
    if hits == [] then []
    else
      var rest := Reading(hits[1..], sets[1..], name);
      var first := if name in sets[0] then [hits[0]] else [];
      ReadingStep(hits, sets, name, first, rest);
      first + rest
  }

  lemma ReadingStep(hits: seq<Pred>, sets: seq<seq<string>>, name: string, first: seq<Pred>, rest: seq<Pred>)
    requires |hits| == |sets| && hits != []
    requires first == if name in sets[0] then [hits[0]] else []
    requires forall q :: q in rest <==> exists j :: 0 <= j < |hits[1..]| && q == hits[1..][j] && name in sets[1..][j]
    ensures forall q :: q in first + rest <==> exists j :: 0 <= j < |hits| && q == hits[j] && name in sets[j]
  {
    forall q ensures q in first + rest <==> exists j :: 0 <= j < |hits| && q == hits[j] && name in sets[j] {
      if q in rest {
        var j :| 0 <= j < |hits[1..]| && q == hits[1..][j] && name in sets[1..][j];
        assert q == hits[j + 1] && name in sets[j + 1];
      }
      if j :| 0 <= j < |hits| && q == hits[j] && name in sets[j] {
        if j > 0 { assert q == hits[1..][j - 1] && name in sets[1..][j - 1]; }
      }
    }
  }

  /** Plan.readable_everywhere: every segment of the plan reads the field, and there is one. */
  predicate ReadableEverywhere(p: ListPlan, name: string) {
    p.sets != [] && forall i :: 0 <= i < |p.sets| ==> name in p.sets[i]
  }
}
