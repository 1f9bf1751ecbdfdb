/** What the evaluation of segments and their compiled plan mean, said on the segments' and the facts' own fields. */
module Evaluation {
  import opened Wrappers
  import opened Sql
  import opened Segments
  import opened Plan
  import PlanMeaning
  import Sorting

  // ----- one atom and one fact -----

  /** n lies within the bounds, an end of the interval only when it is closed. */
  predicate Inside(q: Asker, lo: Option<Bound>, hi: Option<Bound>, n: real)
    requires DecimalBound(q, lo) && DecimalBound(q, hi)
  {
    && (lo.Some? ==> var l := q.decimal(lo.value.text).value; l < n || (l == n && lo.value.closed))
    && (hi.Some? ==> var h := q.decimal(hi.value.text).value; n < h || (n == h && hi.value.closed))
  }

  /** The path itself, and with its subtree every path below it. */
  predicate Covers(i: TreeItem, v: string) { v == i.path || (i.mode != Exact && i.path + "/" <= v) }

  predicate Known(f: Option<Fact>) { f.Some? && f.value.Value? }

  /** The fact is known and meets the atom. */
  predicate Met(q: Asker, a: Atom, f: Option<Fact>) {
    match a
    case All => true
    case In(values) => Known(f) && f.value.value in values
    case Self => Known(f) && f.value.value == q.principal
    case Tree(items) =>
      Known(f) && f.value.value != "" && exists i :: 0 <= i < |items| && Covers(items[i], f.value.value)
    case Interval(currency, lo, hi) =>
      && Known(f) && f.value.currency == currency && Comparable(q, f.value.value, lo, hi)
      && Inside(q, lo, hi, q.decimal(f.value.value).value)
    case Unreadable => false
  }

  predicate Comparable(q: Asker, v: string, lo: Option<Bound>, hi: Option<Bound>) {
    q.decimal(v).Some? && DecimalBound(q, lo) && DecimalBound(q, hi)
  }

  /** The fact is known and does not meet the atom: null never does, and an amount only when it can be compared. */
  predicate Missed(q: Asker, a: Atom, f: Option<Fact>) {
    match a
    case All => false
    case Interval(currency, lo, hi) =>
      f == Some(NullFact)
      || (Known(f)
          && (f.value.currency != currency
              || (Comparable(q, f.value.value, lo, hi) && !Inside(q, lo, hi, q.decimal(f.value.value).value))))
    case Unreadable => f == Some(NullFact)
    case _ => f == Some(NullFact) || (Known(f) && !Met(q, a, f))
  }

  lemma AtomExactly(q: Asker, a: Atom, f: Option<Fact>)
    ensures AtomTri(q, a, f) == TRUE <==> Met(q, a, f)
    ensures AtomTri(q, a, f) == FALSE <==> Missed(q, a, f)
  {}

  // ----- segments -----

  /** The segment is the operation's, has begun at the asked instant and has not ended. */
  predicate InForce(q: Asker, s: Segment, op: string) {
    s.operation == op && s.start.Some? && s.start.value <= q.at && (s.end == Open || (s.end.Until? && q.at < s.end.t))
  }

  predicate Grants(q: Asker, s: Segment, op: string, facts: Facts) {
    InForce(q, s, op) && forall e :: e in s.atoms ==> Met(q, e.atom, FactOf(facts, e.dim))
  }

  /** The record cannot be the segment's, whatever is still to be learned about it. */
  ghost predicate Excludes(q: Asker, s: Segment, facts: Facts) {
    exists e :: e in s.atoms && Missed(q, e.atom, FactOf(facts, e.dim))
  }

  lemma SegmentExactly(q: Asker, s: Segment, op: string, facts: Facts)
    ensures Gives(q, s, op, facts, TRUE) <==> Grants(q, s, op, facts)
    ensures s.operation == op ==> (Gives(q, s, op, facts, FALSE) <==> !InForce(q, s, op) || Excludes(q, s, facts))
  {
    forall e | e in s.atoms
      ensures EntryTri(q, e, facts) == TRUE <==> Met(q, e.atom, FactOf(facts, e.dim))
      ensures EntryTri(q, e, facts) == FALSE <==> Missed(q, e.atom, FactOf(facts, e.dim))
    {
      AtomExactly(q, e.atom, FactOf(facts, e.dim));
    }
  }

  /** An operation is granted exactly by one of its segments in force whose atoms the known facts all meet. It is
      refused exactly when every one of its segments in force has an atom that a known fact does not meet. A segment
      that has not begun or has ended gives nothing and leaves nothing open. */
  lemma EntitledExactly(q: Asker, segs: seq<Segment>, op: string, facts: Facts)
    ensures EntitledTri(q, segs, op, facts) == TRUE <==> exists s :: s in segs && Grants(q, s, op, facts)
    ensures EntitledTri(q, segs, op, facts) == FALSE <==>
      forall s :: s in segs && InForce(q, s, op) ==> Excludes(q, s, facts)
  {
    forall s: Segment ensures Gives(q, s, op, facts, TRUE) <==> Grants(q, s, op, facts)
    {
      SegmentExactly(q, s, op, facts);
    }
    forall s: Segment | s.operation == op
      ensures Gives(q, s, op, facts, FALSE) <==> !InForce(q, s, op) || Excludes(q, s, facts)
    {
      SegmentExactly(q, s, op, facts);
    }
    if EntitledTri(q, segs, op, facts) == FALSE {
      forall s | s in segs && InForce(q, s, op) ensures Excludes(q, s, facts) {
        assert !Gives(q, s, op, facts, TRUE) && !Gives(q, s, op, facts, UNKNOWN);
        assert Gives(q, s, op, facts, FALSE);
      }
    } else if s :| s in segs && (Gives(q, s, op, facts, TRUE) || Gives(q, s, op, facts, UNKNOWN)) {
      assert !Gives(q, s, op, facts, FALSE);
    }
  }

  // ----- the answer for one record -----

  datatype Answer = Allowed | NotFound | PermissionDenied | Unprovable

  /** Decision.error. */
  function AnswerOf(d: Decision): Answer {
    if d.visible == FALSE then NotFound
    else if d.action == FALSE then PermissionDenied
    else if d.visible == UNKNOWN || d.action == UNKNOWN then Unprovable
    else Allowed
  }

  ghost predicate Granted(q: Asker, segs: seq<Segment>, op: string, facts: Facts) {
    exists s :: s in segs && Grants(q, s, op, facts)
  }

  ghost predicate RuledOut(q: Asker, segs: seq<Segment>, op: string, facts: Facts) {
    forall s :: s in segs && InForce(q, s, op) ==> Excludes(q, s, facts)
  }

  /** The check of one record: its answer, and the fields it may show. */
  method Check(q: Asker, r: Resource, segs: seq<Segment>, op: string, facts: Facts)
    returns (a: Answer, fields: set<string>)
    ensures a == Allowed <==> Granted(q, segs, r.viewOperation, facts) && Granted(q, segs, op, facts)
    ensures a == NotFound <==> RuledOut(q, segs, r.viewOperation, facts)
    ensures a == PermissionDenied <==> !RuledOut(q, segs, r.viewOperation, facts) && RuledOut(q, segs, op, facts)
    ensures forall f :: f in fields <==>
      && Granted(q, segs, r.viewOperation, facts) && f in r.fields && r.fields[f] != Secret
      && exists s :: s in segs && Grants(q, s, op, facts) && f in s.readFields
  {
    var d := Evaluate(q, r, segs, op, facts);
    EntitledExactly(q, segs, r.viewOperation, facts);
    EntitledExactly(q, segs, op, facts);
    forall f ensures Reads(q, segs, op, facts, f) <==>
      exists s :: s in segs && Grants(q, s, op, facts) && f in s.readFields
    {
      ReadsExactly(q, segs, op, facts, f);
    }
    a, fields := AnswerOf(d), d.fields;
  }

  lemma ReadsExactly(q: Asker, segs: seq<Segment>, op: string, facts: Facts, f: string)
    ensures Reads(q, segs, op, facts, f) <==> exists s :: s in segs && Grants(q, s, op, facts) && f in s.readFields
  {
    forall s: Segment ensures Gives(q, s, op, facts, TRUE) <==> Grants(q, s, op, facts)
    {
      SegmentExactly(q, s, op, facts);
    }
  }

  // ----- facts that are not obtained yet -----

  /** g knows all that facts knows, and perhaps more. */
  predicate Extends(facts: Facts, g: Facts) {
    forall dim :: dim in facts && !facts[dim].Unobtained? ==> dim in g && g[dim] == facts[dim]
  }

  lemma KnownStays(q: Asker, e: Entry, facts: Facts, g: Facts)
    requires Extends(facts, g)
    ensures Met(q, e.atom, FactOf(facts, e.dim)) ==> Met(q, e.atom, FactOf(g, e.dim))
    ensures Missed(q, e.atom, FactOf(facts, e.dim)) ==> Missed(q, e.atom, FactOf(g, e.dim))
  {}

  /** A definite answer stands whatever the facts that could not be obtained turn out to be. */
  lemma AnswersStand(q: Asker, r: Resource, segs: seq<Segment>, op: string, facts: Facts, g: Facts)
    requires Extends(facts, g)
    ensures EntitledTri(q, segs, op, facts) != UNKNOWN ==>
      EntitledTri(q, segs, op, g) == EntitledTri(q, segs, op, facts)
    ensures ActionTri(q, r, segs, op, facts) != UNKNOWN ==>
      ActionTri(q, r, segs, op, g) == ActionTri(q, r, segs, op, facts)
  {
    EntitledStands(q, segs, op, facts, g);
    EntitledStands(q, segs, r.viewOperation, facts, g);
  }

  lemma EntitledStands(q: Asker, segs: seq<Segment>, op: string, facts: Facts, g: Facts)
    requires Extends(facts, g)
    ensures EntitledTri(q, segs, op, facts) != UNKNOWN ==>
      EntitledTri(q, segs, op, g) == EntitledTri(q, segs, op, facts)
  {
    EntitledExactly(q, segs, op, facts);
    EntitledExactly(q, segs, op, g);
    forall s | Grants(q, s, op, facts) ensures Grants(q, s, op, g) {
      forall e | e in s.atoms ensures Met(q, e.atom, FactOf(g, e.dim)) { KnownStays(q, e, facts, g); }
    }
    forall s | Excludes(q, s, facts) ensures Excludes(q, s, g) {
      var e :| e in s.atoms && Missed(q, e.atom, FactOf(facts, e.dim));
      KnownStays(q, e, facts, g);
    }
  }

  /** Every atom that the operation's segments in force ask can be decided by what is known. */
  ghost predicate AllDecided(q: Asker, segs: seq<Segment>, op: string, facts: Facts) {
    forall s, e :: s in segs && InForce(q, s, op) && e in s.atoms ==>
      Met(q, e.atom, FactOf(facts, e.dim)) || Missed(q, e.atom, FactOf(facts, e.dim))
  }

  /** Nothing is left open when everything asked is known. */
  lemma DecidedWhenKnown(q: Asker, segs: seq<Segment>, op: string, facts: Facts)
    requires AllDecided(q, segs, op, facts)
    ensures EntitledTri(q, segs, op, facts) != UNKNOWN
  {
    EntitledExactly(q, segs, op, facts);
    forall s | s in segs && InForce(q, s, op) ensures Excludes(q, s, facts) || Grants(q, s, op, facts) {
      forall e | e in s.atoms ensures Met(q, e.atom, FactOf(facts, e.dim)) || Missed(q, e.atom, FactOf(facts, e.dim)) {}
    }
  }

  // ----- the plan -----

  lemma ActiveInForce(q: Asker, segs: seq<Segment>, op: string)
    ensures forall s :: s in Active(segs, op, q.at) <==> s in segs && InForce(q, s, op)
  {}

  /** Whatever a plan selects, from whatever table, is selected by a segment of the view operation in force at the asked
      instant, and by one of the operation's own. */
  lemma SelectedInForce(q: Asker, r: Resource, segs: seq<Segment>, op: string, base: nat, db: Db, row: Row,
      env: seq<Arg>)
    requires PlanOf(q, r, segs, op, base).Some? && Selects(db, row, env, PlanOf(q, r, segs, op, base).value.where)
    ensures exists s :: s in segs && InForce(q, s, r.viewOperation)
    ensures exists s :: s in segs && InForce(q, s, op)
  {
    var c := Context(r, q.principal, base);
    var view := SegmentsStep(c, Active(segs, r.viewOperation, q.at), []);
    ActiveInForce(q, segs, r.viewOperation);
    ActiveInForce(q, segs, op);
    if op != r.viewOperation {
      var ops := SegmentsStep(c, Active(segs, op, q.at), view.args);
      PlanMeaning.BothSelect(db, row, env, OrAll(view.parts), OrAll(ops.parts));
      PlanMeaning.OrIndex(db, row, env, ops.parts);
      assert Active(segs, op, q.at)[0] in Active(segs, op, q.at);
    }
    PlanMeaning.OrIndex(db, row, env, view.parts);
    assert Active(segs, r.viewOperation, q.at)[0] in Active(segs, r.viewOperation, q.at);
  }

  /** A plan selects a row exactly when a segment in force grants viewing it and one grants the operation. */
  lemma SelectsExactly(q: Asker, r: Resource, segs: seq<Segment>, op: string, base: nat, db: Db, row: Row,
      env: seq<Arg>, facts: Facts)
    requires PlanMeaning.AllCompilable(q, db, r, segs, op, facts)
    requires PlanMeaning.ReadsDecimals(q, db) && PlanMeaning.RowFacts(q, r, row, facts)
    requires PlanOf(q, r, segs, op, base).Some?
    requires PlanMeaning.Sees(env, base, PlanOf(q, r, segs, op, base).value.args)
    ensures Selects(db, row, env, PlanOf(q, r, segs, op, base).value.where) <==>
      Granted(q, segs, r.viewOperation, facts) && Granted(q, segs, op, facts)
  {
    PlanMeaning.PlanSelects(q, r, segs, op, base, db, row, env, facts);
    EntitledExactly(q, segs, r.viewOperation, facts);
    EntitledExactly(q, segs, op, facts);
  }

  /** A row's hit bits show a field exactly when it is no secret and a segment in force that grants the operation
      reads it. */
  lemma HitsExactly(q: Asker, r: Resource, segs: seq<Segment>, op: string, base: nat, db: Db, row: Row, env: seq<Arg>,
      facts: Facts, f: string)
    requires PlanMeaning.AllCompilable(q, db, r, segs, op, facts)
    requires PlanMeaning.ReadsDecimals(q, db) && PlanMeaning.RowFacts(q, r, row, facts)
    requires PlanOf(q, r, segs, op, base).Some?
    requires PlanMeaning.Sees(env, base, PlanOf(q, r, segs, op, base).value.args)
    ensures var p := PlanOf(q, r, segs, op, base).value;
      FieldSeen(p, Bitmap(db, row, env, p.hits), f) <==>
        && f in r.fields && r.fields[f] != Secret
        && exists s :: s in segs && Grants(q, s, op, facts) && f in s.readFields
  {
    PlanMeaning.PlanFields(q, r, segs, op, base, db, row, env, facts, f);
    ReadsExactly(q, segs, op, facts, f);
  }

  lemma OrFalseIsBoolean(db: Db, row: Row, env: seq<Arg>, p: Pred)
    ensures var hit := OrFalse(p); Eval(db, row, env, hit) == if Selects(db, row, env, hit) then T else F
  {}

  /** Every bit of a row's hit bitmap is a boolean: where a column is NULL its predicate is no hit, and never NULL. */
  lemma HitsAreBooleans(q: Asker, r: Resource, segs: seq<Segment>, op: string, base: nat, db: Db, row: Row,
      env: seq<Arg>, j: nat)
    requires PlanOf(q, r, segs, op, base).Some? && j < |PlanOf(q, r, segs, op, base).value.hits|
    ensures var hit := PlanOf(q, r, segs, op, base).value.hits[j];
      Eval(db, row, env, hit) == if Selects(db, row, env, hit) then T else F
  {
    var c := Context(r, q.principal, base);
    var view := SegmentsStep(c, Active(segs, r.viewOperation, q.at), []);
    var preds := if op == r.viewOperation then view.parts
      else SegmentsStep(c, Active(segs, op, q.at), view.args).parts;
    assert PlanOf(q, r, segs, op, base).value.hits == Hits(preds);
    assert Hits(preds)[j] == OrFalse(preds[j]);
    OrFalseIsBoolean(db, row, env, preds[j]);
  }

  /** A field is readable everywhere in a list exactly when it is no secret, the operation has segments in force, and
      every one of them reads it. */
  lemma EverywhereExactly(q: Asker, r: Resource, segs: seq<Segment>, op: string, base: nat, name: string)
    requires PlanOf(q, r, segs, op, base).Some?
    ensures ReadableEverywhere(PlanOf(q, r, segs, op, base).value, name) <==>
      && name in r.fields && r.fields[name] != Secret
      && (exists s :: s in segs && InForce(q, s, op))
      && forall s :: s in segs && InForce(q, s, op) ==> name in s.readFields
  {
    var shown := Active(segs, op, q.at);
    var p := PlanOf(q, r, segs, op, base).value;
    assert p.sets == FieldSets(r, shown);
    ActiveInForce(q, segs, op);
    if shown != [] { assert shown[0] in shown; }
    forall i | 0 <= i < |shown|
      ensures name in p.sets[i] <==> name in shown[i].readFields && Output(r, name)
      ensures shown[i] in segs && InForce(q, shown[i], op)
    {
      assert shown[i] in shown;
    }
    if ReadableEverywhere(p, name) {
      forall s | s in segs && InForce(q, s, op) ensures name in s.readFields {
        var i :| 0 <= i < |shown| && shown[i] == s;
      }
    }
  }

  // ----- what cannot be compiled -----

  /** The database cannot decide the atom: its dimension is unknown or not in the database, or its kind is unknown. */
  predicate Stuck(r: Resource, e: Entry) {
    || e.dim !in r.dimensions
    || (!e.atom.All? && (r.dimensions[e.dim].pushdown == NotPushdownable || e.atom.Unreadable?))
  }

  lemma {:induction false} EntriesStuck(c: Context, es: seq<Entry>, args: seq<Arg>)
    ensures EntriesStep(c, es, args).Refused? <==> exists e :: e in es && Stuck(c.r, e)
    decreases es
  {
    if es != [] {
      assert AtomStep(c, es[0].dim, es[0].atom, args).Refused? <==> Stuck(c.r, es[0]);
      assert es == [es[0]] + es[1..];
      if AtomStep(c, es[0].dim, es[0].atom, args).Done? {
        EntriesStuck(c, es[1..], AtomStep(c, es[0].dim, es[0].atom, args).args);
      }
    }
  }

  lemma SegmentStuck(c: Context, s: Segment, args: seq<Arg>)
    ensures SegmentStep(c, s, args).Refused? <==> exists e :: e in s.atoms && Stuck(c.r, e)
  {
    Sorting.SortElements(DimLess, s.atoms);
    EntriesStuck(c, Sorting.Sort(DimLess, s.atoms), args);
  }

  lemma {:induction false} SegmentsStuck(c: Context, segs: seq<Segment>, args: seq<Arg>)
    ensures SegmentsStep(c, segs, args).Refused? <==> exists s, e :: s in segs && e in s.atoms && Stuck(c.r, e)
    decreases segs
  {
    if segs != [] {
      SegmentStuck(c, segs[0], args);
      assert segs == [segs[0]] + segs[1..];
      if SegmentStep(c, segs[0], args).Done? { SegmentsStuck(c, segs[1..], SegmentStep(c, segs[0], args).args); }
    }
  }

  /** A list is refused exactly when a segment in force of the operation, or of viewing, has an atom that the database
      cannot decide; such a segment is never dropped. */
  lemma RefusedExactly(q: Asker, r: Resource, segs: seq<Segment>, op: string, base: nat)
    ensures PlanOf(q, r, segs, op, base).None? <==>
      exists s, e :: s in segs && (InForce(q, s, r.viewOperation) || InForce(q, s, op)) && e in s.atoms && Stuck(r, e)
  {
    var c := Context(r, q.principal, base);
    var view := SegmentsStep(c, Active(segs, r.viewOperation, q.at), []);
    ActiveInForce(q, segs, r.viewOperation);
    ActiveInForce(q, segs, op);
    SegmentsStuck(c, Active(segs, r.viewOperation, q.at), []);
    if view.Done? && op != r.viewOperation { SegmentsStuck(c, Active(segs, op, q.at), view.args); }
  }

  // ----- which segments a resource accepts -----

  function Dims(es: seq<Entry>): set<string> { set e | e in es :: e.dim }

  lemma RestDistinct(es: seq<Entry>)
    requires DistinctDims(es) && es != []
    ensures DistinctDims(es[1..]) && es[0].dim !in Dims(es[1..])
  {
    forall k | 0 <= k < |es[1..]| ensures es[1..][k] == es[k + 1] && es[1..][k].dim != es[0].dim {}
  }

  lemma DimsHead(es: seq<Entry>)
    requires es != []
    ensures Dims(es) == {es[0].dim} + Dims(es[1..])
  {
    assert forall e :: e in es <==> e == es[0] || e in es[1..] by { assert es == [es[0]] + es[1..]; }
  }

  lemma {:induction false} DimsCount(es: seq<Entry>)
    requires DistinctDims(es)
    ensures |Dims(es)| == |es|
  {
    if es != [] {
      RestDistinct(es);
      DimsHead(es);
      DimsCount(es[1..]);
    }
  }

  lemma SubsetAll(a: set<string>, b: set<string>)
    requires a <= b && |a| == |b|
    ensures a == b
  {
    if x :| x in b && x !in a {
      assert a <= b - {x};
      Smaller(a, b - {x});
    }
  }

  lemma {:induction false} Smaller(a: set<string>, b: set<string>)
    requires a <= b
    ensures |a| <= |b|
    decreases b
  {
    if x :| x in a { Smaller(a - {x}, b - {x}); }
  }

  /** The atom may stand on a dimension of that kind. */
  predicate MayStand(d: Dimension, a: Atom) {
    match d.kind
    case ValueSet => a.All? || a.In?
    case OrgTree => a.All? || a.In? || a.Tree?
    case Principal => a.All? || a.In? || a.Self?
    case Amount => a.All? || a.In? || (a.Interval? && !(a.lo.None? && a.hi.None?))
  }

  /** A resource accepts a segment exactly when every dimension it declares has one atom and no other dimension has any,
      each of a kind the dimension allows: no dimension is left unconstrained by being left out. */
  lemma FitsExactly(r: Resource, s: Segment)
    ensures Fits(r, s) <==>
      && DistinctDims(s.atoms)
      && (forall dim :: dim in r.dimensions <==> exists e :: e in s.atoms && e.dim == dim)
      && forall e :: e in s.atoms && e.dim in r.dimensions ==> MayStand(r.dimensions[e.dim], e.atom)
  {
    if DistinctDims(s.atoms) { DimsCount(s.atoms); }
    var dims := Dims(s.atoms);
    assert forall dim :: dim in dims <==> exists e :: e in s.atoms && e.dim == dim;
    if Fits(r, s) {
      assert dims <= r.dimensions.Keys;
      SubsetAll(dims, r.dimensions.Keys);
    } else if DistinctDims(s.atoms) && forall dim :: dim in r.dimensions <==> dim in dims {
      assert dims == r.dimensions.Keys;
      assert forall e :: e in s.atoms ==> e.dim in dims;
    }
  }
}
