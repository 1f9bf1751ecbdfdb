/** What a compiled list means: which rows it lists, and what its filters and sorts may tell. */
module ListMeaning {
  import opened Wrappers
  import opened Sql
  import opened ListOrder
  import opened Paging
  import opened Plan
  import opened Lists
  import PlanMeaning
  import Segments
  import Sorting

  // ----- placeholders stay within the arguments -----

  ghost predicate Within(ps: seq<Pred>, n: nat) { forall p :: p in ps ==> Highest(p) <= n }

  lemma {:induction false} WithinHighest(ps: seq<Pred>, n: nat)
    ensures Within(ps, n) <==> HighestOf(ps) <= n
  {
    if ps != [] {
      WithinHighest(ps[1..], n);
      assert forall p :: p in ps <==> p == ps[0] || p in ps[1..] by { assert ps == [ps[0]] + ps[1..]; }
    }
  }

  lemma {:induction false} TreeWithin(c: Context, col: string, items: seq<Segments.TreeItem>, args: seq<Arg>)
    ensures var s := TreeParts(c, col, items, args); Within(s.parts, c.base + |s.args|)
  {
    if items != [] {
      PlanMeaning.TreeUnfold(c, col, items, args);
      var args1 := args + PlanMeaning.ItemArgs(items[0]);
      TreeWithin(c, col, items[1..], args1);
      var ph := c.base + |args| + 1;
      WithinHighest([Compare(col, EQ, ph, TextKind), Like(col, ph + 1)], ph + 1);
    }
  }

  lemma AtomWithin(c: Context, dim: string, a: Segments.Atom, args: seq<Arg>)
    ensures var s := AtomStep(c, dim, a, args); s.Done? ==> Within(s.parts, c.base + |s.args|)
  {
    var s := AtomStep(c, dim, a, args);
    if s.Done? && a.Tree? {
      var t := TreeParts(c, c.r.dimensions[dim].column, a.items, args);
      TreeWithin(c, c.r.dimensions[dim].column, a.items, args);
      WithinHighest(t.parts, c.base + |t.args|);
    } else if s.Done? && a.Interval? {
      WithinHighest(s.parts[0].ps, c.base + |s.args|);
    }
  }

  lemma {:induction false} EntriesWithin(c: Context, es: seq<Segments.Entry>, args: seq<Arg>)
    ensures var s := EntriesStep(c, es, args); s.Done? ==> Within(s.parts, c.base + |s.args|)
  {
    if es != [] && EntriesStep(c, es, args).Done? {
      AtomWithin(c, es[0].dim, es[0].atom, args);
      EntriesWithin(c, es[1..], AtomStep(c, es[0].dim, es[0].atom, args).args);
    }
  }

  lemma SegmentWithin(c: Context, s: Segments.Segment, args: seq<Arg>)
    ensures var r := SegmentStep(c, s, args); r.Done? ==> Within(r.parts, c.base + |r.args|)
  {
    var es := Sorting.Sort(DimLess, s.atoms);
    EntriesWithin(c, es, args);
    if EntriesStep(c, es, args).Done? {
      WithinHighest(EntriesStep(c, es, args).parts, c.base + |EntriesStep(c, es, args).args|);
    }
  }

  lemma {:induction false} SegmentsWithin(c: Context, segs: seq<Segments.Segment>, args: seq<Arg>)
    ensures var r := SegmentsStep(c, segs, args); r.Done? ==> Within(r.parts, c.base + |r.args|)
  {
    if segs != [] && SegmentsStep(c, segs, args).Done? {
      SegmentWithin(c, segs[0], args);
      SegmentsWithin(c, segs[1..], SegmentStep(c, segs[0], args).args);
    }
  }

  lemma OrWithin(ps: seq<Pred>, n: nat)
    requires Within(ps, n)
    ensures Highest(OrAll(ps)) <= n
  {
    WithinHighest(ps, n);
  }

  lemma HitsWithin(ps: seq<Pred>, n: nat)
    requires Within(ps, n)
    ensures Within(Hits(ps), n) && |Hits(ps)| == |ps|
  {
    forall h | h in Hits(ps) ensures Highest(h) <= n {
      var i :| 0 <= i < |ps| && Hits(ps)[i] == h;
      assert ps[i] in ps;
    }
  }

  lemma BothWithin(p: Pred, q: Pred, n: nat)
    requires Highest(p) <= n && Highest(q) <= n
    ensures Highest(And([p, q])) <= n
  {
    WithinHighest([p, q], n);
  }

  lemma ActiveWithin(c: Context, segs: seq<Segments.Segment>, args: seq<Arg>, n: nat)
    requires SegmentsStep(c, segs, args).Done? && c.base + |SegmentsStep(c, segs, args).args| <= n
    ensures Highest(OrAll(SegmentsStep(c, segs, args).parts)) <= n && Within(Hits(SegmentsStep(c, segs, args).parts), n)
  {
    SegmentsWithin(c, segs, args);
    OrWithin(SegmentsStep(c, segs, args).parts, n);
    HitsWithin(SegmentsStep(c, segs, args).parts, n);
  }

  /** No placeholder of a plan is past its arguments. */
  lemma PlanWithin(q: Segments.Asker, r: Segments.Resource, segs: seq<Segments.Segment>, op: string, base: nat)
    requires PlanOf(q, r, segs, op, base).Some?
    ensures var p := PlanOf(q, r, segs, op, base).value;
      Highest(p.where) <= base + |p.args| && Within(p.hits, base + |p.args|) && |p.hits| == |p.sets|
  {
    var c := Context(r, q.principal, base);
    var n := base + |PlanOf(q, r, segs, op, base).value.args|;
    var view := SegmentsStep(c, Active(segs, r.viewOperation, q.at), []);
    ActiveWithin(c, Active(segs, r.viewOperation, q.at), [], n);
    if op != r.viewOperation {
      var ops := SegmentsStep(c, Active(segs, op, q.at), view.args);
      ActiveWithin(c, Active(segs, op, q.at), view.args, n);
      BothWithin(OrAll(view.parts), OrAll(ops.parts), n);
    }
  }

  // ----- what each part of a request adds -----

  ghost predicate Seen(p: ListPlan, db: Db, row: Row, env: seq<Arg>, name: string) {
    FieldSeen(p, Bitmap(db, row, env, p.hits), name)
  }

  lemma Snoc(db: Db, row: Row, env: seq<Arg>, ps: seq<Pred>, p: Pred)
    ensures AllSelect(db, row, env, ps + [p]) <==> AllSelect(db, row, env, ps) && Selects(db, row, env, p)
  {
    assert forall x :: x in ps + [p] <==> x in ps || x == p;
  }

  lemma {:induction false} NarrowMeans(b: Base, c: Conditions, names: seq<string>, db: Db, row: Row, env: seq<Arg>)
    requires WholePlan(b.plan) && Narrow(b, c, names).Ok?
    ensures var d := Narrow(b, c, names).value;
      && d.args == c.args
      && (forall n :: n in d.narrowed <==> n in c.narrowed || n in names)
      && (forall n :: n in names ==> Segments.Output(b.r, n))
      && (AllSelect(db, row, env, d.parts) <==>
          AllSelect(db, row, env, c.parts)
          && forall n :: n in names && n !in c.narrowed ==> Seen(b.plan, db, row, env, n))
    decreases names
  {
    if names != [] {
      var name := names[0];
      assert forall n :: n in names <==> n == name || n in names[1..] by { assert names == [name] + names[1..]; }
      if name in c.narrowed {
        NarrowMeans(b, c, names[1..], db, row, env);
      } else {
        var c1 := Conditions(c.parts + [ReadableWhere(b.plan, name)], c.args, c.narrowed + [name]);
        NarrowMeans(b, c1, names[1..], db, row, env);
        Snoc(db, row, env, c.parts, ReadableWhere(b.plan, name));
        PlanMeaning.ReadableWhereCorrect(b.plan, name, db, row, env);
        assert forall n :: n in c1.narrowed <==> n in c.narrowed || n == name;
      }
    }
  }

  /** A row passes a filter: its value is known and stands in the asked relation to the filter's values. */
  predicate Passes(db: Db, row: Row, col: Column, f: Filter) {
    match CellOf(row, col.column)
    case Null => false
    case Known(v) =>
      if f.op == "in" then exists i :: 0 <= i < |f.values| && v == db.cast(col.kind, f.values[i])
      else OpOf(f.op).Some? && |f.values| == 1 && Holds(db, OpOf(f.op).value, v, db.cast(col.kind, f.values[0]))
  }

  function AnyDb(): Db { Db((k, s) => Text(s), (s, t) => false) }

  lemma FilterMeans(col: Column, f: Filter, args: seq<Arg>, db: Db, row: Row, env: seq<Arg>)
    requires FilterStep(col, f, args).Ok? && FilterStep(col, f, args).value.1 <= env
    ensures args <= FilterStep(col, f, args).value.1
    ensures Selects(db, row, env, FilterStep(col, f, args).value.0) <==> Passes(db, row, col, f)
    ensures Highest(FilterStep(col, f, args).value.0) <= |FilterStep(col, f, args).value.1|
  {
    var after := FilterStep(col, f, args).value.1;
    if |after| > |args| {
      assert env[|args|] == after[|args|];
      assert f.op == "in" ==> ListArg(env, |args| + 1) == f.values;
      assert f.op != "in" ==> TextArg(env, |args| + 1) == f.values[0];
    }
  }

  ghost predicate PassesAll(spec: Spec, db: Db, row: Row, fs: seq<Filter>) {
    forall f :: f in fs ==> f.field in spec.columns && Passes(db, row, spec.columns[f.field], f)
  }

  lemma {:induction false} FiltersMean(b: Base, spec: Spec, c: Conditions, fs: seq<Filter>, db: Db, row: Row,
      env: seq<Arg>)
    requires AddFilters(b, spec, c, fs).Ok? && AddFilters(b, spec, c, fs).value.args <= env
    ensures c.args <= AddFilters(b, spec, c, fs).value.args && AddFilters(b, spec, c, fs).value.narrowed == c.narrowed
    ensures forall f :: f in fs ==> Queryable(b, c.narrowed, f.field)
    ensures AllSelect(db, row, env, AddFilters(b, spec, c, fs).value.parts) <==>
      AllSelect(db, row, env, c.parts) && PassesAll(spec, db, row, fs)
    decreases fs
  {
    if fs != [] {
      var f := fs[0];
      var step := FilterStep(spec.columns[f.field], f, c.args).value;
      var c1 := Conditions(c.parts + [step.0], step.1, c.narrowed);
      assert forall x :: x in fs <==> x == f || x in fs[1..] by { assert fs == [f] + fs[1..]; }
      FiltersMean(b, spec, c1, fs[1..], db, row, env);
      FilterMeans(spec.columns[f.field], f, c.args, db, row, env);
      Snoc(db, row, env, c.parts, step.0);
    }
  }

  lemma {:induction false} FiltersWithin(b: Base, spec: Spec, c: Conditions, fs: seq<Filter>)
    requires AddFilters(b, spec, c, fs).Ok? && Within(c.parts, |c.args|)
    ensures var d := AddFilters(b, spec, c, fs).value; Within(d.parts, |d.args|)
    decreases fs
  {
    if fs != [] {
      var f := fs[0];
      var step := FilterStep(spec.columns[f.field], f, c.args).value;
      FilterMeans(spec.columns[f.field], f, c.args, AnyDb(), map[], step.1);
      FiltersWithin(b, spec, Conditions(c.parts + [step.0], step.1, c.narrowed), fs[1..]);
    }
  }

  lemma {:induction false} NarrowWithin(b: Base, c: Conditions, names: seq<string>, n: nat)
    requires WholePlan(b.plan) && Narrow(b, c, names).Ok? && Within(c.parts, n) && Within(b.plan.hits, n)
    ensures Within(Narrow(b, c, names).value.parts, n)
    decreases names
  {
    if names != [] {
      if names[0] in c.narrowed {
        NarrowWithin(b, c, names[1..], n);
      } else {
        OrWithin(Reading(b.plan.hits, b.plan.sets, names[0]), n);
        NarrowWithin(b, Conditions(c.parts + [ReadableWhere(b.plan, names[0])], c.args, c.narrowed + [names[0]]),
                     names[1..], n);
      }
    }
  }

  // ----- the whole list -----

  /** What a list stands on: a compiled plan of this subject. */
  ghost predicate Compiled(b: Base, q: Segments.Asker, segs: seq<Segments.Segment>, op: string) {
    PlanOf(q, b.r, segs, op, 0) == Some(b.plan)
  }

  lemma ListWhole(host: Host, b: Base, spec: Spec, req: Request, q: Segments.Asker, segs: seq<Segments.Segment>,
      op: string)
    requires Compiled(b, q, segs, op)
    ensures WholePlan(b.plan)
    ensures ListOf(host, b, spec, req).Ok? ==> Whole(ListOf(host, b, spec, req).value)
  {
    PlanWithin(q, b.r, segs, op, 0);
    var l := ListOf(host, b, spec, req);
    if l.Ok? {
      var start := Conditions([b.plan.where], b.plan.args, []);
      var c0 := Narrow(b, start, req.readableOnly).value;
      NarrowWithin(b, start, req.readableOnly, |b.plan.args|);
      NarrowMeans(b, start, req.readableOnly, AnyDb(), map[], []);
      FiltersWithin(b, spec, c0, req.filters);
      WithinHighest(l.value.parts, |l.value.args|);
    }
  }

  /** A request's conditions: the plan, every narrowed field readable, every filter passed, and no keyword. */
  lemma ConditionsMean(host: Host, b: Base, spec: Spec, req: Request, db: Db, row: Row)
    requires WholePlan(b.plan) && ConditionsOf(host, b, spec, req).Ok?
    ensures var c := ConditionsOf(host, b, spec, req).value;
      && b.plan.args <= c.args
      && (forall n :: n in c.narrowed <==> n in req.readableOnly)
      && (forall f :: f in req.filters ==> Queryable(b, c.narrowed, f.field))
      && (AllSelect(db, row, c.args, c.parts) <==>
          && Selects(db, row, c.args, b.plan.where)
          && (forall n :: n in req.readableOnly ==> Seen(b.plan, db, row, c.args, n))
          && PassesAll(spec, db, row, req.filters)
          && host.words(req.q) == "")
  {
    var c := ConditionsOf(host, b, spec, req).value;
    var start := Conditions([b.plan.where], b.plan.args, []);
    var c0 := Narrow(b, start, req.readableOnly).value;
    var c1 := AddFilters(b, spec, c0, req.filters).value;
    NarrowMeans(b, start, req.readableOnly, db, row, c.args);
    FiltersMean(b, spec, c0, req.filters, db, row, c.args);
    if host.words(req.q) != "" {
      Snoc(db, row, c.args, c1.parts, False);
    }
  }

  /** The rows a request may see: allowed by the evaluation, and every field it narrows to readable. */
  ghost predicate MaySee(q: Segments.Asker, r: Segments.Resource, segs: seq<Segments.Segment>, op: string,
      facts: Segments.Facts, names: seq<string>)
  {
    && Segments.ActionTri(q, r, segs, op, facts) == Segments.TRUE
    && forall n :: n in names ==> Segments.Output(r, n) && Segments.Reads(q, segs, op, facts, n)
  }

  ghost predicate Facing(b: Base, q: Segments.Asker, segs: seq<Segments.Segment>, op: string, db: Db, row: Row,
      facts: Segments.Facts)
  {
    && Compiled(b, q, segs, op) && PlanMeaning.AllCompilable(q, db, b.r, segs, op, facts)
    && PlanMeaning.ReadsDecimals(q, db) && PlanMeaning.RowFacts(q, b.r, row, facts)
  }

  /** A list selects exactly the rows that the evaluation of their facts allows, that show every field the request
      narrows to, and that pass every filter; a keyword selects nothing. */
  lemma ListsExactly(host: Host, b: Base, spec: Spec, req: Request, q: Segments.Asker, segs: seq<Segments.Segment>,
      op: string, db: Db, row: Row, facts: Segments.Facts)
    requires Facing(b, q, segs, op, db, row, facts)
    requires WholePlan(b.plan) && ListOf(host, b, spec, req).Ok?
    ensures var l := ListOf(host, b, spec, req).value;
      Selecting(db, Statement(l.parts, l.args))(row) <==>
      && MaySee(q, b.r, segs, op, facts, req.readableOnly)
      && PassesAll(spec, db, row, req.filters) && host.words(req.q) == ""
  {
    var c := ConditionsOf(host, b, spec, req).value;
    ConditionsMean(host, b, spec, req, db, row);
    AndSelects(db, row, c.args, c.parts);
    assert PlanMeaning.Sees(c.args, 0, b.plan.args);
    PlanMeaning.PlanSelects(q, b.r, segs, op, 0, db, row, c.args, facts);
    forall n | n in req.readableOnly
      ensures Seen(b.plan, db, row, c.args, n) <==> Segments.Output(b.r, n) && Segments.Reads(q, segs, op, facts, n)
    {
      PlanMeaning.PlanFields(q, b.r, segs, op, 0, db, row, c.args, facts, n);
    }
  }

  /** A field that the request filters or sorts by, and that not every caller may read, is readable in every row the
      list shows: neither the rows nor their order tell a value the caller may not read. */
  lemma NothingHiddenIsQueried(host: Host, b: Base, spec: Spec, req: Request, q: Segments.Asker,
      segs: seq<Segments.Segment>, op: string, db: Db, row: Row, facts: Segments.Facts, name: string)
    requires Facing(b, q, segs, op, db, row, facts)
    requires WholePlan(b.plan) && ListOf(host, b, spec, req).Ok?
    requires var l := ListOf(host, b, spec, req).value; Selecting(db, Statement(l.parts, l.args))(row)
    requires (exists f :: f in req.filters && f.field == name) || (exists s :: s in req.sort && s.field == name)
    requires name in b.r.fields && b.r.fields[name] != Segments.Ordinary
    ensures Segments.Output(b.r, name) && Segments.Reads(q, segs, op, facts, name)
  {
    var c := ConditionsOf(host, b, spec, req).value;
    ConditionsMean(host, b, spec, req, db, row);
    ListsExactly(host, b, spec, req, q, segs, op, db, row, facts);
    assert Queryable(b, c.narrowed, name);
    if name !in req.readableOnly {
      AndSelects(db, row, c.args, c.parts);
      assert PlanMeaning.Sees(c.args, 0, b.plan.args);
      PlanMeaning.ReadableEverywhereShows(q, b.r, segs, op, 0, db, row, c.args, name);
      PlanMeaning.PlanFields(q, b.r, segs, op, 0, db, row, c.args, facts, name);
    }
  }

  lemma SecretNowhere(b: Base, q: Segments.Asker, segs: seq<Segments.Segment>, op: string, name: string)
    requires Compiled(b, q, segs, op) && !Segments.Output(b.r, name)
    ensures !ReadableEverywhere(b.plan, name)
  {
    var shown := Active(segs, if op == b.r.viewOperation then b.r.viewOperation else op, q.at);
    assert b.plan.sets == FieldSets(b.r, shown);
    if b.plan.sets != [] { assert name !in b.plan.sets[0]; }
  }

  /** A secret field never filters, sorts or narrows a list, whoever asks. */
  lemma SecretRefused(host: Host, b: Base, spec: Spec, req: Request, q: Segments.Asker, segs: seq<Segments.Segment>,
      op: string, name: string)
    requires Compiled(b, q, segs, op) && WholePlan(b.plan)
    requires name in b.r.fields && b.r.fields[name] == Segments.Secret
    requires (exists f :: f in req.filters && f.field == name) || (exists s :: s in req.sort && s.field == name)
          || name in req.readableOnly
    ensures ListOf(host, b, spec, req).Err?
  {
    SecretNowhere(b, q, segs, op, name);
    if ListOf(host, b, spec, req).Ok? {
      NarrowMeans(b, Conditions([b.plan.where], b.plan.args, []), req.readableOnly, AnyDb(), map[], []);
      ConditionsMean(host, b, spec, req, AnyDb(), map[]);
      assert false;
    }
  }

  // ----- every page of a request -----

  /** The request's pages: each is built and read anew from its cursor. */
  function Serve(db: Db, host: Host, b: Base, spec: Spec, req: Request, show: (Kind, Val) -> string, table: seq<Row>):
      Fetcher<Refusal>
    requires WholePlan(b.plan)
  {
    cursor =>
      match QueryOf(host, b, spec, req.(cursor := cursor))
      case Err(e) => Err(e)
      case Ok(q) =>
        Ok(Cut(Answer(db, q.list.order, Selecting(db, q.statement), table), q.list.limit, Tokens(q.list, show)))
  }

  /** The rows a request asks for: it may see them and they pass its filters. */
  ghost function Wanted(db: Db, host: Host, spec: Spec, req: Request, q: Segments.Asker, r: Segments.Resource,
      segs: seq<Segments.Segment>, op: string, factsOf: Row -> Segments.Facts): Row -> bool
  {
    row => && MaySee(q, r, segs, op, factsOf(row), req.readableOnly) && PassesAll(spec, db, row, req.filters)
           && host.words(req.q) == ""
  }

  lemma {:induction false} KeepSame(f: Row -> bool, g: Row -> bool, rows: seq<Row>)
    requires forall row :: row in rows ==> (f(row) <==> g(row))
    ensures Keep(f, rows) == Keep(g, rows)
  {
    if rows != [] {
      assert forall row :: row in rows[1..] ==> row in rows;
      KeepSame(f, g, rows[1..]);
    }
  }

  lemma CursorIgnored(host: Host, b: Base, spec: Spec, req: Request, cursor: string)
    requires WholePlan(b.plan)
    ensures ListOf(host, b, spec, req.(cursor := cursor)) == ListOf(host, b, spec, req)
  {}

  lemma ServesPages(db: Db, host: Host, b: Base, spec: Spec, req: Request, show: (Kind, Val) -> string, table: seq<Row>,
      cursor: string)
    requires WholePlan(b.plan) && ListOf(host, b, spec, req).Ok?
    ensures var p := Fetch(db, ListOf(host, b, spec, req).value, show, table, cursor);
      p.Ok? ==> Serve(db, host, b, spec, req, show, table)(cursor) == Ok(p.value)
  {
    CursorIgnored(host, b, spec, req, cursor);
  }

  lemma ServeResumes(db: Db, host: Host, b: Base, spec: Spec, req: Request, show: (Kind, Val) -> string,
      table: seq<Row>)
    requires WholePlan(b.plan) && ListOf(host, b, spec, req).Ok? && Whole(ListOf(host, b, spec, req).value)
    requires Sound(db, ListOf(host, b, spec, req).value.order, show, table)
    ensures var l := ListOf(host, b, spec, req).value;
      Resumes(Serve(db, host, b, spec, req, show, table), Listing(db, l, table), l.limit, Tokens(l, show))
  {
    var l := ListOf(host, b, spec, req).value;
    var all := Listing(db, l, table);
    PagesResume(db, l, show, table);
    ServesPages(db, host, b, spec, req, show, table, "");
    forall k | 0 < k < |all|
      ensures ResumesAt(Serve(db, host, b, spec, req, show, table), all, l.limit, Tokens(l, show), k)
    {
      assert ResumesAt(Pages(db, l, show, table), all, l.limit, Tokens(l, show), k);
      ServesPages(db, host, b, spec, req, show, table, Tokens(l, show)(all[k - 1]));
    }
  }

  lemma ListingIsWanted(db: Db, host: Host, b: Base, spec: Spec, req: Request, table: seq<Row>, q: Segments.Asker,
      segs: seq<Segments.Segment>, op: string, factsOf: Row -> Segments.Facts, wanted: Row -> bool)
    requires WholePlan(b.plan) && ListOf(host, b, spec, req).Ok? && ValidDb(db)
    requires UniqueIds(ListOf(host, b, spec, req).value.order, table)
    requires forall row :: row in table ==> Facing(b, q, segs, op, db, row, factsOf(row))
    requires wanted == Wanted(db, host, spec, req, q, b.r, segs, op, factsOf)
    ensures var l := ListOf(host, b, spec, req).value;
      Sorting.Sorted(By(db, l.order), Listing(db, l, table))
      && multiset(Listing(db, l, table)) == multiset(Keep(wanted, table))
  {
    var l := ListOf(host, b, spec, req).value;
    var listed := Selecting(db, Statement(l.parts, l.args));
    forall row | row in table ensures listed(row) <==> wanted(row) {
      ListsExactly(host, b, spec, req, q, segs, op, db, row, factsOf(row));
    }
    KeepSame(listed, wanted, table);
    AnswerIs(db, l.order, listed, table);
  }

  /** End to end: following a request's cursors over an unchanged table ends, and gives each row that the subject may
      see and that passes the filters exactly once, in the request's order, and no other row. */
  lemma PagesListExactly(db: Db, host: Host, b: Base, spec: Spec, req: Request, show: (Kind, Val) -> string,
      table: seq<Row>, n: nat, q: Segments.Asker, segs: seq<Segments.Segment>, op: string,
      factsOf: Row -> Segments.Facts)
    requires Compiled(b, q, segs, op) && WholePlan(b.plan) && ListOf(host, b, spec, req).Ok? && n > 0
    requires Sound(db, ListOf(host, b, spec, req).value.order, show, table)
    requires forall row :: row in table ==> Facing(b, q, segs, op, db, row, factsOf(row))
    ensures var l := ListOf(host, b, spec, req).value; var p := Walk(Serve(db, host, b, spec, req, show, table), n);
      && p.Ok? && (p.value.next == "" <==> |Listing(db, l, table)| <= n * l.limit)
      && (p.value.next == "" ==>
          && Sorting.Sorted(By(db, l.order), p.value.rows)
          && multiset(p.value.rows) == multiset(Keep(Wanted(db, host, spec, req, q, b.r, segs, op, factsOf), table)))
  {
    var l := ListOf(host, b, spec, req).value;
    ListWhole(host, b, spec, req, q, segs, op);
    ServeResumes(db, host, b, spec, req, show, table);
    WalkEnds(Serve(db, host, b, spec, req, show, table), Listing(db, l, table), l.limit, Tokens(l, show), n);
    ListingIsWanted(db, host, b, spec, req, table, q, segs, op, factsOf,
                    Wanted(db, host, spec, req, q, b.r, segs, op, factsOf));
  }
}
