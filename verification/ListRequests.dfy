/** What a list request gets, said on the request's own fields and the list's declaration (besdk/lists.py, build). */
module ListRequests {
  import opened Wrappers
  import opened Sql
  import opened ListOrder
  import opened Paging
  import opened Plan
  import opened Lists
  import opened ListMeaning
  import Canon
  import Cursor
  import Evaluation
  import PlanMeaning
  import Segments
  import Sorting

  // ----- the requested order -----

  function ColumnOf(spec: Spec, field: string): string {
    if field in spec.columns then spec.columns[field].column else ""
  }

  /** Two rows have the same value in a field. */
  predicate SameIn(spec: Spec, field: string, a: Row, b: Row) {
    ValOf(a, ColumnOf(spec, field)) == ValOf(b, ColumnOf(spec, field))
  }

  /** The rows agree on the fields before position p; there the earlier row has the lower value when the field is
      asked ascending and the higher one when it is asked descending. When all fields agree the lower ID is earlier. */
  predicate Earlier(db: Db, spec: Spec, sort: seq<SortBy>, p: nat, a: Row, b: Row)
    requires p <= |sort|
  {
    && (forall k :: 0 <= k < p ==> SameIn(spec, sort[k].field, a, b))
    && if p == |sort| then Less(db, ValOf(a, spec.idColumn), ValOf(b, spec.idColumn))
       else
         var x, y := ValOf(a, ColumnOf(spec, sort[p].field)), ValOf(b, ColumnOf(spec, sort[p].field));
         x != y && if sort[p].desc then Less(db, y, x) else Less(db, x, y)
  }

  ghost predicate ComesBefore(db: Db, spec: Spec, sort: seq<SortBy>, a: Row, b: Row) {
    exists p :: 0 <= p <= |sort| && Earlier(db, spec, sort, p, a, b)
  }

  lemma {:induction false} FirstDifference(db: Db, b: Base, spec: Spec, narrowed: seq<string>, sorts: seq<SortBy>,
      keys: seq<Key>, x: Row, y: Row)
    requires SortKeys(b, spec, narrowed, sorts) == Ok(keys)
    requires Before(db, Order(keys, spec.idColumn, spec.idKind), x, y)
    ensures ComesBefore(db, spec, sorts, x, y)
    decreases sorts
  {
    if sorts == [] {
      assert Earlier(db, spec, sorts, 0, x, y);
    } else if SameIn(spec, sorts[0].field, x, y) {
      var rest := SortKeys(b, spec, narrowed, sorts[1..]).value;
      assert keys[1..] == rest;
      FirstDifference(db, b, spec, narrowed, sorts[1..], rest, x, y);
      var p :| 0 <= p <= |sorts[1..]| && Earlier(db, spec, sorts[1..], p, x, y);
      forall k | 0 <= k < p + 1 ensures SameIn(spec, sorts[k].field, x, y) {
        if k > 0 { assert sorts[k] == sorts[1..][k - 1]; }
      }
      assert Earlier(db, spec, sorts, p + 1, x, y);
    } else {
      assert Earlier(db, spec, sorts, 0, x, y);
    }
  }

  // ----- the requested rows -----

  /** The row's value is known and stands to the filter's values as the filter's operator names it. */
  predicate Meets(db: Db, row: Row, col: Column, f: Filter) {
    match CellOf(row, col.column)
    case Null => false
    case Known(v) =>
      if f.op == "in" then exists i :: 0 <= i < |f.values| && v == db.cast(col.kind, f.values[i])
      else
        |f.values| == 1 &&
        var w := db.cast(col.kind, f.values[0]);
        || (f.op == "eq" && v == w)
        || (f.op == "gt" && Less(db, w, v))
        || (f.op == "gte" && (Less(db, w, v) || v == w))
        || (f.op == "lt" && Less(db, v, w))
        || (f.op == "lte" && (Less(db, v, w) || v == w))
  }

  /** The row is granted for viewing and for the operation, shows every field the request narrows to, and meets every
      filter; a keyword matches nothing. */
  ghost predicate Asked(db: Db, host: Host, spec: Spec, req: Request, q: Segments.Asker, r: Segments.Resource,
      segs: seq<Segments.Segment>, op: string, facts: Segments.Facts, row: Row)
  {
    && Evaluation.Granted(q, segs, r.viewOperation, facts) && Evaluation.Granted(q, segs, op, facts)
    && (forall n :: n in req.readableOnly ==> Shows(q, r, segs, op, facts, n))
    && (forall f :: f in req.filters ==> f.field in spec.columns && Meets(db, row, spec.columns[f.field], f))
    && host.words(req.q) == ""
  }

  /** A field that is no secret, read by a segment that grants the operation. */
  ghost predicate Shows(q: Segments.Asker, r: Segments.Resource, segs: seq<Segments.Segment>, op: string,
      facts: Segments.Facts, n: string)
  {
    && n in r.fields && r.fields[n] != Segments.Secret
    && exists s :: s in segs && Evaluation.Grants(q, s, op, facts) && n in s.readFields
  }

  lemma PassesExactly(db: Db, row: Row, col: Column, f: Filter)
    ensures Passes(db, row, col, f) <==> Meets(db, row, col, f)
  {}

  lemma WantedExactly(db: Db, host: Host, spec: Spec, req: Request, q: Segments.Asker, r: Segments.Resource,
      segs: seq<Segments.Segment>, op: string, factsOf: Row -> Segments.Facts, row: Row)
    ensures Wanted(db, host, spec, req, q, r, segs, op, factsOf)(row) <==>
      Asked(db, host, spec, req, q, r, segs, op, factsOf(row), row)
  {
    var facts := factsOf(row);
    Evaluation.EntitledExactly(q, segs, r.viewOperation, facts);
    Evaluation.EntitledExactly(q, segs, op, facts);
    forall n
      ensures Segments.Output(r, n) && Segments.Reads(q, segs, op, facts, n) <==> Shows(q, r, segs, op, facts, n)
    {
      Evaluation.ReadsExactly(q, segs, op, facts, n);
    }
    forall f: Filter | f.field in spec.columns
      ensures Passes(db, row, spec.columns[f.field], f) <==> Meets(db, row, spec.columns[f.field], f)
    {
      PassesExactly(db, row, spec.columns[f.field], f);
    }
  }

  ghost function AskedBy(db: Db, host: Host, spec: Spec, req: Request, q: Segments.Asker, r: Segments.Resource,
      segs: seq<Segments.Segment>, op: string, factsOf: Row -> Segments.Facts): Row -> bool
  {
    row => Asked(db, host, spec, req, q, r, segs, op, factsOf(row), row)
  }

  // ----- the pages -----

  ghost predicate InRequestedOrder(db: Db, spec: Spec, sort: seq<SortBy>, rows: seq<Row>) {
    forall i, j :: 0 <= i < j < |rows| ==> ComesBefore(db, spec, sort, rows[i], rows[j])
  }

  lemma SortedAsRequested(db: Db, host: Host, b: Base, spec: Spec, req: Request, rows: seq<Row>)
    requires WholePlan(b.plan) && ListOf(host, b, spec, req).Ok?
    requires Sorting.Sorted(By(db, ListOf(host, b, spec, req).value.order), rows)
    ensures InRequestedOrder(db, spec, req.sort, rows)
  {
    var o := ListOf(host, b, spec, req).value.order;
    var narrowed := ConditionsOf(host, b, spec, req).value.narrowed;
    forall i, j | 0 <= i < j < |rows|
      ensures ComesBefore(db, spec, req.sort, rows[i], rows[j])
    {
      assert By(db, o)(rows[i], rows[j]);
      FirstDifference(db, b, spec, narrowed, req.sort, o.keys, rows[i], rows[j]);
    }
  }

  lemma KeptAsAsked(db: Db, host: Host, spec: Spec, req: Request, q: Segments.Asker, r: Segments.Resource,
      segs: seq<Segments.Segment>, op: string, factsOf: Row -> Segments.Facts, table: seq<Row>)
    ensures Keep(Wanted(db, host, spec, req, q, r, segs, op, factsOf), table)
         == Keep(AskedBy(db, host, spec, req, q, r, segs, op, factsOf), table)
  {
    var wanted := Wanted(db, host, spec, req, q, r, segs, op, factsOf);
    var asked := AskedBy(db, host, spec, req, q, r, segs, op, factsOf);
    forall row | row in table ensures wanted(row) <==> asked(row) {
      WantedExactly(db, host, spec, req, q, r, segs, op, factsOf, row);
    }
    KeepSame(wanted, asked, table);
  }

  /** End to end, on the request alone: following a request's cursors over an unchanged table gives exactly the rows it
      asks for, each once, every two of them in the direction asked for at the first field on which they differ. */
  lemma PagesAnswer(db: Db, host: Host, b: Base, spec: Spec, req: Request, show: (Kind, Val) -> string, table: seq<Row>,
      n: nat, q: Segments.Asker, segs: seq<Segments.Segment>, op: string, factsOf: Row -> Segments.Facts)
    requires Compiled(b, q, segs, op) && WholePlan(b.plan) && ListOf(host, b, spec, req).Ok? && n > 0
    requires Sound(db, ListOf(host, b, spec, req).value.order, show, table)
    requires forall row :: row in table ==> Facing(b, q, segs, op, db, row, factsOf(row))
    requires Walk(Serve(db, host, b, spec, req, show, table), n).Ok?
    requires Walk(Serve(db, host, b, spec, req, show, table), n).value.next == ""
    ensures var rows := Walk(Serve(db, host, b, spec, req, show, table), n).value.rows;
      && InRequestedOrder(db, spec, req.sort, rows)
      && multiset(rows) == multiset(Keep(AskedBy(db, host, spec, req, q, b.r, segs, op, factsOf), table))
  {
    PagesListExactly(db, host, b, spec, req, show, table, n, q, segs, op, factsOf);
    SortedAsRequested(db, host, b, spec, req, Walk(Serve(db, host, b, spec, req, show, table), n).value.rows);
    KeptAsAsked(db, host, spec, req, q, b.r, segs, op, factsOf, table);
  }

  // ----- what is refused -----

  /** A filter or sort by the field reveals nothing: it is open to all, the list is narrowed to the rows that show it,
      or every segment the plan shows fields by reads it. */
  predicate Open(b: Base, req: Request, field: string) {
    || field !in b.r.fields || b.r.fields[field] == Segments.Ordinary || field in req.readableOnly
    || ReadableEverywhere(b.plan, field)
  }

  predicate FilterOk(b: Base, spec: Spec, req: Request, f: Filter) {
    && f.field in spec.columns && spec.columns[f.field].filterable && Open(b, req, f.field)
    && (f.op == "in" || (f.op in {"eq", "gt", "gte", "lt", "lte"} && |f.values| == 1))
  }

  predicate SortOk(b: Base, spec: Spec, req: Request, s: SortBy) {
    s.field in spec.columns && spec.columns[s.field].sortable && Open(b, req, s.field)
  }

  lemma {:induction false} NarrowAccepts(b: Base, c: Conditions, names: seq<string>)
    requires WholePlan(b.plan)
    ensures Narrow(b, c, names).Ok? <==> forall n :: n in names ==> n in b.r.fields && b.r.fields[n] != Segments.Secret
    ensures Narrow(b, c, names).Ok? ==>
      forall n :: n in Narrow(b, c, names).value.narrowed <==> n in c.narrowed || n in names
    decreases names
  {
    if names != [] {
      assert names == [names[0]] + names[1..];
      if Segments.Output(b.r, names[0]) {
        var c1 := if names[0] in c.narrowed then c
          else Conditions(c.parts + [ReadableWhere(b.plan, names[0])], c.args, c.narrowed + [names[0]]);
        NarrowAccepts(b, c1, names[1..]);
      }
    }
  }

  lemma {:induction false} FiltersAccept(b: Base, spec: Spec, req: Request, c: Conditions, fs: seq<Filter>)
    requires forall n :: n in c.narrowed <==> n in req.readableOnly
    ensures AddFilters(b, spec, c, fs).Ok? <==> forall f :: f in fs ==> FilterOk(b, spec, req, f)
    ensures AddFilters(b, spec, c, fs).Ok? ==> AddFilters(b, spec, c, fs).value.narrowed == c.narrowed
    decreases fs
  {
    if fs != [] {
      assert fs == [fs[0]] + fs[1..];
      var f := fs[0];
      assert Queryable(b, c.narrowed, f.field) <==> Open(b, req, f.field);
      if FilterOk(b, spec, req, f) {
        var step := FilterStep(spec.columns[f.field], f, c.args).value;
        FiltersAccept(b, spec, req, Conditions(c.parts + [step.0], step.1, c.narrowed), fs[1..]);
      }
    }
  }

  lemma {:induction false} SortsAccept(b: Base, spec: Spec, req: Request, narrowed: seq<string>, sorts: seq<SortBy>)
    requires forall n :: n in narrowed <==> n in req.readableOnly
    ensures SortKeys(b, spec, narrowed, sorts).Ok? <==> forall s :: s in sorts ==> SortOk(b, spec, req, s)
    decreases sorts
  {
    if sorts != [] {
      assert forall s :: s in sorts <==> s == sorts[0] || s in sorts[1..] by {
        assert sorts == [sorts[0]] + sorts[1..];
      }
      assert Queryable(b, narrowed, sorts[0].field) <==> Open(b, req, sorts[0].field);
      SortsAccept(b, spec, req, narrowed, sorts[1..]);
    }
  }

  /** A request is accepted exactly when its page size is 1 to 200 (50 when none is given), each field it narrows to is
      one the resource shows, each filter and sort names a field that may be filtered or sorted by and is open to it,
      each filter is well formed, and it searches only where the list has no search of its own. */
  lemma AcceptedExactly(host: Host, b: Base, spec: Spec, req: Request)
    requires WholePlan(b.plan)
    ensures ListOf(host, b, spec, req).Ok? <==>
      && (req.limit == 0 || 1 <= req.limit <= 200)
      && (forall n :: n in req.readableOnly ==> n in b.r.fields && b.r.fields[n] != Segments.Secret)
      && (forall f :: f in req.filters ==> FilterOk(b, spec, req, f))
      && (forall s :: s in req.sort ==> SortOk(b, spec, req, s))
      && (host.words(req.q) == "" || !spec.searches)
    ensures ListOf(host, b, spec, req).Ok? ==>
      ListOf(host, b, spec, req).value.limit == if req.limit == 0 then 50 else req.limit
  {
    var c := Conditions([b.plan.where], b.plan.args, []);
    NarrowAccepts(b, c, req.readableOnly);
    var c0 := Narrow(b, c, req.readableOnly);
    if c0.Ok? {
      FiltersAccept(b, spec, req, c0.value, req.filters);
      var c1 := AddFilters(b, spec, c0.value, req.filters);
      if c1.Ok? && AddKeyword(spec, c1.value, host.words(req.q)).Ok? {
        SortsAccept(b, spec, req, c1.value.narrowed, req.sort);
      }
    }
  }

  // ----- cursors of other requests -----

  ghost predicate Injective(host: Host) {
    forall f, q, s, n, g, r, t, m :: host.digest(f, q, s, n) == host.digest(g, r, t, m) ==>
      f == g && q == r && s == t && n == m
  }

  /** The two requests ask for the same rows in the same order. */
  ghost predicate SameQuestion(host: Host, req: Request, other: Request) {
    && req.filters == other.filters && host.words(req.q) == host.words(other.q) && req.sort == other.sort
    && forall n :: n in req.readableOnly <==> n in other.readableOnly
  }

  lemma {:induction false} NarrowDistinct(b: Base, c: Conditions, names: seq<string>)
    requires WholePlan(b.plan) && Narrow(b, c, names).Ok? && Sorting.Distinct(c.narrowed)
    ensures Sorting.Distinct(Narrow(b, c, names).value.narrowed)
    decreases names
  {
    if names != [] {
      var c1 := if names[0] in c.narrowed then c
        else Conditions(c.parts + [ReadableWhere(b.plan, names[0])], c.args, c.narrowed + [names[0]]);
      NarrowDistinct(b, c1, names[1..]);
    }
  }

  lemma CodesTell(x: string, y: string)
    requires Codes(x) == Codes(y)
    ensures x == y
  {
    assert |x| == |Codes(x)| == |y|;
    assert forall i :: 0 <= i < |x| ==> Codes(x)[i] == x[i] as int && Codes(y)[i] == y[i] as int;
  }

  lemma NamesOrdered(names: seq<string>)
    ensures Sorting.StrictOrder(NameLess) && Sorting.Comparable(NameLess, names)
  {
    forall x: string ensures !NameLess(x, x) { Canon.LexIrreflexive(Codes(x)); }
    forall x: string, y: string, z: string | NameLess(x, y) && NameLess(y, z) ensures NameLess(x, z) {
      Canon.LexTransitive(Codes(x), Codes(y), Codes(z));
    }
    forall x: string, y: string | x != y ensures NameLess(x, y) || NameLess(y, x) {
      Canon.LexTotal(Codes(x), Codes(y));
      if Codes(x) == Codes(y) { CodesTell(x, y); }
    }
  }

  /** The sorted names tell exactly which names there are. */
  lemma SortedNamesTell(a: seq<string>, b: seq<string>)
    requires Sorting.Distinct(a) && Sorting.Distinct(b)
    ensures Sorting.Sort(NameLess, a) == Sorting.Sort(NameLess, b) <==> Sorting.SameElements(a, b)
  {
    NamesOrdered(a);
    Sorting.SortElements(NameLess, a);
    Sorting.SortElements(NameLess, b);
    if Sorting.SameElements(a, b) { Sorting.SortIgnoresOrder(NameLess, a, b); }
  }

  /** The narrowed fields of an accepted request: those it names, each once. */
  lemma NarrowedOnce(host: Host, b: Base, spec: Spec, req: Request)
    requires WholePlan(b.plan) && ListOf(host, b, spec, req).Ok?
    ensures var names := ConditionsOf(host, b, spec, req).value.narrowed;
      Sorting.Distinct(names) && forall n :: n in names <==> n in req.readableOnly
  {
    var c := Conditions([b.plan.where], b.plan.args, []);
    NarrowAccepts(b, c, req.readableOnly);
    NarrowDistinct(b, c, req.readableOnly);
    FiltersAccept(b, spec, req, Narrow(b, c, req.readableOnly).value, req.filters);
  }

  /** The digest in a list's cursors tells exactly what the request asked. */
  lemma DigestTells(host: Host, b: Base, c: Base, spec: Spec, req: Request, other: Request)
    requires WholePlan(b.plan) && WholePlan(c.plan) && Injective(host)
    requires ListOf(host, b, spec, req).Ok? && ListOf(host, c, spec, other).Ok?
    ensures ListOf(host, b, spec, req).value.filter == ListOf(host, c, spec, other).value.filter <==>
      SameQuestion(host, req, other)
  {
    var m, n := ConditionsOf(host, b, spec, req).value.narrowed, ConditionsOf(host, c, spec, other).value.narrowed;
    NarrowedOnce(host, b, spec, req);
    NarrowedOnce(host, c, spec, other);
    SortedNamesTell(m, n);
    assert Sorting.SameElements(m, n) <==> forall x :: x in req.readableOnly <==> x in other.readableOnly;
  }

  lemma {:induction false} KeyCount(b: Base, spec: Spec, narrowed: seq<string>, sorts: seq<SortBy>)
    ensures SortKeys(b, spec, narrowed, sorts).Ok? ==> |SortKeys(b, spec, narrowed, sorts).value| == |sorts|
    decreases sorts
  {
    if sorts != [] { KeyCount(b, spec, narrowed, sorts[1..]); }
  }

  lemma OpensForeign(d: Cursor.Data, n: nat, filter: string, plan: string)
    requires d.filter != filter
    ensures Cursor.Open(Cursor.Token(d), n, filter, plan) == Err(Cursor.CursorInvalid)
  {
    Cursor.DecodedToken(d);
    Cursor.BodyGets(d);
    Cursor.StringsTexts(d.keys);
  }

  /** A cursor goes on only with the request it was made for: the same filters, keyword, sorts and narrowed fields,
      these in any order. Another question is refused as such, and the same one under a changed authorization asks to
      query again. */
  lemma CursorsBelong(host: Host, b: Base, made: Base, spec: Spec, req: Request, other: Request,
      show: (Kind, Val) -> string, row: Row)
    requires WholePlan(b.plan) && WholePlan(made.plan) && Injective(host)
    requires ListOf(host, b, spec, req).Ok? && ListOf(host, made, spec, other).Ok?
    ensures var token := TokenAfter(ListOf(host, made, spec, other).value, show, row);
      var asked := QueryOf(host, b, spec, req.(cursor := token));
      if !SameQuestion(host, req, other) then asked == Err(CursorRefused(Cursor.CursorInvalid))
      else if b.digest != made.digest then asked == Err(CursorRefused(Cursor.QueryPlanChanged))
      else asked.Ok?
  {
    var l, m := ListOf(host, b, spec, req).value, ListOf(host, made, spec, other).value;
    var keys := seq(|m.order.keys|, i requires 0 <= i < |m.order.keys| =>
      show(m.order.keys[i].kind, ValOf(row, m.order.keys[i].column)));
    var d := Cursor.Data(keys, show(m.order.idKind, ValOf(row, m.order.idColumn)), m.filter, m.plan);
    CursorIgnored(host, b, spec, req, Cursor.Token(d));
    DigestTells(host, b, made, spec, req, other);
    Cursor.TokenNotEmpty(d);
    if SameQuestion(host, req, other) {
      KeyCount(b, spec, ConditionsOf(host, b, spec, req).value.narrowed, req.sort);
      KeyCount(made, spec, ConditionsOf(host, made, spec, other).value.narrowed, other.sort);
      Cursor.CursorRoundTrip(d, l.filter, l.plan);
    } else {
      OpensForeign(d, |l.order.keys|, l.filter, l.plan);
    }
  }
}
