/** The compiled predicate selects exactly the rows whose facts the evaluator allows. */
module PlanMeaning {
  import opened Wrappers
  import opened Sql
  import opened Segments
  import opened Plan
  import Sorting

  // ----- a row and its facts -----

  /** The cell of a dimension's column is the record's fact: known or known to be null. */
  ghost predicate ColumnFact(q: Asker, d: Dimension, row: Row, f: Option<Fact>) {
    match CellOf(row, d.column)
    case Null => f == Some(NullFact)
    case Known(Text(v)) => d.kind != Amount && f.Some? && f.value.Value? && f.value.value == v
    case Known(Num(n)) =>
      && d.kind == Amount && f.Some? && f.value.Value? && q.decimal(f.value.value) == Some(n)
      && CellOf(row, d.currencyColumn) == Known(Text(f.value.currency))
    case _ => false
  }

  ghost predicate RowFacts(q: Asker, r: Resource, row: Row, facts: Facts) {
    forall dim :: dim in r.dimensions ==> ColumnFact(q, r.dimensions[dim], row, FactOf(facts, dim))
  }

  /** The database reads the decimal strings of the protocol as the same numbers. */
  ghost predicate ReadsDecimals(q: Asker, db: Db) {
    ValidDb(db) && forall s: string :: q.decimal(s).Some? ==> db.cast(Numeric, s) == Num(q.decimal(s).value)
  }

  /** A bound as the database reads it. */
  ghost predicate Within(db: Db, b: Option<Bound>, closed: Op, open: Op, n: real) {
    b.Some? ==> Holds(db, if b.value.closed then closed else open, Num(n), db.cast(Numeric, b.value.text))
  }

  /** The database finds the amount named by s within the bounds. */
  ghost predicate Admits(q: Asker, db: Db, lo: Option<Bound>, hi: Option<Bound>, s: string) {
    q.decimal(s).Some? && Within(db, lo, GE, GT, q.decimal(s).value) && Within(db, hi, LE, LT, q.decimal(s).value)
  }

  /** The database reads a listed text as the number that s names. */
  ghost predicate Lists(q: Asker, db: Db, values: seq<string>, s: string) {
    q.decimal(s).Some? && exists i :: 0 <= i < |values| && db.cast(Numeric, values[i]) == Num(q.decimal(s).value)
  }

  /** Where the compiled atom and its evaluation agree on a fact, exactly (AtomExact): a list on an amount has no other
      spelling of it alone, an empty path meets no item with one, and bounds are decimal strings or keep the amount
      out. */
  ghost predicate Faithful(q: Asker, db: Db, d: Dimension, a: Atom, f: Option<Fact>) {
    f.Some? && f.value.Value? ==>
      var v := f.value.value;
      match a
      case In(values) => d.kind == Amount ==> v in values || !Lists(q, db, values, v)
      case Tree(items) => v == "" ==> forall i :: 0 <= i < |items| ==> items[i].path != ""
      case Interval(currency, lo, hi) =>
        f.value.currency == currency ==> (DecimalBound(q, lo) && DecimalBound(q, hi)) || !Admits(q, db, lo, hi, v)
      case _ => true
  }

  /** A segment whose atoms their dimensions allow and that agree with the record's facts. */
  ghost predicate Compilable(q: Asker, db: Db, r: Resource, s: Segment, facts: Facts) {
    forall e :: e in s.atoms ==> EntryReady(q, db, r, e, facts)
  }

  ghost predicate EntryReady(q: Asker, db: Db, r: Resource, e: Entry, facts: Facts) {
    && e.dim in r.dimensions && AtomFits(r.dimensions[e.dim], e.atom)
    && Faithful(q, db, r.dimensions[e.dim], e.atom, FactOf(facts, e.dim))
  }

  ghost predicate OpCompilable(q: Asker, db: Db, r: Resource, segs: seq<Segment>, op: string, facts: Facts) {
    forall s :: s in Active(segs, op, q.at) ==> Compilable(q, db, r, s, facts)
  }

  /** The segments that a plan reads: the active ones of the operation and of the view operation. */
  ghost predicate AllCompilable(q: Asker, db: Db, r: Resource, segs: seq<Segment>, op: string, facts: Facts) {
    OpCompilable(q, db, r, segs, op, facts) && OpCompilable(q, db, r, segs, r.viewOperation, facts)
  }

  // ----- the statement's arguments -----

  /** The plan's arguments stand at their place among the statement's, whatever comes before and after them. */
  ghost predicate Sees(env: seq<Arg>, base: nat, args: seq<Arg>) {
    |env| >= base + |args| && env[base..base + |args|] == args
  }

  lemma SeesPrefix(env: seq<Arg>, base: nat, args: seq<Arg>, shorter: seq<Arg>)
    requires Sees(env, base, args) && shorter <= args
    ensures Sees(env, base, shorter)
  {
    assert shorter == args[..|shorter|];
    assert env[base..base + |shorter|] == env[base..base + |args|][..|shorter|];
  }

  lemma SeesArg(env: seq<Arg>, base: nat, args: seq<Arg>, k: nat)
    requires Sees(env, base, args) && k < |args|
    ensures env[base + k] == args[k]
  {
    assert env[base..base + |args|][k] == env[base + k];
  }

  // ----- one atom -----

  function ItemArgs(item: TreeItem): seq<Arg> {
    if item.mode == Subtree then [One(item.path), One(LikeEscape(item.path) + "/%")] else [One(item.path)]
  }

  function ItemPred(col: string, item: TreeItem, ph: nat): Pred {
    var equal := Compare(col, EQ, ph, TextKind);
    if item.mode == Subtree then Or([equal, Like(col, ph + 1)]) else equal
  }

  lemma TreeUnfold(c: Context, col: string, items: seq<TreeItem>, args: seq<Arg>)
    requires items != []
    ensures var rest := TreeParts(c, col, items[1..], args + ItemArgs(items[0]));
      TreeParts(c, col, items, args) == Done([ItemPred(col, items[0], c.base + |args| + 1)] + rest.parts, rest.args)
  {}

  lemma ItemCorrect(col: string, item: TreeItem, ph: nat, db: Db, row: Row, env: seq<Arg>, v: string)
    requires ValidDb(db) && CellOf(row, col) == Known(Text(v))
    requires TextArg(env, ph) == item.path
    requires item.mode == Subtree ==> TextArg(env, ph + 1) == LikeEscape(item.path) + "/%"
    ensures Selects(db, row, env, ItemPred(col, item, ph)) <==> ItemHit(item, v)
  {
    var equal := Compare(col, EQ, ph, TextKind);
    if item.mode == Subtree {
      var either := [equal, Like(col, ph + 1)];
      LikeIsSubtree(v, item.path);
      OrSelects(db, row, env, either);
      assert either[0] in either && either[1] in either;
    }
  }

  lemma {:induction false} TreeCorrect(c: Context, col: string, items: seq<TreeItem>, args: seq<Arg>,
      db: Db, row: Row, env: seq<Arg>, v: string)
    requires ValidDb(db) && CellOf(row, col) == Known(Text(v))
    requires Sees(env, c.base, TreeParts(c, col, items, args).args)
    ensures (exists p :: p in TreeParts(c, col, items, args).parts && Selects(db, row, env, p))
       <==> (exists i :: 0 <= i < |items| && ItemHit(items[i], v))
  {
    if items != [] {
      var item, ph := items[0], c.base + |args| + 1;
      var args1 := args + ItemArgs(item);
      var rest := TreeParts(c, col, items[1..], args1);
      TreeUnfold(c, col, items, args);
      SeesPrefix(env, c.base, rest.args, args1);
      SeesArg(env, c.base, args1, |args|);
      if item.mode == Subtree { SeesArg(env, c.base, args1, |args| + 1); }
      ItemCorrect(col, item, ph, db, row, env, v);
      TreeCorrect(c, col, items[1..], args1, db, row, env, v);
      ItemsSplit(items, v);
    }
  }

  lemma ItemsSplit(items: seq<TreeItem>, v: string)
    requires items != []
    ensures (exists i :: 0 <= i < |items| && ItemHit(items[i], v))
       <==> ItemHit(items[0], v) || exists i :: 0 <= i < |items[1..]| && ItemHit(items[1..][i], v)
  {
    if i :| 0 <= i < |items| && ItemHit(items[i], v) {
      if i > 0 { assert items[1..][i - 1] == items[i]; }
    }
    if i :| 0 <= i < |items[1..]| && ItemHit(items[1..][i], v) { assert items[i + 1] == items[1..][i]; }
  }

  lemma {:induction false} TreeNull(c: Context, col: string, items: seq<TreeItem>, args: seq<Arg>,
      db: Db, row: Row, env: seq<Arg>)
    requires CellOf(row, col) == Null
    ensures forall p :: p in TreeParts(c, col, items, args).parts ==> !Selects(db, row, env, p)
  {
    if items != [] {
      var ph := c.base + |args| + 1;
      OrSelects(db, row, env, [Compare(col, EQ, ph, TextKind), Like(col, ph + 1)]);
      TreeUnfold(c, col, items, args);
      TreeNull(c, col, items[1..], args + ItemArgs(items[0]), db, row, env);
    }
  }

  lemma BoundCorrect(c: Context, col: string, b: Option<Bound>, closed: Op, open: Op, args: seq<Arg>,
      db: Db, row: Row, env: seq<Arg>, n: real)
    requires CellOf(row, col) == Known(Num(n))
    requires Sees(env, c.base, BoundParts(c, col, b, closed, open, args).args)
    ensures (forall p :: p in BoundParts(c, col, b, closed, open, args).parts ==> Selects(db, row, env, p))
       <==> Within(db, b, closed, open, n)
  {
    var out := BoundParts(c, col, b, closed, open, args);
    if b.Some? {
      SeesArg(env, c.base, out.args, |args|);
      var p := Compare(col, if b.value.closed then closed else open, c.base + |args| + 1, Numeric);
      assert out.parts == [p] && p in out.parts;
      assert TextArg(env, c.base + |args| + 1) == b.value.text;
    }
  }

  lemma IntervalTrue(q: Asker, db: Db, a: Atom, f: Fact, n: real)
    requires a.Interval? && f.Value? && q.decimal(f.value) == Some(n) && DecimalBound(q, a.lo) && DecimalBound(q, a.hi)
    requires ReadsDecimals(q, db)
    ensures IntervalTri(q, a, f) == TRUE
       <==> f.currency == a.currency && Within(db, a.lo, GE, GT, n) && Within(db, a.hi, LE, LT, n)
  {}

  lemma IntervalArgs(c: Context, d: Dimension, a: Atom, args: seq<Arg>, env: seq<Arg>)
    requires a.Interval?
    requires var l := BoundParts(c, d.column, a.lo, GE, GT, args + [One(a.currency)]);
      Sees(env, c.base, BoundParts(c, d.column, a.hi, LE, LT, l.args).args)
    ensures var l := BoundParts(c, d.column, a.lo, GE, GT, args + [One(a.currency)]);
      Sees(env, c.base, l.args) && TextArg(env, c.base + |args| + 1) == a.currency
  {
    var args1 := args + [One(a.currency)];
    var l := BoundParts(c, d.column, a.lo, GE, GT, args1);
    var h := BoundParts(c, d.column, a.hi, LE, LT, l.args);
    SeesPrefix(env, c.base, h.args, l.args);
    SeesPrefix(env, c.base, l.args, args1);
    SeesArg(env, c.base, args1, |args|);
  }

  lemma IntervalKnown(c: Context, d: Dimension, a: Atom, args: seq<Arg>, db: Db, row: Row, env: seq<Arg>,
      currency: string, n: real)
    requires a.Interval? && ValidDb(db)
    requires CellOf(row, d.column) == Known(Num(n)) && CellOf(row, d.currencyColumn) == Known(Text(currency))
    requires var l := BoundParts(c, d.column, a.lo, GE, GT, args + [One(a.currency)]);
      Sees(env, c.base, BoundParts(c, d.column, a.hi, LE, LT, l.args).args)
    ensures var l := BoundParts(c, d.column, a.lo, GE, GT, args + [One(a.currency)]);
      var h := BoundParts(c, d.column, a.hi, LE, LT, l.args);
      var head := [NotNull(d.column), Compare(d.currencyColumn, EQ, c.base + |args| + 1, TextKind)];
      Selects(db, row, env, And(head + l.parts + h.parts)) ==
      (currency == a.currency && Within(db, a.lo, GE, GT, n) && Within(db, a.hi, LE, LT, n))
  {
    var col, ph := d.column, c.base + |args| + 1;
    var p, q := NotNull(col), Compare(d.currencyColumn, EQ, ph, TextKind);
    var l := BoundParts(c, col, a.lo, GE, GT, args + [One(a.currency)]);
    var h := BoundParts(c, col, a.hi, LE, LT, l.args);
    FourParts(db, row, env, p, q, l.parts, h.parts);
    IntervalArgs(c, d, a, args, env);
    BoundCorrect(c, col, a.lo, GE, GT, args + [One(a.currency)], db, row, env, n);
    BoundCorrect(c, col, a.hi, LE, LT, l.args, db, row, env, n);
    assert Selects(db, row, env, p);
    assert Selects(db, row, env, q) <==> currency == a.currency;
  }

  lemma IntervalStep(c: Context, d: Dimension, a: Atom, dim: string, args: seq<Arg>)
    requires a.Interval? && dim in c.r.dimensions && c.r.dimensions[dim] == d && d.pushdown != NotPushdownable
    ensures var l := BoundParts(c, d.column, a.lo, GE, GT, args + [One(a.currency)]);
      var h := BoundParts(c, d.column, a.hi, LE, LT, l.args);
      var head := [NotNull(d.column), Compare(d.currencyColumn, EQ, c.base + |args| + 1, TextKind)];
      AtomStep(c, dim, a, args) == Done([And(head + l.parts + h.parts)], h.args)
  {}

  lemma IntervalNull(d: Dimension, q: Pred, l: seq<Pred>, h: seq<Pred>, db: Db, row: Row, env: seq<Arg>)
    requires CellOf(row, d.column) == Null
    ensures !Selects(db, row, env, And([NotNull(d.column), q] + l + h))
  {
    FourParts(db, row, env, NotNull(d.column), q, l, h);
    assert !Selects(db, row, env, NotNull(d.column));
  }

  lemma IntervalExact(q: Asker, c: Context, d: Dimension, a: Atom, dim: string, args: seq<Arg>, db: Db, row: Row,
      env: seq<Arg>, f: Option<Fact>)
    requires a.Interval? && dim in c.r.dimensions && c.r.dimensions[dim] == d && d.kind == Amount
    requires d.pushdown != NotPushdownable
    requires ReadsDecimals(q, db) && ColumnFact(q, d, row, f)
    requires Sees(env, c.base, AtomStep(c, dim, a, args).args)
    ensures (Selects(db, row, env, AtomStep(c, dim, a, args).parts[0]) <==> AtomTri(q, a, f) == TRUE)
       <==> Faithful(q, db, d, a, f)
  {
    IntervalStep(c, d, a, dim, args);
    if CellOf(row, d.column).Null? {
      var cur := Compare(d.currencyColumn, EQ, c.base + |args| + 1, TextKind);
      var l := BoundParts(c, d.column, a.lo, GE, GT, args + [One(a.currency)]);
      var h := BoundParts(c, d.column, a.hi, LE, LT, l.args);
      IntervalNull(d, cur, l.parts, h.parts, db, row, env);
    } else {
      var n := CellOf(row, d.column).v.n;
      IntervalKnown(c, d, a, args, db, row, env, f.value.currency, n);
      if DecimalBound(q, a.lo) && DecimalBound(q, a.hi) { IntervalTrue(q, db, a, f.value, n); }
    }
  }

  lemma FourParts(db: Db, row: Row, env: seq<Arg>, p: Pred, q: Pred, l: seq<Pred>, h: seq<Pred>)
    ensures Selects(db, row, env, And([p, q] + l + h)) <==>
      && Selects(db, row, env, p) && Selects(db, row, env, q)
      && (forall x :: x in l ==> Selects(db, row, env, x)) && (forall x :: x in h ==> Selects(db, row, env, x))
  {
    var all := [p, q] + l + h;
    AndSelects(db, row, env, all);
    assert forall x :: x in all <==> x == p || x == q || x in l || x in h;
  }

  lemma AnyCorrect(db: Db, row: Row, env: seq<Arg>, col: string, ph: nat, values: seq<string>)
    requires ValidDb(db) && ListArg(env, ph) == values
    ensures Selects(db, row, env, AnyOf(col, ph, TextKind))
       <==> (match CellOf(row, col) case Known(Text(v)) => v in values case _ => false)
  {
    match CellOf(row, col)
    case Known(Text(v)) =>
      if v in values {
        var i :| 0 <= i < |values| && values[i] == v;
        assert Text(v) == db.cast(TextKind, ListArg(env, ph)[i]);
      }
    case _ =>
  }

  lemma AnyNumber(db: Db, row: Row, env: seq<Arg>, col: string, ph: nat, values: seq<string>)
    requires ListArg(env, ph) == values
    ensures Selects(db, row, env, AnyOf(col, ph, Numeric)) <==>
      CellOf(row, col).Known? && exists i :: 0 <= i < |values| && CellOf(row, col).v == db.cast(Numeric, values[i])
  {}

  /** A list on an amount. */
  lemma InAmountExact(q: Asker, c: Context, dim: string, values: seq<string>, args: seq<Arg>, db: Db, row: Row,
      env: seq<Arg>, f: Option<Fact>)
    requires dim in c.r.dimensions && c.r.dimensions[dim].kind == Amount
    requires c.r.dimensions[dim].pushdown != NotPushdownable
    requires ReadsDecimals(q, db) && ColumnFact(q, c.r.dimensions[dim], row, f)
    requires Sees(env, c.base, AtomStep(c, dim, In(values), args).args)
    ensures (Selects(db, row, env, AtomStep(c, dim, In(values), args).parts[0]) <==> AtomTri(q, In(values), f) == TRUE)
       <==> Faithful(q, db, c.r.dimensions[dim], In(values), f)
  {
    var d := c.r.dimensions[dim];
    if values != [] {
      SeesArg(env, c.base, AtomStep(c, dim, In(values), args).args, |args|);
      AnyNumber(db, row, env, d.column, c.base + |args| + 1, values);
      if f.value.Value? && f.value.value in values {
        var i :| 0 <= i < |values| && values[i] == f.value.value;
        assert db.cast(Numeric, values[i]) == CellOf(row, d.column).v;
      }
    }
  }

  lemma TreeExact(q: Asker, c: Context, dim: string, items: seq<TreeItem>, args: seq<Arg>, db: Db, row: Row,
      env: seq<Arg>, f: Option<Fact>)
    requires dim in c.r.dimensions && c.r.dimensions[dim].kind != Amount
    requires c.r.dimensions[dim].pushdown != NotPushdownable
    requires ReadsDecimals(q, db) && ColumnFact(q, c.r.dimensions[dim], row, f)
    requires Sees(env, c.base, AtomStep(c, dim, Tree(items), args).args)
    ensures (Selects(db, row, env, AtomStep(c, dim, Tree(items), args).parts[0]) <==>
      AtomTri(q, Tree(items), f) == TRUE)
       <==> Faithful(q, db, c.r.dimensions[dim], Tree(items), f)
  {
    var d := c.r.dimensions[dim];
    var t := TreeParts(c, d.column, items, args);
    if items != [] {
      OrSelects(db, row, env, t.parts);
      if CellOf(row, d.column).Null? {
        TreeNull(c, d.column, items, args, db, row, env);
      } else {
        var v := f.value.value;
        TreeCorrect(c, d.column, items, args, db, row, env, v);
        if v == "" { assert forall i :: 0 <= i < |items| ==> (ItemHit(items[i], v) <==> items[i].path == ""); }
      }
    }
  }

  lemma OnePart(db: Db, row: Row, env: seq<Arg>, p: Pred)
    ensures (forall x :: x in [p] ==> Selects(db, row, env, x)) <==> Selects(db, row, env, p)
  {
    assert p in [p];
  }

  /** An atom's conjuncts hold for the row exactly when the evaluator finds the atom true of its fact, if and only if
      the atom is faithful to that fact. */
  lemma AtomExact(q: Asker, c: Context, dim: string, a: Atom, args: seq<Arg>, db: Db, row: Row, env: seq<Arg>,
      f: Option<Fact>)
    requires c.principal == q.principal && dim in c.r.dimensions && AtomFits(c.r.dimensions[dim], a)
    requires ReadsDecimals(q, db) && ColumnFact(q, c.r.dimensions[dim], row, f)
    requires AtomStep(c, dim, a, args).Done? && Sees(env, c.base, AtomStep(c, dim, a, args).args)
    ensures ((forall p :: p in AtomStep(c, dim, a, args).parts ==> Selects(db, row, env, p)) <==>
      AtomTri(q, a, f) == TRUE)
       <==> Faithful(q, db, c.r.dimensions[dim], a, f)
  {
    var d := c.r.dimensions[dim];
    var out := AtomStep(c, dim, a, args);
    var ph := c.base + |args| + 1;
    if a.All? { return; }
    assert out.parts == [out.parts[0]];
    OnePart(db, row, env, out.parts[0]);
    match a
    case In(values) =>
      if d.kind == Amount {
        InAmountExact(q, c, dim, values, args, db, row, env, f);
      } else if values != [] {
        SeesArg(env, c.base, out.args, |args|);
        assert ListArg(env, ph) == values;
        AnyCorrect(db, row, env, d.column, ph, values);
      }
    case Self =>
      SeesArg(env, c.base, out.args, |args|);
      assert TextArg(env, ph) == c.principal;
    case Tree(items) => TreeExact(q, c, dim, items, args, db, row, env, f);
    case _ => IntervalExact(q, c, d, a, dim, args, db, row, env, f);
  }

  // ----- segments and lists of segments -----

  lemma EntryCorrect(q: Asker, c: Context, e: Entry, args: seq<Arg>, db: Db, row: Row, env: seq<Arg>, facts: Facts)
    requires c.principal == q.principal && EntryReady(q, db, c.r, e, facts)
    requires ReadsDecimals(q, db) && RowFacts(q, c.r, row, facts)
    requires AtomStep(c, e.dim, e.atom, args).Done? && Sees(env, c.base, AtomStep(c, e.dim, e.atom, args).args)
    ensures (forall p :: p in AtomStep(c, e.dim, e.atom, args).parts ==> Selects(db, row, env, p))
       <==> EntryTri(q, e, facts) == TRUE
  {
    AtomExact(q, c, e.dim, e.atom, args, db, row, env, FactOf(facts, e.dim));
  }

  lemma PartsSplit(db: Db, row: Row, env: seq<Arg>, a: seq<Pred>, b: seq<Pred>)
    ensures (forall p :: p in a + b ==> Selects(db, row, env, p))
       <==> (forall p :: p in a ==> Selects(db, row, env, p)) && (forall p :: p in b ==> Selects(db, row, env, p))
  {
    assert forall p :: p in a + b <==> p in a || p in b;
  }

  lemma EntriesSplit(es: seq<Entry>, yes: Entry -> bool)
    requires es != []
    ensures (forall e :: e in es ==> yes(e)) <==> yes(es[0]) && forall e :: e in es[1..] ==> yes(e)
  {
    assert es == [es[0]] + es[1..];
  }

  lemma {:induction false} EntriesCorrect(q: Asker, c: Context, es: seq<Entry>, args: seq<Arg>, db: Db, row: Row,
      env: seq<Arg>, facts: Facts)
    requires c.principal == q.principal && forall e :: e in es ==> EntryReady(q, db, c.r, e, facts)
    requires ReadsDecimals(q, db) && RowFacts(q, c.r, row, facts)
    requires EntriesStep(c, es, args).Done? && Sees(env, c.base, EntriesStep(c, es, args).args)
    ensures (forall p :: p in EntriesStep(c, es, args).parts ==> Selects(db, row, env, p))
       <==> (forall e :: e in es ==> EntryTri(q, e, facts) == TRUE)
  {
    if es != [] {
      var first := AtomStep(c, es[0].dim, es[0].atom, args);
      var rest := EntriesStep(c, es[1..], first.args);
      assert es[0] in es;
      SeesPrefix(env, c.base, rest.args, first.args);
      EntryCorrect(q, c, es[0], args, db, row, env, facts);
      EntriesCorrect(q, c, es[1..], first.args, db, row, env, facts);
      EntriesSplit(es, e => EntryTri(q, e, facts) == TRUE);
      PartsSplit(db, row, env, first.parts, rest.parts);
    }
  }

  /** The evaluator's verdict on a segment, seen only as a bit. */
  ghost function Yes(q: Asker, facts: Facts): Segment -> bool {
    s => SegmentTri(q, s, facts) == TRUE
  }

  lemma SegmentTrue(q: Asker, s: Segment, facts: Facts)
    requires ActiveAt(s, q.at)
    ensures Yes(q, facts)(s) <==> forall e :: e in s.atoms ==> EntryTri(q, e, facts) == TRUE
  {}

  lemma SegmentCorrect(q: Asker, c: Context, s: Segment, args: seq<Arg>, db: Db, row: Row, env: seq<Arg>, facts: Facts)
    requires c.principal == q.principal && Compilable(q, db, c.r, s, facts) && ActiveAt(s, q.at)
    requires ReadsDecimals(q, db) && RowFacts(q, c.r, row, facts)
    requires SegmentStep(c, s, args).Done? && Sees(env, c.base, SegmentStep(c, s, args).args)
    ensures Selects(db, row, env, SegmentStep(c, s, args).parts[0]) <==> Yes(q, facts)(s)
  {
    var es := Sorting.Sort(DimLess, s.atoms);
    Sorting.SortElements(DimLess, s.atoms);
    forall e | e in es ensures EntryReady(q, db, c.r, e, facts) { assert e in s.atoms; }
    EntriesCorrect(q, c, es, args, db, row, env, facts);
    AndSelects(db, row, env, EntriesStep(c, es, args).parts);
    assert forall e :: e in es <==> e in s.atoms;
    SegmentTrue(q, s, facts);
  }

  lemma {:induction false} SegmentsCorrect(q: Asker, c: Context, segs: seq<Segment>, args: seq<Arg>, db: Db, row: Row,
      env: seq<Arg>, facts: Facts, yes: Segment -> bool)
    requires c.principal == q.principal
      && forall s :: s in segs ==> Compilable(q, db, c.r, s, facts) && ActiveAt(s, q.at)
    requires ReadsDecimals(q, db) && RowFacts(q, c.r, row, facts) && yes == Yes(q, facts)
    requires SegmentsStep(c, segs, args).Done? && Sees(env, c.base, SegmentsStep(c, segs, args).args)
    ensures forall i :: 0 <= i < |segs| ==>
      (Selects(db, row, env, SegmentsStep(c, segs, args).parts[i]) <==> yes(segs[i]))
  {
    if segs != [] {
      var first := SegmentStep(c, segs[0], args);
      var rest := SegmentsStep(c, segs[1..], first.args);
      assert segs[0] in segs;
      SeesPrefix(env, c.base, rest.args, first.args);
      SegmentCorrect(q, c, segs[0], args, db, row, env, facts);
      SegmentsCorrect(q, c, segs[1..], first.args, db, row, env, facts, yes);
      assert SegmentsStep(c, segs, args).parts == [first.parts[0]] + rest.parts;
    }
  }

  // ----- an operation's active segments -----

  /** Each predicate holds exactly for the segments with the bit yes. */
  ghost predicate Matches(db: Db, row: Row, env: seq<Arg>, preds: seq<Pred>, segs: seq<Segment>, yes: Segment -> bool) {
    |preds| == |segs| && forall i :: 0 <= i < |segs| ==> (Selects(db, row, env, preds[i]) <==> yes(segs[i]))
  }

  lemma ActiveCorrect(q: Asker, c: Context, segs: seq<Segment>, op: string, args: seq<Arg>, db: Db, row: Row,
      env: seq<Arg>, facts: Facts)
    requires c.principal == q.principal && OpCompilable(q, db, c.r, segs, op, facts)
    requires ReadsDecimals(q, db) && RowFacts(q, c.r, row, facts)
    requires SegmentsStep(c, Active(segs, op, q.at), args).Done?
    requires Sees(env, c.base, SegmentsStep(c, Active(segs, op, q.at), args).args)
    ensures Matches(db, row, env, SegmentsStep(c, Active(segs, op, q.at), args).parts, Active(segs, op, q.at),
                    Yes(q, facts))
  {
    var active := Active(segs, op, q.at);
    forall s | s in active ensures Compilable(q, db, c.r, s, facts) && ActiveAt(s, q.at) { assert s in segs; }
    SegmentsCorrect(q, c, active, args, db, row, env, facts, Yes(q, facts));
  }

  lemma OrIndex(db: Db, row: Row, env: seq<Arg>, ps: seq<Pred>)
    ensures Selects(db, row, env, OrAll(ps)) <==> exists i :: 0 <= i < |ps| && Selects(db, row, env, ps[i])
  {
    OrSelects(db, row, env, ps);
    if p :| p in ps && Selects(db, row, env, p) {
      var i :| 0 <= i < |ps| && ps[i] == p;
      assert Selects(db, row, env, ps[i]);
    }
    if i :| 0 <= i < |ps| && Selects(db, row, env, ps[i]) { assert ps[i] in ps; }
  }

  lemma OrMatches(db: Db, row: Row, env: seq<Arg>, preds: seq<Pred>, segs: seq<Segment>, yes: Segment -> bool)
    requires Matches(db, row, env, preds, segs, yes)
    ensures Selects(db, row, env, OrAll(preds)) <==> exists s :: s in segs && yes(s)
  {
    OrIndex(db, row, env, preds);
    if i :| 0 <= i < |preds| && Selects(db, row, env, preds[i]) { assert segs[i] in segs && yes(segs[i]); }
    if s :| s in segs && yes(s) {
      var i :| 0 <= i < |segs| && segs[i] == s;
      assert Selects(db, row, env, preds[i]);
    }
  }

  /** The evaluator's disjunction ranges over the active segments only: an inactive one is false. */
  lemma EntitledActive(q: Asker, segs: seq<Segment>, op: string, facts: Facts)
    ensures EntitledTri(q, segs, op, facts) == TRUE <==> exists s :: s in Active(segs, op, q.at) && Yes(q, facts)(s)
  {
    if s :| s in segs && Gives(q, s, op, facts, TRUE) { assert s in Active(segs, op, q.at) && Yes(q, facts)(s); }
    if s :| s in Active(segs, op, q.at) && Yes(q, facts)(s) { assert s in segs && Gives(q, s, op, facts, TRUE); }
  }

  lemma ReadsActive(q: Asker, segs: seq<Segment>, op: string, facts: Facts, f: string)
    ensures Reads(q, segs, op, facts, f)
       <==> exists s :: s in Active(segs, op, q.at) && Yes(q, facts)(s) && f in s.readFields
  {
    if s :| s in segs && Gives(q, s, op, facts, TRUE) && f in s.readFields {
      assert s in Active(segs, op, q.at) && Yes(q, facts)(s);
    }
    if s :| s in Active(segs, op, q.at) && Yes(q, facts)(s) && f in s.readFields {
      assert s in segs && Gives(q, s, op, facts, TRUE);
    }
  }

  // ----- the plan -----

  lemma BothSelect(db: Db, row: Row, env: seq<Arg>, p: Pred, q: Pred)
    ensures Selects(db, row, env, And([p, q])) <==> Selects(db, row, env, p) && Selects(db, row, env, q)
  {
    AndSelects(db, row, env, [p, q]);
    assert [p, q][0] in [p, q] && [p, q][1] in [p, q];
  }

  /** The disjunction over an operation's segments. */
  lemma OpSelects(q: Asker, c: Context, segs: seq<Segment>, op: string, args: seq<Arg>, db: Db, row: Row, env: seq<Arg>,
      facts: Facts)
    requires c.principal == q.principal && OpCompilable(q, db, c.r, segs, op, facts)
    requires ReadsDecimals(q, db) && RowFacts(q, c.r, row, facts)
    requires SegmentsStep(c, Active(segs, op, q.at), args).Done?
    requires Sees(env, c.base, SegmentsStep(c, Active(segs, op, q.at), args).args)
    ensures Selects(db, row, env, OrAll(SegmentsStep(c, Active(segs, op, q.at), args).parts)) <==>
      EntitledTri(q, segs, op, facts) == TRUE
  {
    var active := Active(segs, op, q.at);
    ActiveCorrect(q, c, segs, op, args, db, row, env, facts);
    OrMatches(db, row, env, SegmentsStep(c, active, args).parts, active, Yes(q, facts));
    EntitledActive(q, segs, op, facts);
  }

  /** The list's predicate selects a row exactly when the evaluation of its facts gives the action, whatever other
      arguments the statement has before and after the plan's. */
  lemma PlanSelects(q: Asker, r: Resource, segs: seq<Segment>, op: string, base: nat, db: Db, row: Row, env: seq<Arg>,
      facts: Facts)
    requires AllCompilable(q, db, r, segs, op, facts)
    requires ReadsDecimals(q, db) && RowFacts(q, r, row, facts)
    requires PlanOf(q, r, segs, op, base).Some? && Sees(env, base, PlanOf(q, r, segs, op, base).value.args)
    ensures Selects(db, row, env, PlanOf(q, r, segs, op, base).value.where) <==>
      ActionTri(q, r, segs, op, facts) == TRUE
  {
    var c := Context(r, q.principal, base);
    var plan := PlanOf(q, r, segs, op, base).value;
    var view := SegmentsStep(c, Active(segs, r.viewOperation, q.at), []);
    SeesPrefix(env, base, plan.args, view.args);
    OpSelects(q, c, segs, r.viewOperation, [], db, row, env, facts);
    if op != r.viewOperation {
      var ops := SegmentsStep(c, Active(segs, op, q.at), view.args);
      OpSelects(q, c, segs, op, view.args, db, row, env, facts);
      BothSelect(db, row, env, OrAll(view.parts), OrAll(ops.parts));
    }
  }

  lemma BitsMatch(p: ListPlan, r: Resource, db: Db, row: Row, env: seq<Arg>, preds: seq<Pred>, segs: seq<Segment>,
      yes: Segment -> bool, f: string)
    requires Matches(db, row, env, preds, segs, yes) && p.hits == Hits(preds) && p.sets == FieldSets(r, segs)
    ensures FieldSeen(p, Bitmap(db, row, env, p.hits), f)
       <==> Output(r, f) && exists s :: s in segs && yes(s) && f in s.readFields
  {
    var bits := Bitmap(db, row, env, p.hits);
    assert forall i :: 0 <= i < |segs| ==> (bits[i] <==> yes(segs[i]));
    if FieldSeen(p, bits, f) {
      var j :| 0 <= j < |bits| && j < |p.sets| && bits[j] && f in p.sets[j];
      assert segs[j] in segs && yes(segs[j]) && f in segs[j].readFields;
    }
    if s :| s in segs && yes(s) && f in s.readFields {
      var j :| 0 <= j < |segs| && segs[j] == s;
      assert Output(r, f) ==> bits[j] && f in p.sets[j];
    }
  }

  /** The fields of a row's hit bits are the fields the evaluation finds readable for the operation. */
  lemma PlanFields(q: Asker, r: Resource, segs: seq<Segment>, op: string, base: nat, db: Db, row: Row, env: seq<Arg>,
      facts: Facts, f: string)
    requires AllCompilable(q, db, r, segs, op, facts)
    requires ReadsDecimals(q, db) && RowFacts(q, r, row, facts)
    requires PlanOf(q, r, segs, op, base).Some? && Sees(env, base, PlanOf(q, r, segs, op, base).value.args)
    ensures var p := PlanOf(q, r, segs, op, base).value;
      FieldSeen(p, Bitmap(db, row, env, p.hits), f) <==> Output(r, f) && Reads(q, segs, op, facts, f)
  {
    var c := Context(r, q.principal, base);
    var p := PlanOf(q, r, segs, op, base).value;
    var args := if op == r.viewOperation then [] else SegmentsStep(c, Active(segs, r.viewOperation, q.at), []).args;
    ActiveCorrect(q, c, segs, op, args, db, row, env, facts);
    BitsMatch(p, r, db, row, env, SegmentsStep(c, Active(segs, op, q.at), args).parts, Active(segs, op, q.at),
              Yes(q, facts), f);
    ReadsActive(q, segs, op, facts, f);
  }

  lemma SeenAt(p: ListPlan, name: string, db: Db, row: Row, env: seq<Arg>)
    requires |p.hits| == |p.sets|
    ensures FieldSeen(p, Bitmap(db, row, env, p.hits), name)
       <==> exists j :: 0 <= j < |p.hits| && Selects(db, row, env, p.hits[j]) && name in p.sets[j]
  {
    var bits := Bitmap(db, row, env, p.hits);
    assert forall j :: 0 <= j < |bits| ==> bits[j] == Selects(db, row, env, p.hits[j]);
  }

  /** readable_where keeps exactly the rows whose hit bits show the field. */
  lemma ReadableWhereCorrect(p: ListPlan, name: string, db: Db, row: Row, env: seq<Arg>)
    requires |p.hits| == |p.sets|
    ensures Selects(db, row, env, ReadableWhere(p, name)) <==> FieldSeen(p, Bitmap(db, row, env, p.hits), name)
  {
    var qs := Reading(p.hits, p.sets, name);
    OrSelects(db, row, env, qs);
    SeenAt(p, name, db, row, env);
    if x :| x in qs && Selects(db, row, env, x) {
      var j :| 0 <= j < |p.hits| && x == p.hits[j] && name in p.sets[j];
      assert Selects(db, row, env, p.hits[j]);
    }
    if j :| 0 <= j < |p.hits| && Selects(db, row, env, p.hits[j]) && name in p.sets[j] {
      assert p.hits[j] in qs;
    }
  }

  lemma EverywhereSeen(p: ListPlan, db: Db, row: Row, env: seq<Arg>, preds: seq<Pred>, name: string)
    requires p.hits == Hits(preds) && |p.sets| == |preds| && ReadableEverywhere(p, name)
    requires Selects(db, row, env, OrAll(preds))
    ensures FieldSeen(p, Bitmap(db, row, env, p.hits), name)
  {
    OrIndex(db, row, env, preds);
    var j :| 0 <= j < |preds| && Selects(db, row, env, preds[j]);
    assert Selects(db, row, env, p.hits[j]);
    assert Bitmap(db, row, env, p.hits)[j];
  }

  /** When every segment of the plan reads a field, every row of the list shows it: a filter or a sort by it reveals
      nothing that the list does not. */
  lemma ReadableEverywhereShows(q: Asker, r: Resource, segs: seq<Segment>, op: string, base: nat, db: Db, row: Row,
      env: seq<Arg>, name: string)
    requires PlanOf(q, r, segs, op, base).Some?
    requires var p := PlanOf(q, r, segs, op, base).value; ReadableEverywhere(p, name) && Selects(db, row, env, p.where)
    ensures var p := PlanOf(q, r, segs, op, base).value; FieldSeen(p, Bitmap(db, row, env, p.hits), name)
  {
    var c := Context(r, q.principal, base);
    var p := PlanOf(q, r, segs, op, base).value;
    var view := SegmentsStep(c, Active(segs, r.viewOperation, q.at), []);
    if op == r.viewOperation {
      EverywhereSeen(p, db, row, env, view.parts, name);
    } else {
      var ops := SegmentsStep(c, Active(segs, op, q.at), view.args);
      BothSelect(db, row, env, OrAll(view.parts), OrAll(ops.parts));
      EverywhereSeen(p, db, row, env, ops.parts, name);
    }
  }
}
