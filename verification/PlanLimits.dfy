/** Where the compiled predicate and the evaluator part ways, and exactly when. */
module PlanLimits {
  import opened Wrappers
  import opened Sql
  import opened Segments
  import opened Plan
  import opened PlanMeaning
  import Decimals

  // ----- an empty path in a tree atom -----

  /** The compiled tree atom and the evaluator agree on a path. */
  ghost predicate TreeAgrees(q: Asker, c: Context, dim: string, items: seq<TreeItem>, args: seq<Arg>, db: Db,
      env: seq<Arg>, v: string)
    requires dim in c.r.dimensions && c.r.dimensions[dim].pushdown != NotPushdownable
  {
    var row := map[c.r.dimensions[dim].column := Known(Text(v))];
    Selects(db, row, env, AtomStep(c, dim, Tree(items), args).parts[0]) <==>
    AtomTri(q, Tree(items), Some(Value(v, ""))) == TRUE
  }

  /** They agree on every path exactly when no item's path is empty: the evaluator refuses an empty path as "not the
      root", and the compiled equality would match it. */
  lemma TreeAgreesExactly(q: Asker, c: Context, dim: string, items: seq<TreeItem>, args: seq<Arg>, db: Db,
      env: seq<Arg>)
    requires ValidDb(db) && dim in c.r.dimensions && c.r.dimensions[dim].pushdown != NotPushdownable
    requires Sees(env, c.base, AtomStep(c, dim, Tree(items), args).args)
    ensures (forall v :: TreeAgrees(q, c, dim, items, args, db, env, v))
       <==> (forall i :: 0 <= i < |items| ==> items[i].path != "")
  {
    forall v ensures TreeAgrees(q, c, dim, items, args, db, env, v) <==>
      !(v == "" && exists i :: 0 <= i < |items| && items[i].path == "")
    {
      TreeAgreesOn(q, c, dim, items, args, db, env, v);
    }
    assert (forall i :: 0 <= i < |items| ==> items[i].path != "") ==>
      forall v :: TreeAgrees(q, c, dim, items, args, db, env, v);
    assert (exists i :: 0 <= i < |items| && items[i].path == "") ==> !TreeAgrees(q, c, dim, items, args, db, env, "");
  }

  lemma TreeAgreesOn(q: Asker, c: Context, dim: string, items: seq<TreeItem>, args: seq<Arg>, db: Db, env: seq<Arg>,
      v: string)
    requires ValidDb(db) && dim in c.r.dimensions && c.r.dimensions[dim].pushdown != NotPushdownable
    requires Sees(env, c.base, AtomStep(c, dim, Tree(items), args).args)
    ensures TreeAgrees(q, c, dim, items, args, db, env, v) <==>
      !(v == "" && exists i :: 0 <= i < |items| && items[i].path == "")
  {
    var col := c.r.dimensions[dim].column;
    var row := map[col := Known(Text(v))];
    if items != [] {
      var t := TreeParts(c, col, items, args);
      TreeCorrect(c, col, items, args, db, row, env, v);
      OrSelects(db, row, env, t.parts);
    }
    if v == "" {
      assert forall i :: 0 <= i < |items| ==> (ItemHit(items[i], v) <==> items[i].path == "");
    }
  }

  // ----- a list of values on an amount -----

  /** Another spelling of a decimal string: k zeros in front of its digits. */
  function Spelled(s: string, k: nat): string {
    if s != "" && s[0] == '-' then "-" + (Decimals.Zeros(k) + s[1..]) else Decimals.Zeros(k) + s
  }

  lemma {:induction false} ZerosRun(k: nat, t: string)
    ensures |Decimals.Zeros(k)| == k && DigitRun(Decimals.Zeros(k) + t) == k + DigitRun(t)
    ensures (Decimals.Zeros(k) + t)[k..] == t
  {
    if k == 0 {
      assert "" + t == t;
    } else {
      ZerosRun(k - 1, t);
      assert Decimals.Zeros(k) + t == "0" + (Decimals.Zeros(k - 1) + t);
      assert ("0" + (Decimals.Zeros(k - 1) + t))[1..] == Decimals.Zeros(k - 1) + t;
    }
  }

  lemma {:induction false} ZerosDigits(k: nat, t: string)
    ensures Digits(Decimals.Zeros(k) + t, 0) == Digits(t, 0)
  {
    if k == 0 {
      assert "" + t == t;
    } else {
      ZerosDigits(k - 1, t);
      assert Decimals.Zeros(k) + t == "0" + (Decimals.Zeros(k - 1) + t);
      assert ("0" + (Decimals.Zeros(k - 1) + t))[1..] == Decimals.Zeros(k - 1) + t;
    }
  }

  lemma SpelledAssembled(d: string, k: nat, u: string, neg: bool)
    ensures Assembled(Decimals.Zeros(k) + d, u, neg) == Assembled(d, u, neg)
  {
    var f := if |u| > 1 && u[0] == '.' then DigitRun(u[1..]) else 0;
    var frac := if f > 0 then u[1..f + 1] else "";
    assert Decimals.Zeros(k) + d + frac == Decimals.Zeros(k) + (d + frac);
    ZerosDigits(k, d + frac);
  }

  lemma MagnitudeOf(t: string, d: string, u: string, neg: bool)
    requires t == d + u && DigitRun(t) == |d| > 0
    ensures Magnitude(t, neg) == Assembled(d, u, neg)
  {
    assert t[..|d|] == d && t[|d|..] == u;
  }

  lemma SpelledMagnitude(d: string, u: string, k: nat, neg: bool)
    requires DigitRun(d + u) == |d| > 0
    ensures Magnitude(Decimals.Zeros(k) + (d + u), neg) == Magnitude(d + u, neg)
  {
    var z := Decimals.Zeros(k);
    ZerosRun(k, d + u);
    assert z + (d + u) == (z + d) + u;
    MagnitudeOf(d + u, d, u, neg);
    MagnitudeOf((z + d) + u, z + d, u, neg);
    SpelledAssembled(d, k, u, neg);
  }

  lemma SpelledSame(s: string, k: nat)
    requires DecimalValue(s).Some?
    ensures DecimalValue(Spelled(s, k)) == DecimalValue(s) && |Spelled(s, k)| == |s| + k
  {
    var neg := s[0] == '-';
    var t := if neg then s[1..] else s;
    var d, u := t[..DigitRun(t)], t[DigitRun(t)..];
    assert d + u == t;
    SpelledMagnitude(d, u, k, neg);
    ZerosRun(k, t);
    var p := Spelled(s, k);
    if neg {
      assert p[1..] == Decimals.Zeros(k) + t;
    } else {
      assert k > 0 ==> Decimals.Zeros(k)[0] == '0';
      assert p[0] != '-';
    }
  }

  function MaxLength(ss: seq<string>): (m: nat)
    ensures forall i :: 0 <= i < |ss| ==> |ss[i]| <= m
  {
    if ss == [] then 0 else var t := MaxLength(ss[1..]); if |ss[0]| > t then |ss[0]| else t
  }

  /** Another spelling of a decimal that is not in the list. */
  lemma OtherSpelling(values: seq<string>, t: string) returns (s: string)
    requires DecimalValue(t).Some?
    ensures s !in values && DecimalValue(s) == DecimalValue(t)
  {
    s := Spelled(t, MaxLength(values) + 1);
    SpelledSame(t, MaxLength(values) + 1);
    assert forall x :: x in values ==> |x| <= MaxLength(values);
  }

  /** A list of values on an amount dimension passes Segment.check. Whenever the database reads one of its texts as the
      number that some decimal string names, there is a fact for that number that the database selects (it compares
      numbers) and the evaluator does not (it compares texts). */
  lemma InOnAmountDiverges(q: Asker, db: Db, d: Dimension, values: seq<string>, i: nat, t: string, currency: string)
      returns (s: string, row: Row)
    requires q.decimal == DecimalValue && d.kind == Amount && d.column != d.currencyColumn
    requires i < |values| && DecimalValue(t).Some? && db.cast(Numeric, values[i]) == Num(DecimalValue(t).value)
    ensures AtomFits(d, In(values)) && ColumnFact(q, d, row, Some(Value(s, currency)))
    ensures CellOf(row, d.column) == Known(Num(DecimalValue(t).value))
    ensures !Faithful(q, db, d, In(values), Some(Value(s, currency)))
  {
    s := OtherSpelling(values, t);
    row := map[d.column := Known(Num(DecimalValue(t).value)), d.currencyColumn := Known(Text(currency))];
  }

  // ----- every fact -----

  /** The compiled atom and the evaluation agree on a row and its fact. */
  ghost predicate Agrees(q: Asker, c: Context, dim: string, a: Atom, args: seq<Arg>, db: Db, env: seq<Arg>, row: Row,
      f: Option<Fact>)
    requires AtomStep(c, dim, a, args).Done?
  {
    (forall p :: p in AtomStep(c, dim, a, args).parts ==> Selects(db, row, env, p)) <==> AtomTri(q, a, f) == TRUE
  }

  ghost predicate AgreesOnAll(q: Asker, c: Context, dim: string, a: Atom, args: seq<Arg>, db: Db, env: seq<Arg>)
    requires dim in c.r.dimensions && AtomStep(c, dim, a, args).Done?
  {
    forall row: Row, f: Option<Fact> :: ColumnFact(q, c.r.dimensions[dim], row, f) ==>
      Agrees(q, c, dim, a, args, db, env, row, f)
  }

  /** No listed text on an amount is read as a number that a decimal string names; no item's path is empty; both bounds
      are decimal strings, or the database finds no amount between them. */
  ghost predicate AlwaysFaithful(q: Asker, db: Db, d: Dimension, a: Atom) {
    match a
    case In(values) => d.kind == Amount ==> forall s: string :: !Lists(q, db, values, s)
    case Tree(items) => forall i :: 0 <= i < |items| ==> items[i].path != ""
    case Interval(_, lo, hi) =>
      (DecimalBound(q, lo) && DecimalBound(q, hi)) || forall s: string :: !Admits(q, db, lo, hi, s)
    case _ => true
  }

  /** A fact on which an atom that is not always faithful fails. */
  lemma UnfaithfulFact(q: Asker, db: Db, d: Dimension, a: Atom) returns (f: Option<Fact>, row: Row)
    requires q.decimal == DecimalValue && AtomFits(d, a) && !AlwaysFaithful(q, db, d, a)
    requires d.kind == Amount ==> d.column != d.currencyColumn
    ensures ColumnFact(q, d, row, f) && !Faithful(q, db, d, a, f)
  {
    match a
    case In(values) =>
      var t: string :| Lists(q, db, values, t);
      var i :| 0 <= i < |values| && db.cast(Numeric, values[i]) == Num(q.decimal(t).value);
      var s, r := InOnAmountDiverges(q, db, d, values, i, t, "");
      f, row := Some(Value(s, "")), r;
    case Tree(items) =>
      f, row := Some(Value("", "")), map[d.column := Known(Text(""))];
    case Interval(currency, lo, hi) =>
      var s: string :| Admits(q, db, lo, hi, s);
      f := Some(Value(s, currency));
      row := map[d.column := Known(Num(q.decimal(s).value)), d.currencyColumn := Known(Text(currency))];
  }

  /** A compiled atom agrees with its evaluation on every row and fact if and only if the atom is always faithful. */
  lemma AtomAgreesExactly(q: Asker, c: Context, dim: string, a: Atom, args: seq<Arg>, db: Db, env: seq<Arg>)
    requires c.principal == q.principal && dim in c.r.dimensions && AtomFits(c.r.dimensions[dim], a)
    requires c.r.dimensions[dim].kind == Amount ==> c.r.dimensions[dim].column != c.r.dimensions[dim].currencyColumn
    requires q.decimal == DecimalValue && ReadsDecimals(q, db)
    requires AtomStep(c, dim, a, args).Done? && Sees(env, c.base, AtomStep(c, dim, a, args).args)
    ensures AgreesOnAll(q, c, dim, a, args, db, env) <==> AlwaysFaithful(q, db, c.r.dimensions[dim], a)
  {
    var d := c.r.dimensions[dim];
    forall row: Row, f: Option<Fact> | ColumnFact(q, d, row, f)
      ensures Agrees(q, c, dim, a, args, db, env, row, f) <==> Faithful(q, db, d, a, f)
    {
      AtomExact(q, c, dim, a, args, db, row, env, f);
    }
    if !AlwaysFaithful(q, db, d, a) {
      var f, row := UnfaithfulFact(q, db, d, a);
      assert !Agrees(q, c, dim, a, args, db, env, row, f);
    } else {
      forall row: Row, f: Option<Fact> | ColumnFact(q, d, row, f) ensures Faithful(q, db, d, a, f) {}
    }
  }

  /** A segment that its resource accepts, with always faithful atoms, may be compiled for every record: the condition
      of the list's theorems is then met whatever the facts. */
  lemma AlwaysCompilable(q: Asker, db: Db, r: Resource, s: Segment, facts: Facts)
    requires Fits(r, s)
    requires forall e :: e in s.atoms && e.dim in r.dimensions ==> AlwaysFaithful(q, db, r.dimensions[e.dim], e.atom)
    ensures Compilable(q, db, r, s, facts)
  {
    forall e | e in s.atoms ensures EntryReady(q, db, r, e, facts) {
      var i :| 0 <= i < |s.atoms| && s.atoms[i] == e;
    }
  }

  /** An interval on one fact in its currency, with the amount n: they agree if and only if both bounds are decimal
      strings or the database finds n outside them. */
  lemma IntervalAgreesExactly(q: Asker, c: Context, dim: string, a: Atom, args: seq<Arg>, db: Db, env: seq<Arg>,
      row: Row, f: Fact, n: real)
    requires c.principal == q.principal && dim in c.r.dimensions && AtomFits(c.r.dimensions[dim], a) && a.Interval?
    requires ReadsDecimals(q, db) && ColumnFact(q, c.r.dimensions[dim], row, Some(f))
    requires CellOf(row, c.r.dimensions[dim].column) == Known(Num(n)) && f.currency == a.currency
    requires AtomStep(c, dim, a, args).Done? && Sees(env, c.base, AtomStep(c, dim, a, args).args)
    ensures Agrees(q, c, dim, a, args, db, env, row, Some(f)) <==>
      || (DecimalBound(q, a.lo) && DecimalBound(q, a.hi))
      || !(Within(db, a.lo, GE, GT, n) && Within(db, a.hi, LE, LT, n))
  {
    AtomExact(q, c, dim, a, args, db, row, env, Some(f));
  }

  // ----- a bound that is not a decimal string -----

  /** A malformed bound: the evaluator can never find the atom true of an amount in its currency. */
  lemma MalformedBoundUnknown(q: Asker, a: Atom, f: Fact)
    requires a.Interval? && !(DecimalBound(q, a.lo) && DecimalBound(q, a.hi)) && f.Value? && f.currency == a.currency
    ensures AtomTri(q, a, Some(f)) == UNKNOWN
  {}

  lemma PlusIsNoDecimal()
    ensures DecimalValue("+1").None?
  {
    assert DigitRun("+1") == 0;
  }

  /** The compiled interval with the lower bound "+1" and no upper one. */
  lemma LooseSelects(c: Context, d: Dimension, dim: string, db: Db, row: Row)
    requires dim in c.r.dimensions && c.r.dimensions[dim] == d && c.base == 0 && d.pushdown != NotPushdownable
    requires db.cast(Numeric, "+1") == Num(1.0) && db.cast(TextKind, "EUR") == Text("EUR")
    requires CellOf(row, d.column) == Known(Num(2.0)) && CellOf(row, d.currencyColumn) == Known(Text("EUR"))
    ensures var out := AtomStep(c, dim, Interval("EUR", Some(Bound("+1", true)), None), []);
      out.Done? && |out.parts| == 1 && Selects(db, row, out.args, out.parts[0])
  {
    var a := Interval("EUR", Some(Bound("+1", true)), None);
    IntervalStep(c, d, a, dim, []);
    var args := [One("EUR"), One("+1")];
    assert [] + [One("EUR")] + [One("+1")] == args;
    var p, r := NotNull(d.column), Compare(d.currencyColumn, EQ, 1, TextKind);
    var lo := Compare(d.column, GE, 2, Numeric);
    FourParts(db, row, args, p, r, [lo], []);
    assert Selects(db, row, args, lo) && Selects(db, row, args, r) && Selects(db, row, args, p);
  }

  /** A database that reads "+1" as 1, as PostgreSQL does, selects the amount 2 with the lower bound "+1". */
  lemma LooseBoundDiverges(q: Asker, c: Context, dim: string, db: Db, f: Fact, row: Row)
    requires q.decimal == DecimalValue && ReadsDecimals(q, db) && db.cast(Numeric, "+1") == Num(1.0)
    requires dim in c.r.dimensions && c.r.dimensions[dim].kind == Amount && c.base == 0
    requires c.r.dimensions[dim].pushdown != NotPushdownable
    requires ColumnFact(q, c.r.dimensions[dim], row, Some(f))
      && CellOf(row, c.r.dimensions[dim].column) == Known(Num(2.0))
    requires f.currency == "EUR"
    ensures var a := Interval("EUR", Some(Bound("+1", true)), None);
      && AtomFits(c.r.dimensions[dim], a)
      && AtomTri(q, a, Some(f)) == UNKNOWN
      && (var out := AtomStep(c, dim, a, []); Selects(db, row, out.args, out.parts[0]))
  {
    PlusIsNoDecimal();
    MalformedBoundUnknown(q, Interval("EUR", Some(Bound("+1", true)), None), f);
    LooseSelects(c, c.r.dimensions[dim], dim, db, row);
  }
}
