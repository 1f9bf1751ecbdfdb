/** The order of a list and the keyset condition that resumes it (besdk/lists.py, resume). */
module ListOrder {
  import opened Sql
  import Sorting

  datatype Key = Key(column: string, kind: Kind, desc: bool)

  /** A list's order: its sort keys, each in its own direction, and the record ID last. */
  datatype Order = Order(keys: seq<Key>, idColumn: string, idKind: Kind)

  function ValOf(row: Row, col: string): Val {
    match CellOf(row, col)
    case Known(v) => v
    case Null => Text("")
  }

  /** Sortable columns and the ID are not null. */
  ghost predicate Keyed(o: Order, row: Row) {
    && CellOf(row, o.idColumn).Known?
    && forall k :: k in o.keys ==> CellOf(row, k.column).Known?
  }

  predicate KeyLess(db: Db, k: Key, a: Row, b: Row) {
    if k.desc then Less(db, ValOf(b, k.column), ValOf(a, k.column))
    else Less(db, ValOf(a, k.column), ValOf(b, k.column))
  }

  /** ORDER BY: lexicographic over the keys, then the ID ascending. */
  predicate Before(db: Db, o: Order, a: Row, b: Row)
    decreases |o.keys|
  {
    if o.keys == [] then Less(db, ValOf(a, o.idColumn), ValOf(b, o.idColumn))
    else if ValOf(a, o.keys[0].column) == ValOf(b, o.keys[0].column) then Before(db, o.(keys := o.keys[1..]), a, b)
    else KeyLess(db, o.keys[0], a, b)
  }

  lemma {:induction false} BeforeOrder(db: Db, o: Order, a: Row, b: Row, c: Row)
    requires ValidDb(db)
    ensures !Before(db, o, a, a)
    ensures Before(db, o, a, b) && Before(db, o, b, c) ==> Before(db, o, a, c)
    ensures ValOf(a, o.idColumn) != ValOf(b, o.idColumn) ==> Before(db, o, a, b) || Before(db, o, b, a)
    decreases |o.keys|
  {
    if o.keys == [] {
      LessStrict(db, ValOf(a, o.idColumn), ValOf(b, o.idColumn), ValOf(c, o.idColumn));
    } else {
      var k := o.keys[0].column;
      LessStrict(db, ValOf(a, k), ValOf(b, k), ValOf(c, k));
      LessStrict(db, ValOf(c, k), ValOf(b, k), ValOf(a, k));
      LessStrict(db, ValOf(b, k), ValOf(a, k), ValOf(c, k));
      BeforeOrder(db, o.(keys := o.keys[1..]), a, b, c);
    }
  }

  function By(db: Db, o: Order): (Row, Row) -> bool { (a, b) => Before(db, o, a, b) }

  lemma BeforeStrict(db: Db, o: Order)
    requires ValidDb(db)
    ensures Sorting.StrictOrder(By(db, o))
  {
    forall a: Row ensures !Before(db, o, a, a) { BeforeOrder(db, o, a, a, a); }
    forall a: Row, b: Row, c: Row | Before(db, o, a, b) && Before(db, o, b, c) ensures Before(db, o, a, c) {
      BeforeOrder(db, o, a, b, c);
    }
  }

  // ----- the keyset condition -----

  datatype Step = Step(parts: seq<Pred>, args: seq<Arg>)

  function EqualStep(keys: seq<Key>, texts: seq<string>, args: seq<Arg>): (s: Step)
    requires |keys| == |texts|
    ensures |s.parts| == |keys| && args <= s.args
  {
    if keys == [] then Step([], args)
    else
      var rest := EqualStep(keys[1..], texts[1..], args + [One(texts[0])]);
      Step([Compare(keys[0].column, EQ, |args| + 1, keys[0].kind)] + rest.parts, rest.args)
  }

  /** Equal in the first i keys, and past the cursor in the next one (in the ID after the last). */
  function ClauseStep(o: Order, texts: seq<string>, id: string, i: nat, args: seq<Arg>): (s: Step)
    requires |o.keys| == |texts| && i <= |o.keys|
    ensures args <= s.args && |s.parts| == 1
  {
    var eqs := EqualStep(o.keys[..i], texts[..i], args);
    var ph := |eqs.args| + 1;
    if i < |o.keys| then
      Step([And(eqs.parts + [Compare(o.keys[i].column, if o.keys[i].desc then LT else GT, ph, o.keys[i].kind)])],
           eqs.args + [One(texts[i])])
    else Step([And(eqs.parts + [Compare(o.idColumn, GT, ph, o.idKind)])], eqs.args + [One(id)])
  }

  function ClausesStep(o: Order, texts: seq<string>, id: string, i: nat, args: seq<Arg>): (s: Step)
    requires |o.keys| == |texts| && i <= |o.keys| + 1
    ensures args <= s.args && |s.parts| == |o.keys| + 1 - i
    decreases |o.keys| + 1 - i
  {
    if i > |o.keys| then Step([], args)
    else
      var first := ClauseStep(o, texts, id, i, args);
      var rest := ClausesStep(o, texts, id, i + 1, first.args);
      Step(first.parts + rest.parts, rest.args)
  }

  /** resume: the disjunction of the clauses, and the arguments with the cursor's appended. */
  function ResumeStep(o: Order, texts: seq<string>, id: string, args: seq<Arg>): (s: Step)
    requires |o.keys| == |texts|
    ensures args <= s.args && |s.parts| == 1
  {
    var c := ClausesStep(o, texts, id, 0, args);
    Step([Or(c.parts)], c.args)
  }

  /** The cursor's texts are read back as the values of row c. */
  ghost predicate Carries(db: Db, o: Order, texts: seq<string>, id: string, c: Row) {
    && |texts| == |o.keys|
    && (forall j :: 0 <= j < |o.keys| ==> db.cast(o.keys[j].kind, texts[j]) == ValOf(c, o.keys[j].column))
    && db.cast(o.idKind, id) == ValOf(c, o.idColumn)
  }

  ghost predicate EqualUpTo(o: Order, c: Row, row: Row, i: nat)
    requires i <= |o.keys|
  {
    forall j :: 0 <= j < i ==> ValOf(row, o.keys[j].column) == ValOf(c, o.keys[j].column)
  }

  ghost predicate PastAt(db: Db, o: Order, c: Row, row: Row, i: nat)
    requires i <= |o.keys|
  {
    && EqualUpTo(o, c, row, i)
    && if i < |o.keys| then KeyLess(db, o.keys[i], c, row) else Less(db, ValOf(c, o.idColumn), ValOf(row, o.idColumn))
  }

  ghost predicate AllSelect(db: Db, row: Row, env: seq<Arg>, ps: seq<Pred>) {
    forall p :: p in ps ==> Selects(db, row, env, p)
  }

  ghost predicate AnySelects(db: Db, row: Row, env: seq<Arg>, ps: seq<Pred>) {
    exists p :: p in ps && Selects(db, row, env, p)
  }

  ghost predicate EqualKeys(keys: seq<Key>, row: Row, c: Row) {
    forall j :: 0 <= j < |keys| ==> ValOf(row, keys[j].column) == ValOf(c, keys[j].column)
  }

  lemma EqualKeysCons(keys: seq<Key>, row: Row, c: Row)
    requires keys != []
    ensures EqualKeys(keys, row, c) <==>
      ValOf(row, keys[0].column) == ValOf(c, keys[0].column) && EqualKeys(keys[1..], row, c)
  {
    var t := keys[1..];
    if EqualKeys(t, row, c) && ValOf(row, keys[0].column) == ValOf(c, keys[0].column) {
      forall j | 0 <= j < |keys| ensures ValOf(row, keys[j].column) == ValOf(c, keys[j].column) {
        if j > 0 { assert t[j - 1] == keys[j]; }
      }
    }
    if EqualKeys(keys, row, c) {
      forall j | 0 <= j < |t| ensures ValOf(row, t[j].column) == ValOf(c, t[j].column) { assert t[j] == keys[j + 1]; }
    }
  }

  lemma {:induction false} EqualCorrect(db: Db, keys: seq<Key>, texts: seq<string>, args: seq<Arg>, more: seq<Arg>,
      row: Row, c: Row)
    requires |keys| == |texts|
    requires forall j :: 0 <= j < |keys| ==>
      db.cast(keys[j].kind, texts[j]) == ValOf(c, keys[j].column) && CellOf(row, keys[j].column).Known?
    ensures AllSelect(db, row, EqualStep(keys, texts, args).args + more, EqualStep(keys, texts, args).parts)
       <==> EqualKeys(keys, row, c)
  {
    if keys != [] {
      var args1 := args + [One(texts[0])];
      var rest := EqualStep(keys[1..], texts[1..], args1);
      var p := Compare(keys[0].column, EQ, |args| + 1, keys[0].kind);
      var env := rest.args + more;
      EqualCorrect(db, keys[1..], texts[1..], args1, more, row, c);
      assert env[|args|] == args1[|args|];
      assert Selects(db, row, env, p) <==> ValOf(row, keys[0].column) == ValOf(c, keys[0].column);
      assert EqualStep(keys, texts, args) == Step([p] + rest.parts, rest.args);
      AllOfCons(db, row, env, p, rest.parts);
      EqualKeysCons(keys, row, c);
    }
  }

  lemma AllOfCons(db: Db, row: Row, env: seq<Arg>, p: Pred, ps: seq<Pred>)
    ensures AllSelect(db, row, env, [p] + ps) <==> Selects(db, row, env, p) && AllSelect(db, row, env, ps)
  {
    assert forall x :: x in [p] + ps <==> x == p || x in ps;
  }

  lemma AndSnoc(db: Db, row: Row, env: seq<Arg>, ps: seq<Pred>, p: Pred)
    ensures Selects(db, row, env, And(ps + [p])) <==> AllSelect(db, row, env, ps) && Selects(db, row, env, p)
  {
    AndSelects(db, row, env, ps + [p]);
    assert forall x :: x in ps + [p] <==> x in ps || x == p;
  }

  lemma ClauseCorrect(db: Db, o: Order, texts: seq<string>, id: string, i: nat, args: seq<Arg>, more: seq<Arg>,
      row: Row, c: Row)
    requires Carries(db, o, texts, id, c) && Keyed(o, row) && i <= |o.keys|
    ensures var s := ClauseStep(o, texts, id, i, args);
      Selects(db, row, s.args + more, s.parts[0]) <==> PastAt(db, o, c, row, i)
  {
    var eqs := EqualStep(o.keys[..i], texts[..i], args);
    var last := if i < |o.keys| then texts[i] else id;
    var env := eqs.args + [One(last)] + more;
    assert env == eqs.args + ([One(last)] + more);
    forall j | 0 <= j < i ensures CellOf(row, o.keys[..i][j].column).Known? { assert o.keys[j] in o.keys; }
    EqualCorrect(db, o.keys[..i], texts[..i], args, [One(last)] + more, row, c);
    assert EqualKeys(o.keys[..i], row, c) <==> EqualUpTo(o, c, row, i);
    assert TextArg(env, |eqs.args| + 1) == last;
    if i < |o.keys| {
      assert o.keys[i] in o.keys;
      AndSnoc(db, row, env, eqs.parts,
              Compare(o.keys[i].column, if o.keys[i].desc then LT else GT, |eqs.args| + 1, o.keys[i].kind));
    } else {
      AndSnoc(db, row, env, eqs.parts, Compare(o.idColumn, GT, |eqs.args| + 1, o.idKind));
    }
  }

  lemma {:induction false} ClausesCorrect(db: Db, o: Order, texts: seq<string>, id: string, i: nat, args: seq<Arg>,
      more: seq<Arg>, row: Row, c: Row)
    requires Carries(db, o, texts, id, c) && Keyed(o, row) && i <= |o.keys| + 1
    ensures AnySelects(db, row, ClausesStep(o, texts, id, i, args).args + more,
      ClausesStep(o, texts, id, i, args).parts)
       <==> PastFrom(db, o, c, row, i)
    decreases |o.keys| + 1 - i
  {
    if i <= |o.keys| {
      var first := ClauseStep(o, texts, id, i, args);
      var rest := ClausesStep(o, texts, id, i + 1, first.args);
      var tail := rest.args[|first.args|..];
      assert rest.args == first.args + tail;
      assert rest.args + more == first.args + (tail + more);
      ClauseCorrect(db, o, texts, id, i, args, tail + more, row, c);
      ClausesCorrect(db, o, texts, id, i + 1, first.args, more, row, c);
      assert first.parts == [first.parts[0]];
      AnyOfCons(db, row, rest.args + more, first.parts[0], rest.parts);
      PastFromStep(db, o, c, row, i);
    } else {
      assert !AnySelects(db, row, args + more, []);
    }
  }

  lemma AnyOfCons(db: Db, row: Row, env: seq<Arg>, p: Pred, ps: seq<Pred>)
    ensures AnySelects(db, row, env, [p] + ps) <==> Selects(db, row, env, p) || AnySelects(db, row, env, ps)
  {
    assert forall x :: x in [p] + ps <==> x == p || x in ps;
  }

  /** Past the cursor's row at some clause from the i-th on. */
  ghost predicate PastFrom(db: Db, o: Order, c: Row, row: Row, i: nat) {
    exists m :: i <= m <= |o.keys| && PastAt(db, o, c, row, m)
  }

  lemma PastFromStep(db: Db, o: Order, c: Row, row: Row, i: nat)
    requires i <= |o.keys|
    ensures PastFrom(db, o, c, row, i) <==> PastAt(db, o, c, row, i) || PastFrom(db, o, c, row, i + 1)
  {
    if PastFrom(db, o, c, row, i) {
      var m :| i <= m <= |o.keys| && PastAt(db, o, c, row, m);
      assert m == i || i + 1 <= m;
    }
  }

  lemma {:induction false} PastIsBefore(db: Db, o: Order, c: Row, row: Row)
    requires ValidDb(db)
    ensures PastFrom(db, o, c, row, 0) <==> Before(db, o, c, row)
    decreases |o.keys|
  {
    if o.keys == [] {
      assert PastAt(db, o, c, row, 0) <==> Before(db, o, c, row);
    } else {
      var t := o.(keys := o.keys[1..]);
      var k := o.keys[0].column;
      LessStrict(db, ValOf(c, k), ValOf(row, k), ValOf(c, k));
      PastIsBefore(db, t, c, row);
      forall m | 1 <= m <= |o.keys|
        ensures PastAt(db, o, c, row, m) <==> ValOf(row, k) == ValOf(c, k) && PastAt(db, t, c, row, m - 1)
      {
        PastShift(db, o, c, row, m);
      }
      if m :| 0 <= m <= |t.keys| && PastAt(db, t, c, row, m) {
        assert ValOf(row, k) == ValOf(c, k) ==> PastAt(db, o, c, row, m + 1);
      }
      assert PastAt(db, o, c, row, 0) <==> KeyLess(db, o.keys[0], c, row);
    }
  }

  lemma PastShift(db: Db, o: Order, c: Row, row: Row, m: nat)
    requires 1 <= m <= |o.keys|
    ensures var t := o.(keys := o.keys[1..]);
      PastAt(db, o, c, row, m) <==>
      ValOf(row, o.keys[0].column) == ValOf(c, o.keys[0].column) && PastAt(db, t, c, row, m - 1)
  {
    var t := o.(keys := o.keys[1..]);
    assert forall j :: 1 <= j < |o.keys| ==> o.keys[j] == t.keys[j - 1];
    assert forall j :: 0 <= j < |t.keys| ==> t.keys[j] == o.keys[j + 1];
  }

  /** The keyset condition selects exactly the rows strictly after the cursor's row in the list's order, whatever
      arguments the statement has before it and after it. */
  lemma ResumeIsStrictlyAfter(db: Db, o: Order, texts: seq<string>, id: string, args: seq<Arg>, more: seq<Arg>,
      row: Row, c: Row)
    requires ValidDb(db) && Carries(db, o, texts, id, c) && Keyed(o, row)
    ensures var s := ResumeStep(o, texts, id, args);
      Selects(db, row, s.args + more, s.parts[0]) <==> Before(db, o, c, row)
  {
    var cs := ClausesStep(o, texts, id, 0, args);
    OrSelects(db, row, cs.args + more, cs.parts);
    ClausesCorrect(db, o, texts, id, 0, args, more, row, c);
    PastIsBefore(db, o, c, row);
  }
}
