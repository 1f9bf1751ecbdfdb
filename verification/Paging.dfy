/** The pages of a list over an unchanged table (besdk/lists.py, the cursor part of build, and page). */
module Paging {
  import opened Wrappers
  import opened Sql
  import opened ListOrder
  import opened Sorting
  import Cursor

  /** A list compiled without its cursor: conditions and their arguments, order, and the digests cursors carry. */
  datatype List = List(order: Order, limit: nat, filter: string, plan: string, parts: seq<Pred>, args: seq<Arg>)

  predicate Whole(l: List) { l.limit > 0 && HighestOf(l.parts) <= |l.args| }

  datatype Statement = Statement(parts: seq<Pred>, args: seq<Arg>)

  /** The statement of one page: the list's conditions and, from a cursor, the keyset condition. */
  function Resumed(l: List, cursor: string): Result<Statement, Cursor.Refusal> {
    if cursor == "" then Ok(Statement(l.parts, l.args))
    else
      match Cursor.Open(cursor, |l.order.keys|, l.filter, l.plan)
      case Err(e) => Err(e)
      case Ok(d) =>
        var s := ResumeStep(l.order, d.keys, d.id, l.args);
        Ok(Statement(l.parts + s.parts, s.args))
  }

  function Keep(yes: Row -> bool, rows: seq<Row>): seq<Row> {
    if rows == [] then [] else (if yes(rows[0]) then [rows[0]] else []) + Keep(yes, rows[1..])
  }

  function Selecting(db: Db, s: Statement): Row -> bool { row => Selects(db, row, s.args, And(s.parts)) }

  /** SELECT ... WHERE ... ORDER BY. */
  function Answer(db: Db, o: Order, yes: Row -> bool, table: seq<Row>): seq<Row> { Sort(By(db, o), Keep(yes, table)) }

  function Take(rows: seq<Row>, n: nat): seq<Row> { if |rows| <= n then rows else rows[..n] }

  /** The sort values of a row as text, in sort order (the caller's keys), and its ID. */
  function TokenAfter(l: List, show: (Kind, Val) -> string, row: Row): string {
    var keys := seq(|l.order.keys|, i requires 0 <= i < |l.order.keys| =>
      show(l.order.keys[i].kind, ValOf(row, l.order.keys[i].column)));
    Cursor.Token(Cursor.Data(keys, show(l.order.idKind, ValOf(row, l.order.idColumn)), l.filter, l.plan))
  }

  datatype Page = Page(rows: seq<Row>, next: string)

  type Fetcher<E> = string -> Result<Page, E>

  /** A page of the remaining rows: one more row than the limit tells whether another page follows. */
  function Cut(rest: seq<Row>, limit: nat, token: Row -> string): Page
    requires limit > 0
  {
    var rows := Take(rest, limit + 1);
    var out := Take(rows, limit);
    Page(out, if |rows| <= limit then "" else token(out[|out| - 1]))
  }

  function Tokens(l: List, show: (Kind, Val) -> string): Row -> string { row => TokenAfter(l, show, row) }

  /** page: one page of a table. */
  function Fetch(db: Db, l: List, show: (Kind, Val) -> string, table: seq<Row>,
      cursor: string): Result<Page, Cursor.Refusal>
    requires l.limit > 0
  {
    match Resumed(l, cursor)
    case Err(e) => Err(e)
    case Ok(s) => Ok(Cut(Answer(db, l.order, Selecting(db, s), table), l.limit, Tokens(l, show)))
  }

  function Pages(db: Db, l: List, show: (Kind, Val) -> string, table: seq<Row>): Fetcher<Cursor.Refusal>
    requires l.limit > 0
  {
    cursor => Fetch(db, l, show, table, cursor)
  }

  /** The rows of the first n pages, each read from the cursor of the one before, and where to go on. */
  function Walk<E>(fetch: Fetcher<E>, n: nat): Result<Page, E> {
    if n == 0 then Ok(Page([], ""))
    else
      match Walk(fetch, n - 1)
      case Err(e) => Err(e)
      case Ok(p) =>
        if n > 1 && p.next == "" then Ok(p)
        else
          match fetch(p.next)
          case Err(e) => Err(e)
          case Ok(q) => Ok(Page(p.rows + q.rows, q.next))
  }

  // ----- what the caller and the table bring -----

  /** A value shown in a cursor is read back as itself. */
  ghost predicate ShowsBack(db: Db, o: Order, show: (Kind, Val) -> string, row: Row) {
    && db.cast(o.idKind, show(o.idKind, ValOf(row, o.idColumn))) == ValOf(row, o.idColumn)
    && forall k :: k in o.keys ==> db.cast(k.kind, show(k.kind, ValOf(row, k.column))) == ValOf(row, k.column)
  }

  ghost predicate UniqueIds(o: Order, table: seq<Row>) {
    forall i, j :: 0 <= i < j < |table| ==> ValOf(table[i], o.idColumn) != ValOf(table[j], o.idColumn)
  }

  ghost predicate Sound(db: Db, o: Order, show: (Kind, Val) -> string, table: seq<Row>) {
    && ValidDb(db) && UniqueIds(o, table)
    && forall row :: row in table ==> Keyed(o, row) && ShowsBack(db, o, show, row)
  }

  // ----- selected rows -----

  lemma {:induction false} KeepElements(yes: Row -> bool, rows: seq<Row>, x: Row)
    ensures x in Keep(yes, rows) <==> x in rows && yes(x)
  {
    if rows != [] {
      KeepElements(yes, rows[1..], x);
      assert rows == [rows[0]] + rows[1..];
    }
  }

  lemma {:induction false} KeepUnique(yes: Row -> bool, rows: seq<Row>, o: Order)
    requires UniqueIds(o, rows)
    ensures UniqueIds(o, Keep(yes, rows))
  {
    if rows != [] {
      var t := rows[1..];
      KeepUnique(yes, t, o);
      var k := Keep(yes, t);
      forall j | 0 <= j < |k| ensures ValOf(rows[0], o.idColumn) != ValOf(k[j], o.idColumn) {
        KeepElements(yes, t, k[j]);
        var m :| 0 <= m < |t| && t[m] == k[j];
        assert rows[m + 1] == k[j];
      }
    }
  }

  /** The answer lists the selected rows, each once, strictly increasing. */
  lemma AnswerIs(db: Db, o: Order, yes: Row -> bool, table: seq<Row>)
    requires ValidDb(db) && UniqueIds(o, table)
    ensures Sorted(By(db, o), Answer(db, o, yes, table))
    ensures multiset(Answer(db, o, yes, table)) == multiset(Keep(yes, table))
    ensures forall x :: x in Answer(db, o, yes, table) <==> x in table && yes(x)
  {
    var kept := Keep(yes, table);
    BeforeStrict(db, o);
    KeepUnique(yes, table, o);
    forall x, y | x in kept && y in kept && x != y ensures By(db, o)(x, y) || By(db, o)(y, x) {
      var i :| 0 <= i < |kept| && kept[i] == x;
      var j :| 0 <= j < |kept| && kept[j] == y;
      assert i < j || j < i;
      BeforeOrder(db, o, x, y, x);
    }
    SortSorts(By(db, o), kept);
    SortElements(By(db, o), kept);
    forall x ensures x in Answer(db, o, yes, table) <==> x in table && yes(x) { KeepElements(yes, table, x); }
  }

  // ----- one page -----

  lemma TokenOpens(db: Db, l: List, show: (Kind, Val) -> string, c: Row)
    requires ShowsBack(db, l.order, show, c)
    ensures TokenAfter(l, show, c) != ""
    ensures var r := Cursor.Open(TokenAfter(l, show, c), |l.order.keys|, l.filter, l.plan);
      r.Ok? && Carries(db, l.order, r.value.keys, r.value.id, c)
  {
    var keys := seq(|l.order.keys|, i requires 0 <= i < |l.order.keys| =>
      show(l.order.keys[i].kind, ValOf(c, l.order.keys[i].column)));
    var d := Cursor.Data(keys, show(l.order.idKind, ValOf(c, l.order.idColumn)), l.filter, l.plan);
    Cursor.CursorRoundTrip(d, l.filter, l.plan);
    Cursor.TokenNotEmpty(d);
    forall j | 0 <= j < |keys| ensures db.cast(l.order.keys[j].kind, keys[j]) == ValOf(c, l.order.keys[j].column) {
      assert l.order.keys[j] in l.order.keys;
    }
  }

  lemma {:induction false} LaterParts(db: Db, row: Row, args: seq<Arg>, more: seq<Arg>, ps: seq<Pred>)
    requires HighestOf(ps) <= |args|
    ensures AllSelect(db, row, args + more, ps) <==> AllSelect(db, row, args, ps)
  {
    LaterArgsAll(db, row, args, more, ps);
    AndSelects(db, row, args, ps);
    AndSelects(db, row, args + more, ps);
    assert Eval(db, row, args, And(ps)) == EvalAnd(db, row, args, ps);
    assert Eval(db, row, args + more, And(ps)) == EvalAnd(db, row, args + more, ps);
  }

  lemma KeysetSelects(db: Db, l: List, d: Cursor.Data, c: Row, row: Row)
    requires ValidDb(db) && Whole(l) && Keyed(l.order, row)
    requires |d.keys| == |l.order.keys| && Carries(db, l.order, d.keys, d.id, c)
    ensures var s := ResumeStep(l.order, d.keys, d.id, l.args);
      AllSelect(db, row, s.args, l.parts + s.parts) <==>
        AllSelect(db, row, l.args, l.parts) && Before(db, l.order, c, row)
  {
    var s := ResumeStep(l.order, d.keys, d.id, l.args);
    var more := s.args[|l.args|..];
    assert s.args == l.args + more && s.args + [] == s.args;
    ResumeIsStrictlyAfter(db, l.order, d.keys, d.id, l.args, [], row, c);
    LaterParts(db, row, l.args, more, l.parts);
    assert s.parts == [s.parts[0]];
    assert forall p :: p in l.parts + s.parts <==> p in l.parts || p == s.parts[0];
  }

  /** A page's statement selects the list's rows strictly after the cursor's row, whether or not that row is still
      there: earlier placeholders keep their meaning although the keyset condition's arguments are appended. */
  lemma ResumedSelects(db: Db, l: List, show: (Kind, Val) -> string, c: Row, row: Row)
    requires ValidDb(db) && Whole(l) && ShowsBack(db, l.order, show, c) && Keyed(l.order, row)
    ensures var s := Resumed(l, TokenAfter(l, show, c));
      s.Ok? && (Selecting(db, s.value)(row) <==>
        Selecting(db, Statement(l.parts, l.args))(row) && Before(db, l.order, c, row))
  {
    TokenOpens(db, l, show, c);
    var d := Cursor.Open(TokenAfter(l, show, c), |l.order.keys|, l.filter, l.plan).value;
    var s := ResumeStep(l.order, d.keys, d.id, l.args);
    KeysetSelects(db, l, d, c, row);
    AndSelects(db, row, s.args, l.parts + s.parts);
    AndSelects(db, row, l.args, l.parts);
  }

  /** All the rows a list has, in its order. */
  function Listing(db: Db, l: List, table: seq<Row>): seq<Row> {
    Answer(db, l.order, Selecting(db, Statement(l.parts, l.args)), table)
  }

  /** From the cursor of its k-th row a list goes on with its next one. */
  lemma ResumedListing(db: Db, l: List, show: (Kind, Val) -> string, table: seq<Row>, k: nat)
    requires Whole(l) && Sound(db, l.order, show, table) && k < |Listing(db, l, table)|
    ensures var all := Listing(db, l, table); var s := Resumed(l, TokenAfter(l, show, all[k]));
      s.Ok? && Answer(db, l.order, Selecting(db, s.value), table) == all[k + 1..]
  {
    var all := Listing(db, l, table);
    var c := all[k];
    var lt := By(db, l.order);
    AnswerIs(db, l.order, Selecting(db, Statement(l.parts, l.args)), table);
    assert c in all;
    ResumedSelects(db, l, show, c, c);
    var s := Resumed(l, TokenAfter(l, show, c)).value;
    var rest := Answer(db, l.order, Selecting(db, s), table);
    AnswerIs(db, l.order, Selecting(db, s), table);
    BeforeStrict(db, l.order);
    forall x ensures x in rest <==> x in all[k + 1..] {
      if x in table { ResumedSelects(db, l, show, c, x); }
      AfterIsTail(lt, all, k, x);
    }
    ListingUnique(lt, rest, all[k + 1..]);
  }

  lemma AfterIsTail(lt: (Row, Row) -> bool, all: seq<Row>, k: nat, x: Row)
    requires StrictOrder(lt) && Sorted(lt, all) && k < |all|
    ensures x in all[k + 1..] <==> x in all && lt(all[k], x)
  {
    if x in all && lt(all[k], x) {
      var i :| 0 <= i < |all| && all[i] == x;
      if i <= k { assert false; }
      assert all[k + 1..][i - k - 1] == x;
    }
    if x in all[k + 1..] {
      var i :| 0 <= i < |all| - k - 1 && all[k + 1..][i] == x;
      assert all[k + 1 + i] == x;
    }
  }

  // ----- all pages -----

  /** Reading from the start, or from the cursor of any row that is not the last, goes on with the next row. */
  ghost predicate Resumes<E>(fetch: Fetcher<E>, all: seq<Row>, limit: nat, token: Row -> string)
    requires limit > 0
  {
    && fetch("") == Ok(Cut(all, limit, token))
    && forall k :: 0 < k < |all| ==> ResumesAt(fetch, all, limit, token, k)
  }

  ghost predicate ResumesAt<E>(fetch: Fetcher<E>, all: seq<Row>, limit: nat, token: Row -> string, k: nat)
    requires limit > 0 && 0 < k < |all|
  {
    token(all[k - 1]) != "" && fetch(token(all[k - 1])) == Ok(Cut(all[k..], limit, token))
  }

  lemma CutRows(all: seq<Row>, k: nat, limit: nat, token: Row -> string)
    requires limit > 0 && k < |all|
    ensures all[..k] + Cut(all[k..], limit, token).rows == Take(all, k + limit)
    ensures Cut(all[k..], limit, token).next == if |all| <= k + limit then "" else token(all[k + limit - 1])
  {}

  lemma WalkOne<E>(fetch: Fetcher<E>, q: Page)
    requires fetch("") == Ok(q)
    ensures Walk(fetch, 1) == Ok(q)
  {
    assert Walk(fetch, 0) == Ok(Page([], ""));
    assert [] + q.rows == q.rows;
  }

  lemma WalkNext<E>(fetch: Fetcher<E>, n: nat, p: Page, q: Page)
    requires n > 1 && Walk(fetch, n - 1) == Ok(p)
    ensures p.next == "" ==> Walk(fetch, n) == Ok(p)
    ensures p.next != "" && fetch(p.next) == Ok(q) ==> Walk(fetch, n) == Ok(Page(p.rows + q.rows, q.next))
  {}

  /** The first k rows, and the cursor to go on with. */
  function FirstRows(all: seq<Row>, k: nat, token: Row -> string): Page {
    Page(Take(all, k), if k == 0 || |all| <= k then "" else token(all[k - 1]))
  }

  lemma WalkMore<E>(fetch: Fetcher<E>, all: seq<Row>, limit: nat, token: Row -> string, n: nat, k: nat)
    requires limit > 0 && Resumes(fetch, all, limit, token) && n > 1 && k > 0
    requires Walk(fetch, n - 1) == Ok(FirstRows(all, k, token))
    ensures Walk(fetch, n) == Ok(FirstRows(all, k + limit, token))
  {
    if |all| > k {
      assert ResumesAt(fetch, all, limit, token, k);
      CutRows(all, k, limit, token);
      WalkNext(fetch, n, FirstRows(all, k, token), Cut(all[k..], limit, token));
    } else {
      WalkNext(fetch, n, FirstRows(all, k, token), Page([], ""));
    }
  }

  /** n pages of a list hold its first n * limit rows. */
  lemma {:induction false} WalkReads<E>(fetch: Fetcher<E>, all: seq<Row>, limit: nat, token: Row -> string, n: nat)
    requires limit > 0 && Resumes(fetch, all, limit, token)
    ensures Walk(fetch, n) == Ok(FirstRows(all, n * limit, token))
  {
    if n == 0 {
      assert 0 * limit == 0;
    } else if n == 1 {
      assert n * limit == limit;
      assert Cut(all, limit, token) == FirstRows(all, limit, token);
      WalkOne(fetch, Cut(all, limit, token));
    } else {
      WalkReads(fetch, all, limit, token, n - 1);
      assert n * limit == (n - 1) * limit + limit;
      WalkMore(fetch, all, limit, token, n, (n - 1) * limit);
    }
  }

  lemma PagesResume(db: Db, l: List, show: (Kind, Val) -> string, table: seq<Row>)
    requires Whole(l) && Sound(db, l.order, show, table)
    ensures Resumes(Pages(db, l, show, table), Listing(db, l, table), l.limit, Tokens(l, show))
  {
    var all := Listing(db, l, table);
    AnswerIs(db, l.order, Selecting(db, Statement(l.parts, l.args)), table);
    forall k | 0 < k < |all| ensures ResumesAt(Pages(db, l, show, table), all, l.limit, Tokens(l, show), k) {
      PageResumes(db, l, show, table, k);
    }
  }

  lemma PageResumes(db: Db, l: List, show: (Kind, Val) -> string, table: seq<Row>, k: nat)
    requires Whole(l) && Sound(db, l.order, show, table) && 0 < k < |Listing(db, l, table)|
    ensures ResumesAt(Pages(db, l, show, table), Listing(db, l, table), l.limit, Tokens(l, show), k)
  {
    var all := Listing(db, l, table);
    AnswerIs(db, l.order, Selecting(db, Statement(l.parts, l.args)), table);
    assert all[k - 1] in all;
    ResumedListing(db, l, show, table, k - 1);
    TokenOpens(db, l, show, all[k - 1]);
  }

  lemma LongEnough(n: nat, limit: nat)
    requires n > 0 && limit > 0
    ensures n * limit > 0
  {}

  lemma LaterToken<E>(fetch: Fetcher<E>, all: seq<Row>, limit: nat, token: Row -> string, k: nat)
    requires limit > 0 && Resumes(fetch, all, limit, token) && 0 < k < |all|
    ensures token(all[k - 1]) != ""
  {
    assert ResumesAt(fetch, all, limit, token, k);
  }

  lemma WalkEnds<E>(fetch: Fetcher<E>, all: seq<Row>, limit: nat, token: Row -> string, n: nat)
    requires limit > 0 && Resumes(fetch, all, limit, token) && n > 0
    ensures Walk(fetch, n).Ok? && (Walk(fetch, n).value.next == "" <==> |all| <= n * limit)
    ensures Walk(fetch, n).value.next == "" ==> Walk(fetch, n).value.rows == all
  {
    WalkReads(fetch, all, limit, token, n);
    LongEnough(n, limit);
    if n * limit < |all| { LaterToken(fetch, all, limit, token, n * limit); }
  }

  /** Following the cursors ends, after as many pages as the rows fill, and the pages together are the list's rows in
      its order, each exactly once. */
  lemma PagesAreTheListing(db: Db, l: List, show: (Kind, Val) -> string, table: seq<Row>, n: nat)
    requires Whole(l) && Sound(db, l.order, show, table) && n > 0
    ensures Walk(Pages(db, l, show, table), n).Ok?
    ensures Walk(Pages(db, l, show, table), n).value.next == "" <==> |Listing(db, l, table)| <= n * l.limit
    ensures Walk(Pages(db, l, show, table), n).value.next == "" ==>
      Walk(Pages(db, l, show, table), n).value.rows == Listing(db, l, table)
    ensures Sorted(By(db, l.order), Listing(db, l, table))
    ensures multiset(Listing(db, l, table)) == multiset(Keep(Selecting(db, Statement(l.parts, l.args)), table))
  {
    var all := Listing(db, l, table);
    PagesResume(db, l, show, table);
    WalkEnds(Pages(db, l, show, table), all, l.limit, Tokens(l, show), n);
    AnswerIs(db, l.order, Selecting(db, Statement(l.parts, l.args)), table);
  }

  /** A cursor of the same rows under another filter, search or sort is refused, and one made before the
      authorization changed asks to query again. */
  lemma ForeignCursor(db: Db, l: List, made: List, show: (Kind, Val) -> string, table: seq<Row>, c: Row)
    requires l.limit > 0 && made.order == l.order
    ensures made.filter != l.filter ==>
      Fetch(db, l, show, table, TokenAfter(made, show, c)) == Err(Cursor.CursorInvalid)
    ensures made.filter == l.filter && made.plan != l.plan ==>
      Fetch(db, l, show, table, TokenAfter(made, show, c)) == Err(Cursor.QueryPlanChanged)
  {
    var keys := seq(|made.order.keys|, i requires 0 <= i < |made.order.keys| =>
      show(made.order.keys[i].kind, ValOf(c, made.order.keys[i].column)));
    var d := Cursor.Data(keys, show(made.order.idKind, ValOf(c, made.order.idColumn)), made.filter, made.plan);
    Cursor.CursorRoundTrip(d, l.filter, l.plan);
    Cursor.TokenNotEmpty(d);
  }
}
