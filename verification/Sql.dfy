/** The SQL that the list plan and the list builder write, as a small syntax with PostgreSQL's three-valued logic.
    A placeholder $n stands for the n-th argument of the statement. */
module Sql {

  datatype Kind = TextKind | Numeric | Date | Time | Uuid | Boolean

  /** Dates, times and UUIDs are ordered like numbers; the order of texts is the database's collation. */
  datatype Val = Text(s: string) | Num(n: real) | Ordinal(k: int) | Flag(b: bool)

  datatype Cell = Null | Known(v: Val)

  type Row = map<string, Cell>

  datatype Arg = One(s: string) | Many(ss: seq<string>)

  datatype Op = EQ | LT | LE | GT | GE

  datatype Pred =
    | True
    | False
    | Compare(col: string, op: Op, ph: nat, kind: Kind)  // col op $ph::text::kind
    | AnyOf(col: string, ph: nat, kind: Kind)            // col = ANY($ph::text[]::kind[])
    | Like(col: string, ph: nat)                         // col LIKE $ph ESCAPE '\'
    | NotNull(col: string)
    | And(ps: seq<Pred>)
    | Or(ps: seq<Pred>)
    | OrFalse(p: Pred)                                   // COALESCE(p, FALSE)

  datatype Truth = T | F | N

  /** What the database brings: how a text is read as a value of a kind, and the collation's order of texts. */
  datatype Db = Db(cast: (Kind, string) -> Val, collate: (string, string) -> bool)

  ghost predicate ValidDb(db: Db) {
    && (forall s: string :: !db.collate(s, s))
    && (forall s: string, t: string, u: string :: db.collate(s, t) && db.collate(t, u) ==> db.collate(s, u))
    && (forall s: string, t: string :: s == t || db.collate(s, t) || db.collate(t, s))
    && (forall s: string :: db.cast(TextKind, s) == Text(s))
  }

  function Rank(v: Val): int {
    match v
    case Text(_) => 0
    case Num(_) => 1
    case Ordinal(_) => 2
    case Flag(_) => 3
  }

  /** The database's order of values (values of one column have one kind). */
  predicate Less(db: Db, v: Val, w: Val) {
    match (v, w)
    case (Text(s), Text(t)) => db.collate(s, t)
    case (Num(n), Num(m)) => n < m
    case (Ordinal(k), Ordinal(l)) => k < l
    case (Flag(b), Flag(c)) => !b && c
    case _ => Rank(v) < Rank(w)
  }

  lemma LessStrict(db: Db, v: Val, w: Val, x: Val)
    requires ValidDb(db)
    ensures !Less(db, v, v)
    ensures Less(db, v, w) && Less(db, w, x) ==> Less(db, v, x)
    ensures v == w || Less(db, v, w) || Less(db, w, v)
  {}

  function CellOf(row: Row, col: string): Cell { if col in row then row[col] else Null }

  function Bool(b: bool): Truth { if b then T else F }

  function Holds(db: Db, op: Op, v: Val, w: Val): bool {
    match op
    case EQ => v == w
    case LT => Less(db, v, w)
    case LE => v == w || Less(db, v, w)
    case GT => Less(db, w, v)
    case GE => v == w || Less(db, w, v)
  }

  function TextArg(args: seq<Arg>, ph: nat): string {
    if 1 <= ph <= |args| && args[ph - 1].One? then args[ph - 1].s else ""
  }

  function ListArg(args: seq<Arg>, ph: nat): seq<string> {
    if 1 <= ph <= |args| && args[ph - 1].Many? then args[ph - 1].ss else []
  }

  /** LIKE with the escape character '\': '%' stands for any text, '_' for any one character. */
  predicate LikeMatch(s: string, p: string)
    decreases |p|, |s|
  {
    if p == "" then s == ""
    else if p[0] == '\\' then |p| > 1 && s != "" && s[0] == p[1] && LikeMatch(s[1..], p[2..])
    else if p[0] == '%' then LikeMatch(s, p[1..]) || (s != "" && LikeMatch(s[1..], p))
    else if p[0] == '_' then s != "" && LikeMatch(s[1..], p[1..])
    else s != "" && s[0] == p[0] && LikeMatch(s[1..], p[1..])
  }

  function Eval(db: Db, row: Row, args: seq<Arg>, p: Pred): Truth
    decreases p, 1
  {
    match p
    case True => T
    case False => F
    case Compare(col, op, ph, kind) =>
      (match CellOf(row, col)
       case Null => N
       case Known(v) => Bool(Holds(db, op, v, db.cast(kind, TextArg(args, ph)))))
    case AnyOf(col, ph, kind) =>
      (match CellOf(row, col)
       case Null => N
       case Known(v) => Bool(exists i :: 0 <= i < |ListArg(args, ph)| && v == db.cast(kind, ListArg(args, ph)[i])))
    case Like(col, ph) =>
      (match CellOf(row, col)
       case Known(Text(s)) => Bool(LikeMatch(s, TextArg(args, ph)))
       case _ => N)
    case NotNull(col) => Bool(CellOf(row, col).Known?)
    case And(ps) => EvalAnd(db, row, args, ps)
    case Or(ps) => EvalOr(db, row, args, ps)
    case OrFalse(q) => (match Eval(db, row, args, q) case N => F case t => t)
  }

  function EvalAnd(db: Db, row: Row, args: seq<Arg>, ps: seq<Pred>): Truth
    decreases ps, 0
  {
    if ps == [] then T
    else
      match (Eval(db, row, args, ps[0]), EvalAnd(db, row, args, ps[1..]))
      case (F, _) => F
      case (_, F) => F
      case (T, T) => T
      case _ => N
  }

  function EvalOr(db: Db, row: Row, args: seq<Arg>, ps: seq<Pred>): Truth
    decreases ps, 0
  {
    if ps == [] then F
    else
      match (Eval(db, row, args, ps[0]), EvalOr(db, row, args, ps[1..]))
      case (T, _) => T
      case (_, T) => T
      case (F, F) => F
      case _ => N
  }

  /** WHERE keeps a row when its condition is true, not when it is unknown. */
  predicate Selects(db: Db, row: Row, args: seq<Arg>, p: Pred) { Eval(db, row, args, p) == T }

  lemma {:induction false} AndSelects(db: Db, row: Row, args: seq<Arg>, ps: seq<Pred>)
    ensures Selects(db, row, args, And(ps)) <==> forall p :: p in ps ==> Selects(db, row, args, p)
  {
    assert Eval(db, row, args, And(ps)) == EvalAnd(db, row, args, ps);
    if ps != [] {
      AndSelects(db, row, args, ps[1..]);
      assert Eval(db, row, args, And(ps[1..])) == EvalAnd(db, row, args, ps[1..]);
      assert Selects(db, row, args, And(ps)) <==> Selects(db, row, args, ps[0]) && Selects(db, row, args, And(ps[1..]));
      assert forall p :: p in ps <==> p == ps[0] || p in ps[1..] by { assert ps == [ps[0]] + ps[1..]; }
    }
  }

  lemma {:induction false} OrSelects(db: Db, row: Row, args: seq<Arg>, ps: seq<Pred>)
    ensures Selects(db, row, args, Or(ps)) <==> exists p :: p in ps && Selects(db, row, args, p)
  {
    assert Eval(db, row, args, Or(ps)) == EvalOr(db, row, args, ps);
    if ps != [] {
      OrSelects(db, row, args, ps[1..]);
      assert Eval(db, row, args, Or(ps[1..])) == EvalOr(db, row, args, ps[1..]);
      assert Selects(db, row, args, Or(ps)) <==> Selects(db, row, args, ps[0]) || Selects(db, row, args, Or(ps[1..]));
      assert forall p :: p in ps <==> p == ps[0] || p in ps[1..] by { assert ps == [ps[0]] + ps[1..]; }
    }
  }

  /** The highest placeholder of a predicate. */
  function Highest(p: Pred): nat
    decreases p, 1
  {
    match p
    case Compare(_, _, ph, _) => ph
    case AnyOf(_, ph, _) => ph
    case Like(_, ph) => ph
    case And(ps) => HighestOf(ps)
    case Or(ps) => HighestOf(ps)
    case OrFalse(q) => Highest(q)
    case _ => 0
  }

  function HighestOf(ps: seq<Pred>): nat
    decreases ps, 0
  {
    if ps == [] then 0 else var h := Highest(ps[0]); var t := HighestOf(ps[1..]); if h > t then h else t
  }

  /** Arguments appended later never change what an earlier placeholder means. */
  lemma {:induction false} LaterArgs(db: Db, row: Row, args: seq<Arg>, more: seq<Arg>, p: Pred)
    requires Highest(p) <= |args|
    ensures Eval(db, row, args + more, p) == Eval(db, row, args, p)
    decreases p, 1
  {
    match p
    case And(ps) => LaterArgsAll(db, row, args, more, ps);
    case Or(ps) => LaterArgsAll(db, row, args, more, ps);
    case OrFalse(q) => LaterArgs(db, row, args, more, q);
    case Compare(_, _, ph, _) => assert TextArg(args + more, ph) == TextArg(args, ph);
    case AnyOf(_, ph, _) => assert ListArg(args + more, ph) == ListArg(args, ph);
    case Like(_, ph) => assert TextArg(args + more, ph) == TextArg(args, ph);
    case _ =>
  }

  lemma {:induction false} LaterArgsAll(db: Db, row: Row, args: seq<Arg>, more: seq<Arg>, ps: seq<Pred>)
    requires HighestOf(ps) <= |args|
    ensures EvalAnd(db, row, args + more, ps) == EvalAnd(db, row, args, ps)
    ensures EvalOr(db, row, args + more, ps) == EvalOr(db, row, args, ps)
    decreases ps, 0
  {
    if ps != [] {
      LaterArgs(db, row, args, more, ps[0]);
      LaterArgsAll(db, row, args, more, ps[1..]);
    }
  }
}
