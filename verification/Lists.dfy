/** Compiling a list request (besdk/lists.py): narrowing, filters, sorts and the cursor on top of the plan. */
module Lists {
  import opened Wrappers
  import opened Sql
  import opened ListOrder
  import opened Paging
  import opened Plan
  import Canon
  import Cursor
  import Segments
  import Sorting

  const DEFAULT_LIMIT := 50
  const MAX_LIMIT := 200

  datatype Column = Column(column: string, kind: Kind, sortable: bool, filterable: bool)

  /** A list's declaration; its columns are keyed by field. */
  datatype Spec = Spec(idColumn: string, idKind: Kind, columns: map<string, Column>, searches: bool)

  datatype SortBy = SortBy(field: string, desc: bool)
  datatype Filter = Filter(field: string, op: string, values: seq<string>)

  datatype Request = Request(sort: seq<SortBy>, filters: seq<Filter>, q: string, cursor: string, limit: int,
                             readableOnly: seq<string>)

  datatype Refusal = Invalid(name: string) | NotQueryable(field: string) | CapabilityUnsupported
                     | CursorRefused(why: Cursor.Refusal)

  /** Splitting a keyword into words joined by one space, and the digest of the request. */
  datatype Host = Host(words: string -> string, digest: (seq<Filter>, string, seq<SortBy>, seq<string>) -> string)

  /** What the list is built on: the resource, the subject's compiled plan and its digest. */
  datatype Base = Base(r: Segments.Resource, plan: ListPlan, digest: string)

  predicate WholePlan(p: ListPlan) { |p.hits| == |p.sets| }

  /** The conditions so far, their arguments, and the restricted fields the request narrowed to. */
  datatype Conditions = Conditions(parts: seq<Pred>, args: seq<Arg>, narrowed: seq<string>)

  function Narrow(b: Base, c: Conditions, names: seq<string>): Result<Conditions, Refusal>
    requires WholePlan(b.plan)
    decreases names
  {
    if names == [] then Ok(c)
    else if !Segments.Output(b.r, names[0]) then Err(Invalid("readable_only." + names[0]))
    else if names[0] in c.narrowed then Narrow(b, c, names[1..])
    else
      Narrow(b, Conditions(c.parts + [ReadableWhere(b.plan, names[0])], c.args, c.narrowed + [names[0]]), names[1..])
  }

  /** A field that only some callers may read, and that the request did not narrow the list to. */
  predicate Hidden(b: Base, narrowed: seq<string>, field: string) {
    field in b.r.fields && b.r.fields[field] != Segments.Ordinary && field !in narrowed
  }

  predicate Queryable(b: Base, narrowed: seq<string>, field: string) {
    Hidden(b, narrowed, field) ==> ReadableEverywhere(b.plan, field)
  }

  function OpOf(op: string): Option<Op> {
    if op == "eq" then Some(EQ)
    else if op == "gte" then Some(GE)
    else if op == "gt" then Some(GT)
    else if op == "lte" then Some(LE)
    else if op == "lt" then Some(LT)
    else None
  }

  /** _Builder.filter: one condition, and the arguments with its own appended. */
  function FilterStep(col: Column, f: Filter, args: seq<Arg>): Result<(Pred, seq<Arg>), Refusal> {
    if f.op == "in" then
      if f.values == [] then Ok((False, args))
      else Ok((AnyOf(col.column, |args| + 1, col.kind), args + [Many(f.values)]))
    else if OpOf(f.op).None? || |f.values| != 1 then Err(Invalid("filter." + f.field))
    else Ok((Compare(col.column, OpOf(f.op).value, |args| + 1, col.kind), args + [One(f.values[0])]))
  }

  function AddFilters(b: Base, spec: Spec, c: Conditions, fs: seq<Filter>): Result<Conditions, Refusal>
    decreases fs
  {
    if fs == [] then Ok(c)
    else
      var f := fs[0];
      if f.field !in spec.columns || !spec.columns[f.field].filterable then Err(Invalid("filter." + f.field))
      else if !Queryable(b, c.narrowed, f.field) then Err(NotQueryable(f.field))
      else
        match FilterStep(spec.columns[f.field], f, c.args)
        case Err(e) => Err(e)
        case Ok((p, args)) => AddFilters(b, spec, Conditions(c.parts + [p], args, c.narrowed), fs[1..])
  }

  function AddKeyword(spec: Spec, c: Conditions, words: string): Result<Conditions, Refusal> {
    if words == "" then Ok(c)
    else if spec.searches then Err(CapabilityUnsupported)
    else Ok(c.(parts := c.parts + [False]))
  }

  /** The list's sort keys, or the first sort it refuses. */
  function SortKeys(b: Base, spec: Spec, narrowed: seq<string>, sorts: seq<SortBy>): (r: Result<seq<Key>, Refusal>)
    ensures r.Ok? ==> forall s :: s in sorts ==> s.field in spec.columns && Queryable(b, narrowed, s.field)
  {
    if sorts == [] then Ok([])
    else
      var s := sorts[0];
      if s.field !in spec.columns || !spec.columns[s.field].sortable then Err(Invalid("sort." + s.field))
      else if !Queryable(b, narrowed, s.field) then Err(NotQueryable(s.field))
      else
        match SortKeys(b, spec, narrowed, sorts[1..])
        case Err(e) => Err(e)
        case Ok(keys) => Ok([Key(spec.columns[s.field].column, spec.columns[s.field].kind, s.desc)] + keys)
  }

  predicate NameLess(a: string, b: string) { Canon.LexLess(Codes(a), Codes(b)) }

  function PageSize(limit: int): (r: Result<nat, Refusal>)
    ensures r.Ok? ==> 1 <= r.value <= MAX_LIMIT
  {
    var n := if limit == 0 then DEFAULT_LIMIT else limit;
    if n < 1 || n > MAX_LIMIT then Err(Invalid("limit")) else Ok(n)
  }

  /** The conditions of a request before its cursor. */
  function ConditionsOf(host: Host, b: Base, spec: Spec, req: Request): Result<Conditions, Refusal>
    requires WholePlan(b.plan)
  {
    match Narrow(b, Conditions([b.plan.where], b.plan.args, []), req.readableOnly)
    case Err(e) => Err(e)
    case Ok(c0) =>
      match AddFilters(b, spec, c0, req.filters)
      case Err(e) => Err(e)
      case Ok(c1) => AddKeyword(spec, c1, host.words(req.q))
  }

  /** A request without its cursor, compiled. */
  function ListOf(host: Host, b: Base, spec: Spec, req: Request): (r: Result<List, Refusal>)
    requires WholePlan(b.plan)
    ensures r.Ok? ==> 1 <= r.value.limit <= MAX_LIMIT
  {
    match PageSize(req.limit)
    case Err(e) => Err(e)
    case Ok(limit) =>
      match ConditionsOf(host, b, spec, req)
      case Err(e) => Err(e)
      case Ok(c) =>
        match SortKeys(b, spec, c.narrowed, req.sort)
        case Err(e) => Err(e)
        case Ok(keys) =>
          var hash := host.digest(req.filters, host.words(req.q), req.sort, Sorting.Sort(NameLess, c.narrowed));
          Ok(List(Order(keys, spec.idColumn, spec.idKind), limit, hash, b.digest, c.parts, c.args))
  }

  datatype Query = Query(list: List, statement: Statement)

  function QueryOf(host: Host, b: Base, spec: Spec, req: Request): (r: Result<Query, Refusal>)
    requires WholePlan(b.plan)
    ensures r.Ok? ==> 1 <= r.value.list.limit <= MAX_LIMIT
  {
    match ListOf(host, b, spec, req)
    case Err(e) => Err(e)
    case Ok(l) =>
      match Resumed(l, req.cursor)
      case Err(e) => Err(CursorRefused(e))
      case Ok(s) => Ok(Query(l, s))
  }

  /** build's narrowing loop. */
  method NarrowAll(b: Base, names: seq<string>) returns (out: Result<Conditions, Refusal>)
    requires WholePlan(b.plan)
    ensures out == Narrow(b, Conditions([b.plan.where], b.plan.args, []), names)
  {
    var parts, narrowed := [b.plan.where], [];
    for i := 0 to |names|
      invariant Narrow(b, Conditions(parts, b.plan.args, narrowed), names[i..]) ==
        Narrow(b, Conditions([b.plan.where], b.plan.args, []), names)
    {
      var name := names[i];
      assert names[i..][1..] == names[i + 1..];
      if !Segments.Output(b.r, name) { return Err(Invalid("readable_only." + name)); }
      if name !in narrowed { parts, narrowed := parts + [ReadableWhere(b.plan, name)], narrowed + [name]; }
    }
    return Ok(Conditions(parts, b.plan.args, narrowed));
  }

  /** build's filter loop: the arguments grow with the conditions. */
  method FilterAll(b: Base, spec: Spec, c: Conditions, fs: seq<Filter>) returns (out: Result<Conditions, Refusal>)
    ensures out == AddFilters(b, spec, c, fs)
  {
    var parts, args := c.parts, c.args;
    for i := 0 to |fs|
      invariant AddFilters(b, spec, Conditions(parts, args, c.narrowed), fs[i..]) == AddFilters(b, spec, c, fs)
    {
      var f := fs[i];
      assert fs[i..][1..] == fs[i + 1..];
      if f.field !in spec.columns || !spec.columns[f.field].filterable { return Err(Invalid("filter." + f.field)); }
      if !Queryable(b, c.narrowed, f.field) { return Err(NotQueryable(f.field)); }
      var step := FilterStep(spec.columns[f.field], f, args);
      if step.Err? { return Err(step.error); }
      parts, args := parts + [step.value.0], step.value.1;
    }
    return Ok(Conditions(parts, args, c.narrowed));
  }

  /** build's loop over the sorts. */
  method SortAll(b: Base, spec: Spec, narrowed: seq<string>, sorts: seq<SortBy>)
    returns (out: Result<seq<Key>, Refusal>)
    ensures out == SortKeys(b, spec, narrowed, sorts)
  {
    var keys := [];
    assert sorts[0..] == sorts && forall rest: seq<Key> :: [] + rest == rest;
    for i := 0 to |sorts|
      invariant SortKeys(b, spec, narrowed, sorts) ==
        (match SortKeys(b, spec, narrowed, sorts[i..])
         case Err(e) => Err(e)
         case Ok(rest) => Ok(keys + rest))
    {
      var s := sorts[i];
      assert sorts[i..][1..] == sorts[i + 1..];
      if s.field !in spec.columns || !spec.columns[s.field].sortable { return Err(Invalid("sort." + s.field)); }
      if !Queryable(b, narrowed, s.field) { return Err(NotQueryable(s.field)); }
      var key := Key(spec.columns[s.field].column, spec.columns[s.field].kind, s.desc);
      assert forall rest: seq<Key> :: keys + ([key] + rest) == (keys + [key]) + rest;
      keys := keys + [key];
    }
    assert keys + [] == keys;
    return Ok(keys);
  }

  /** build: the page size, then each loop in turn, then the cursor; the first refusal ends it. */
  method Build(host: Host, b: Base, spec: Spec, req: Request) returns (out: Result<Query, Refusal>)
    requires WholePlan(b.plan)
    ensures out == QueryOf(host, b, spec, req)
  {
    var limit := PageSize(req.limit);
    if limit.Err? { return Err(limit.error); }
    var narrowed := NarrowAll(b, req.readableOnly);
    if narrowed.Err? { return Err(narrowed.error); }
    var filtered := FilterAll(b, spec, narrowed.value, req.filters);
    if filtered.Err? { return Err(filtered.error); }
    var words := host.words(req.q);
    var c := AddKeyword(spec, filtered.value, words);
    if c.Err? { return Err(c.error); }
    var keys := SortAll(b, spec, c.value.narrowed, req.sort);
    if keys.Err? { return Err(keys.error); }
    var hash := host.digest(req.filters, words, req.sort, Sorting.Sort(NameLess, c.value.narrowed));
    var l := List(Order(keys.value, spec.idColumn, spec.idKind), limit.value, hash, b.digest,
                  c.value.parts, c.value.args);
    var s := Resumed(l, req.cursor);
    if s.Err? { return Err(CursorRefused(s.error)); }
    return Ok(Query(l, s.value));
  }
}
