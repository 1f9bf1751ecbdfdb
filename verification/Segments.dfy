/** Complete segments and their evaluation over one record (besdk/authz/segment.py). */
module Segments {
  import opened Wrappers
  import Json

  datatype Tri = FALSE | TRUE | UNKNOWN

  datatype Fact = Value(value: string, currency: string) | NullFact | Unobtained

  datatype Mode = Exact | Subtree
  datatype TreeItem = TreeItem(path: string, mode: Mode)
  datatype Bound = Bound(text: string, closed: bool)

  /** A condition on one dimension. Unreadable is an atom of a kind this code does not know. */
  datatype Atom =
    | All
    | In(values: seq<string>)
    | Self
    | Tree(items: seq<TreeItem>)
    | Interval(currency: string, lo: Option<Bound>, hi: Option<Bound>)
    | Unreadable

  datatype Entry = Entry(dim: string, atom: Atom)

  datatype End = Open | Until(t: int) | Malformed

  /** Instants are numbers; an instant that is not RFC 3339 is None or Malformed. */
  datatype Segment = Segment(operation: string, atoms: seq<Entry>, readFields: seq<string>, start: Option<int>,
                             end: End)

  datatype DimKind = ValueSet | OrgTree | Principal | Amount

  datatype Pushdown = LocalColumn | LocalProjection | NotPushdownable

  datatype Dimension = Dimension(kind: DimKind, column: string, currencyColumn: string, pushdown: Pushdown)

  datatype FieldClass = Ordinary | Restricted | Secret

  datatype Resource = Resource(viewOperation: string, dimensions: map<string, Dimension>,
                               fields: map<string, FieldClass>)

  /** Who asks and when; decimal reads a decimal string (DecimalValue below is the protocol's reading). */
  datatype Asker = Asker(principal: string, at: int, decimal: string -> Option<real>)

  datatype Decision = Decision(visible: Tri, action: Tri, fields: set<string>)

  // ----- decimal strings: -?[0-9]+(\.[0-9]+)?([eE][-+]?[0-9]+)? -----

  function DigitRun(s: string): (k: nat)
    ensures k <= |s|
  {
    if s != "" && Json.IsDigit(s[0]) then DigitRun(s[1..]) + 1 else 0
  }

  /** The value of a run of digits after acc. */
  function Digits(s: string, acc: int): int {
    if s == "" then acc else Digits(s[1..], 10 * acc + (s[0] as int - '0' as int))
  }

  /** m with its decimal point moved e places. */
  function Shift(m: real, e: int): real
    decreases if e < 0 then -e else e
  {
    if e == 0 then m else if e > 0 then Shift(10.0 * m, e - 1) else Shift(m / 10.0, e + 1)
  }

  function Exponent(s: string): Option<int> {
    if s == "" then Some(0)
    else if s[0] != 'e' && s[0] != 'E' then None
    else
      var signed := |s| > 1 && (s[1] == '+' || s[1] == '-');
      var d := if signed then s[2..] else s[1..];
      if d == "" || DigitRun(d) < |d| then None
      else Some(if signed && s[1] == '-' then -Digits(d, 0) else Digits(d, 0))
  }

  /** The value of the digits d before u, a fraction and an exponent (each may be missing). */
  function Assembled(d: string, u: string, neg: bool): Option<real> {
    var f := if |u| > 1 && u[0] == '.' then DigitRun(u[1..]) else 0;
    match Exponent(if f > 0 then u[f + 1..] else u)
    case None => None
    case Some(e) =>
      var m := Digits(d + (if f > 0 then u[1..f + 1] else ""), 0);
      Some(Shift((if neg then -m else m) as real, e - f))
  }

  /** The value of a decimal string without its sign, negated when neg. */
  function Magnitude(t: string, neg: bool): Option<real> {
    var k := DigitRun(t);
    if k == 0 then None else Assembled(t[..k], t[k..], neg)
  }

  /** The value of a decimal string, None when it is not one. */
  function DecimalValue(s: string): Option<real> {
    if s != "" && s[0] == '-' then Magnitude(s[1..], true) else Magnitude(s, false)
  }

  // ----- the evaluation -----

  predicate ActiveAt(s: Segment, t: int) {
    s.start.Some? && s.start.value <= t && (s.end.Open? || (s.end.Until? && t < s.end.t))
  }

  predicate ItemHit(i: TreeItem, v: string) {
    v == i.path || (i.mode == Subtree && i.path + "/" <= v)
  }

  predicate DecimalBound(q: Asker, b: Option<Bound>) { b.None? || q.decimal(b.value.text).Some? }

  function IntervalTri(q: Asker, a: Atom, f: Fact): Tri
    requires a.Interval? && f.Value?
  {
    if f.currency != a.currency then FALSE
    else if q.decimal(f.value).None? || !DecimalBound(q, a.lo) || !DecimalBound(q, a.hi) then UNKNOWN
    else
      var amount := q.decimal(f.value).value;
      if a.lo.Some? && (var lo := q.decimal(a.lo.value.text).value; amount < lo || (amount == lo && !a.lo.value.closed))
      then FALSE
      else if a.hi.Some? && (var hi := q.decimal(a.hi.value.text).value;
                  amount > hi || (amount == hi && !a.hi.value.closed))
      then FALSE
      else TRUE
  }

  function Of(b: bool): Tri { if b then TRUE else FALSE }

  function AtomTri(q: Asker, a: Atom, f: Option<Fact>): Tri {
    if a.All? then TRUE
    else if f.None? || f.value.Unobtained? then UNKNOWN
    else if f.value.NullFact? then FALSE
    else
      var v := f.value.value;
      match a
      case In(values) => Of(v in values)
      case Self => Of(v == q.principal)
      case Tree(items) =>
        if v == "" then FALSE else Of(exists i :: 0 <= i < |items| && ItemHit(items[i], v))
      case Interval(_, _, _) => IntervalTri(q, a, f.value)
      case _ => UNKNOWN
  }

  type Facts = map<string, Fact>

  function FactOf(facts: Facts, dim: string): Option<Fact> { if dim in facts then Some(facts[dim]) else None }

  function EntryTri(q: Asker, e: Entry, facts: Facts): Tri { AtomTri(q, e.atom, FactOf(facts, e.dim)) }

  /** One segment: false when inactive or when any atom is false, true when every atom is. */
  ghost function SegmentTri(q: Asker, s: Segment, facts: Facts): Tri {
    if !ActiveAt(s, q.at) || exists e :: e in s.atoms && EntryTri(q, e, facts) == FALSE then FALSE
    else if exists e :: e in s.atoms && EntryTri(q, e, facts) == UNKNOWN then UNKNOWN
    else TRUE
  }

  ghost predicate Gives(q: Asker, s: Segment, op: string, facts: Facts, t: Tri) {
    s.operation == op && SegmentTri(q, s, facts) == t
  }

  /** The operation's segments together: true when any is, and otherwise unknown when any is. */
  ghost function EntitledTri(q: Asker, segs: seq<Segment>, op: string, facts: Facts): Tri {
    if exists s :: s in segs && Gives(q, s, op, facts, TRUE) then TRUE
    else if exists s :: s in segs && Gives(q, s, op, facts, UNKNOWN) then UNKNOWN
    else FALSE
  }

  ghost predicate Reads(q: Asker, segs: seq<Segment>, op: string, facts: Facts, f: string) {
    exists s :: s in segs && Gives(q, s, op, facts, TRUE) && f in s.readFields
  }

  function Both(a: Tri, b: Tri): Tri {
    if a == FALSE || b == FALSE then FALSE else if a == UNKNOWN || b == UNKNOWN then UNKNOWN else TRUE
  }

  ghost function ActionTri(q: Asker, r: Resource, segs: seq<Segment>, op: string, facts: Facts): Tri {
    var visible := EntitledTri(q, segs, r.viewOperation, facts);
    if op == r.viewOperation then visible else Both(visible, EntitledTri(q, segs, op, facts))
  }

  predicate Output(r: Resource, f: string) { f in r.fields && r.fields[f] != Secret }

  /** _segment: the loop stops at the first false atom and remembers an unknown one. */
  method SegmentTruth(q: Asker, s: Segment, facts: Facts) returns (out: Tri)
    ensures out == SegmentTri(q, s, facts)
  {
    if !ActiveAt(s, q.at) { return FALSE; }
    out := TRUE;
    for i := 0 to |s.atoms|
      invariant forall e :: e in s.atoms[..i] ==> EntryTri(q, e, facts) != FALSE
      invariant out != FALSE
      invariant out == UNKNOWN <==> exists e :: e in s.atoms[..i] && EntryTri(q, e, facts) == UNKNOWN
    {
      var e := s.atoms[i];
      assert s.atoms[..i + 1] == s.atoms[..i] + [e];
      var r := EntryTri(q, e, facts);
      if r == FALSE {
        assert e in s.atoms;
        return FALSE;
      }
      if r == UNKNOWN { out := UNKNOWN; }
    }
    assert s.atoms[..|s.atoms|] == s.atoms;
  }

  /** _entitled: the disjunction over the operation's segments and the fields of the true ones. */
  method Entitled(q: Asker, segs: seq<Segment>, op: string, facts: Facts)
    returns (res: Tri, fields: set<string>)
    ensures res == EntitledTri(q, segs, op, facts)
    ensures forall f :: f in fields <==> Reads(q, segs, op, facts, f)
  {
    res, fields := FALSE, {};
    for i := 0 to |segs|
      invariant res == TRUE <==> exists s :: s in segs[..i] && Gives(q, s, op, facts, TRUE)
      invariant res != TRUE ==> (res == UNKNOWN <==> exists s :: s in segs[..i] && Gives(q, s, op, facts, UNKNOWN))
      invariant forall f :: f in fields <==> Reads(q, segs[..i], op, facts, f)
    {
      var s := segs[i];
      assert segs[..i + 1] == segs[..i] + [s];
      if s.operation != op {
        assert forall t :: !Gives(q, s, op, facts, t);
        continue;
      }
      var r := SegmentTruth(q, s, facts);
      assert Gives(q, s, op, facts, r);
      if r == TRUE {
        res := TRUE;
        fields := fields + set f | f in s.readFields;
      } else if r == UNKNOWN && res == FALSE {
        res := UNKNOWN;
      }
    }
    assert segs[..|segs|] == segs;
  }

  /** evaluate: visibility by the view operation, the operation's permission, and the fields readable for it. */
  method Evaluate(q: Asker, r: Resource, segs: seq<Segment>, op: string, facts: Facts)
    returns (d: Decision)
    ensures d.visible == EntitledTri(q, segs, r.viewOperation, facts)
    ensures d.action == ActionTri(q, r, segs, op, facts)
    ensures d.visible != TRUE ==> d.fields == {}
    ensures d.visible == TRUE ==>
      forall f :: f in d.fields <==> Output(r, f) && Reads(q, segs, op, facts, f)
  {
    var visible, fields := Entitled(q, segs, r.viewOperation, facts);
    var action := visible;
    if op != r.viewOperation {
      var act;
      act, fields := Entitled(q, segs, op, facts);
      action := Both(visible, act);
    }
    var readable := {};
    if visible == TRUE {
      readable := set f | f in fields && Output(r, f);
    }
    return Decision(visible, action, readable);
  }

  // ----- which segments a resource accepts -----

  /** Segment.check for one atom. */
  predicate AtomFits(d: Dimension, a: Atom) {
    match a
    case All => true
    case In(_) => true
    case Tree(_) => d.kind == OrgTree
    case Self => d.kind == Principal
    case Interval(_, lo, hi) => d.kind == Amount && (lo.Some? || hi.Some?)
    case Unreadable => false
  }

  predicate DistinctDims(es: seq<Entry>) { forall i, j :: 0 <= i < j < |es| ==> es[i].dim != es[j].dim }

  /** Segment.check: exactly one atom for each declared dimension, each of a kind the dimension allows. */
  predicate Fits(r: Resource, s: Segment) {
    && DistinctDims(s.atoms)
    && |s.atoms| == |r.dimensions|
    && forall i :: 0 <= i < |s.atoms| ==>
      s.atoms[i].dim in r.dimensions && AtomFits(r.dimensions[s.atoms[i].dim], s.atoms[i].atom)
  }
}
