/** The compiler as besdk/authz/plan.py runs it: arguments appended to one shared list while the text is built. */
module PlanCompiler {
  import opened Wrappers
  import opened Sql
  import opened Segments
  import opened Plan
  import PlanMeaning
  import Sorting

  lemma {:induction false} TreeSnoc(c: Context, col: string, items: seq<TreeItem>, item: TreeItem, args: seq<Arg>)
    ensures var s := TreeParts(c, col, items, args);
      TreeParts(c, col, items + [item], args) ==
        Done(s.parts + [PlanMeaning.ItemPred(col, item, c.base + |s.args| + 1)], s.args + PlanMeaning.ItemArgs(item))
  {
    var all := items + [item];
    PlanMeaning.TreeUnfold(c, col, all, args);
    if items == [] {
      assert all[1..] == [];
    } else {
      assert all[0] == items[0] && all[1..] == items[1..] + [item];
      PlanMeaning.TreeUnfold(c, col, items, args);
      TreeSnoc(c, col, items[1..], item, args + PlanMeaning.ItemArgs(items[0]));
    }
  }

  lemma {:induction false} EntriesSnoc(c: Context, es: seq<Entry>, e: Entry, args: seq<Arg>)
    ensures EntriesStep(c, es + [e], args) ==
      match EntriesStep(c, es, args)
      case Refused => Refused
      case Done(parts, args1) =>
        match AtomStep(c, e.dim, e.atom, args1)
        case Refused => Refused
        case Done(more, args2) => Done(parts + more, args2)
  {
    var all := es + [e];
    if es == [] {
      assert all[1..] == [];
    } else {
      assert all[0] == es[0] && all[1..] == es[1..] + [e];
      match AtomStep(c, es[0].dim, es[0].atom, args)
      case Refused =>
      case Done(parts, args1) => EntriesSnoc(c, es[1..], e, args1);
    }
  }

  lemma {:induction false} EntriesRefused(c: Context, es: seq<Entry>, more: seq<Entry>, args: seq<Arg>)
    requires EntriesStep(c, es, args).Refused?
    ensures EntriesStep(c, es + more, args).Refused?
  {
    var all := es + more;
    if es != [] {
      assert all[0] == es[0] && all[1..] == es[1..] + more;
      match AtomStep(c, es[0].dim, es[0].atom, args)
      case Refused =>
      case Done(parts, args1) => EntriesRefused(c, es[1..], more, args1);
    }
  }

  lemma {:induction false} SegmentsSnoc(c: Context, ss: seq<Segment>, s: Segment, args: seq<Arg>)
    ensures SegmentsStep(c, ss + [s], args) ==
      match SegmentsStep(c, ss, args)
      case Refused => Refused
      case Done(parts, args1) =>
        match SegmentStep(c, s, args1)
        case Refused => Refused
        case Done(more, args2) => Done(parts + more, args2)
  {
    var all := ss + [s];
    if ss == [] {
      assert all[1..] == [];
    } else {
      assert all[0] == ss[0] && all[1..] == ss[1..] + [s];
      match SegmentStep(c, ss[0], args)
      case Refused =>
      case Done(parts, args1) => SegmentsSnoc(c, ss[1..], s, args1);
    }
  }

  lemma {:induction false} SegmentsRefused(c: Context, ss: seq<Segment>, more: seq<Segment>, args: seq<Arg>)
    requires SegmentsStep(c, ss, args).Refused?
    ensures SegmentsStep(c, ss + more, args).Refused?
  {
    var all := ss + more;
    if ss != [] {
      assert all[0] == ss[0] && all[1..] == ss[1..] + more;
      match SegmentStep(c, ss[0], args)
      case Refused =>
      case Done(parts, args1) => SegmentsRefused(c, ss[1..], more, args1);
    }
  }

  class Compiler {
    const c: Context
    var args: seq<Arg>

    constructor (c: Context)
      ensures this.c == c && args == []
    {
      this.c := c;
      args := [];
    }

    /** Appends an argument and returns its placeholder. */
    method Argument(v: Arg) returns (ph: nat)
      modifies this
      ensures args == old(args) + [v] && ph == c.base + |old(args)| + 1
    {
      args := args + [v];
      return c.base + |args|;
    }

    method TreeText(col: string, items: seq<TreeItem>) returns (parts: seq<Pred>)
      modifies this
      ensures Done(parts, args) == TreeParts(c, col, items, old(args))
    {
      parts := [];
      for i := 0 to |items|
        invariant Done(parts, args) == TreeParts(c, col, items[..i], old(args))
      {
        var it := items[i];
        TreeSnoc(c, col, items[..i], it, old(args));
        assert items[..i + 1] == items[..i] + [it];
        var ph := Argument(One(it.path));
        if it.mode == Subtree {
          var below := Argument(One(LikeEscape(it.path) + "/%"));
          parts := parts + [Or([Compare(col, EQ, ph, TextKind), Like(col, below)])];
        } else {
          parts := parts + [Compare(col, EQ, ph, TextKind)];
        }
      }
      assert items[..|items|] == items;
    }

    /** The conjuncts of one atom; None where the source raises QUERY_NOT_COMPLETABLE (or has no such dimension). */
    method AtomText(dim: string, a: Atom) returns (r: Option<seq<Pred>>)
      modifies this
      ensures match AtomStep(c, dim, a, old(args))
        case Refused => r.None?
        case Done(parts, args1) => r == Some(parts) && args == args1
    {
      if dim !in c.r.dimensions { return None; }
      var d := c.r.dimensions[dim];
      var col := d.column;
      if !a.All? && d.pushdown == NotPushdownable { return None; }
      match a
      case All => return Some([]);
      case In(values) =>
        if values == [] { return Some([False]); }
        var ph := Argument(Many(values));
        return Some([AnyOf(col, ph, ColumnKind(d))]);
      case Self =>
        var ph := Argument(One(c.principal));
        return Some([Compare(col, EQ, ph, TextKind)]);
      case Tree(items) =>
        var parts := TreeText(col, items);
        return Some([if items == [] then False else Or(parts)]);
      case Interval(currency, lo, hi) =>
        var ph := Argument(One(currency));
        var parts := [NotNull(col), Compare(d.currencyColumn, EQ, ph, TextKind)];
        if lo.Some? {
          ph := Argument(One(lo.value.text));
          parts := parts + [Compare(col, if lo.value.closed then GE else GT, ph, Numeric)];
        }
        if hi.Some? {
          ph := Argument(One(hi.value.text));
          parts := parts + [Compare(col, if hi.value.closed then LE else LT, ph, Numeric)];
        }
        ghost var head := [NotNull(col), Compare(d.currencyColumn, EQ, c.base + |old(args)| + 1, TextKind)];
        ghost var l := BoundParts(c, col, lo, GE, GT, old(args) + [One(currency)]);
        ghost var h := BoundParts(c, col, hi, LE, LT, l.args);
        assert parts == head + l.parts + h.parts && args == h.args;
        return Some([And(parts)]);
      case Unreadable => return None;
    }

    method SegmentText(s: Segment) returns (r: Option<Pred>)
      modifies this
      ensures match SegmentStep(c, s, old(args))
        case Refused => r.None?
        case Done(parts, args1) => r == Some(parts[0]) && args == args1
    {
      var es := Sorting.Sort(DimLess, s.atoms);
      var parts := [];
      for i := 0 to |es|
        invariant Done(parts, args) == EntriesStep(c, es[..i], old(args))
      {
        EntriesSnoc(c, es[..i], es[i], old(args));
        assert es[..i + 1] == es[..i] + [es[i]];
        var p := AtomText(es[i].dim, es[i].atom);
        if p.None? {
          EntriesRefused(c, es[..i + 1], es[i + 1..], old(args));
          assert es[..i + 1] + es[i + 1..] == es;
          return None;
        }
        parts := parts + p.value;
      }
      assert es[..|es|] == es;
      return Some(if parts == [] then True else And(parts));
    }

    method SegmentTexts(ss: seq<Segment>) returns (r: Option<seq<Pred>>)
      modifies this
      ensures match SegmentsStep(c, ss, old(args))
        case Refused => r.None?
        case Done(parts, args1) => r == Some(parts) && args == args1
    {
      var parts := [];
      for i := 0 to |ss|
        invariant Done(parts, args) == SegmentsStep(c, ss[..i], old(args))
      {
        SegmentsSnoc(c, ss[..i], ss[i], old(args));
        assert ss[..i + 1] == ss[..i] + [ss[i]];
        var p := SegmentText(ss[i]);
        if p.None? {
          SegmentsRefused(c, ss[..i + 1], ss[i + 1..], old(args));
          assert ss[..i + 1] + ss[i + 1..] == ss;
          return None;
        }
        parts := parts + [p.value];
      }
      assert ss[..|ss|] == ss;
      return Some(parts);
    }
  }

  method CompilePlan(q: Asker, r: Resource, segs: seq<Segment>, op: string, base: nat) returns (plan: Option<ListPlan>)
    ensures plan == PlanOf(q, r, segs, op, base)
  {
    var c := new Compiler(Context(r, q.principal, base));
    var view := Active(segs, r.viewOperation, q.at);
    var viewPreds := c.SegmentTexts(view);
    if viewPreds.None? { return None; }
    if op == r.viewOperation {
      return Some(ListPlan(OrAll(viewPreds.value), c.args, Hits(viewPreds.value), FieldSets(r, view)));
    }
    var ops := Active(segs, op, q.at);
    var opPreds := c.SegmentTexts(ops);
    if opPreds.None? { return None; }
    return Some(ListPlan(And([OrAll(viewPreds.value), OrAll(opPreds.value)]), c.args, Hits(opPreds.value),
                         FieldSets(r, ops)));
  }
}
