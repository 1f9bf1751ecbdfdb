/** The local audit table (besdk/audit.py): numbering, and the purge of rows whose receipts the audit component's backup
    covers. */
module Audit {
  import opened Wrappers
  import opened Outbox

  // ----- numbering (number): the outbox's algorithm without the epoch history -----

  function AuditStart(db: Db, e: Epoch): Db { StartEpoch(db, e).(forks := []) }

  /** Positions of every epoch are 1, 2, 3, ... in the order given, a row is numbered once, and rows of one batch follow
      insertion order from the next position on. */
  lemma AuditNumbering(db: Db, e: Epoch, size: nat, picked: seq<nat>)
    requires DbOk(db) && db.forks == [] && (db.counter.Some? ==> UpTo(db.counter.value, e))
    requires Picks(AuditStart(db, e), size, picked)
    ensures var u := NumberAll(AuditStart(db, e), e, picked);
      && DbOk(u) && Exact(u.lineage) && OncePerRow(u.lineage)
      && u.lineage == db.lineage + Positions(e, CountOf(db.lineage, e), picked) && u.last == CountOf(u.lineage, e)
  {
    var start := AuditStart(db, e);
    StartKeeps(db, e);
    assert DbOk(start);
    NumberKeeps(start, e, picked);
    NumberLineage(start, e, picked);
  }

  // ----- purge -----

  datatype Receipt = Receipt(epoch: Epoch, num: int)

  datatype Transfer = Pending | Received(receipt: Option<Receipt>, aged: bool) | Conflict

  /** What the audit component's backup covers: a storage position in its epoch, the forks of the ancestors of that
      epoch, and whether a backup has completed in it. */
  datatype Watermark = Watermark(epoch: Epoch, num: int, ancestors: seq<(Epoch, int)>, backedUp: bool)

  datatype Verdict = Delete | Keep | Resend

  function ForkOf(ancestors: seq<(Epoch, int)>, e: Epoch): Option<int> {
    if ancestors == [] then None
    else if ancestors[0].0 == e then Some(ancestors[0].1)
    else ForkOf(ancestors[1..], e)
  }

  /** The decision for one row, as the protocol states it: by the watermark in its own epoch, by the fork in an
      ancestor's, kept in a later epoch, and sent again when it is not on the current history. Sending again asks for
      no age. */
  function Decide(w: Watermark, t: Transfer): Verdict {
    match t
    case Received(Some(r), aged) =>
      if r.epoch == w.epoch then if r.num <= w.num && aged then Delete else Keep
      else
        (match ForkOf(w.ancestors, r.epoch)
         case Some(fork) => if r.num > fork then Resend else if w.backedUp && aged then Delete else Keep
         case None => if EpochLess(w.epoch, r.epoch) then Keep else Resend)
    case _ => Keep
  }

  /** A row is deleted exactly when it is old enough and its receipt lies in the backup: at or below the watermark
      in its own epoch, or at or below the fork of an ancestor once a backup has completed. It is sent again exactly
      when its receipt is not on the current history: past the fork of an ancestor, or of an epoch that is neither
      current nor an ancestor nor later. */
  lemma DecidesExactly(w: Watermark, t: Transfer)
    requires WellFormed(w)
    ensures Decide(w, t) == Delete <==>
      && t.Received? && t.receipt.Some? && t.aged
      && var r := t.receipt.value;
      || (r.epoch == w.epoch && r.num <= w.num)
      || (w.backedUp && exists i :: 0 <= i < |w.ancestors| && w.ancestors[i].0 == r.epoch && r.num <= w.ancestors[i].1)
    ensures Decide(w, t) == Resend <==>
      && t.Received? && t.receipt.Some?
      && var r := t.receipt.value;
      || (exists i :: 0 <= i < |w.ancestors| && w.ancestors[i].0 == r.epoch && r.num > w.ancestors[i].1)
      || (r.epoch != w.epoch && (forall i :: 0 <= i < |w.ancestors| ==> w.ancestors[i].0 != r.epoch)
          && !(w.epoch.generation < r.epoch.generation
               || (w.epoch.generation == r.epoch.generation && w.epoch.timeline < r.epoch.timeline)))
  {
    if t.Received? && t.receipt.Some? {
      ForkKey(w.ancestors, t.receipt.value.epoch);
      ForkNone(w.ancestors, t.receipt.value.epoch);
    }
  }

  lemma {:induction false} ForkNone(ancestors: seq<(Epoch, int)>, e: Epoch)
    ensures ForkOf(ancestors, e).None? ==> forall i :: 0 <= i < |ancestors| ==> ancestors[i].0 != e
  {
    if ancestors != [] && ancestors[0].0 != e {
      ForkNone(ancestors[1..], e);
      assert forall i :: 0 < i < |ancestors| ==> ancestors[i] == ancestors[1..][i - 1];
    }
  }

  /** Ancestors are the keys of a dictionary, and the current epoch is not its own ancestor. */
  predicate WellFormed(w: Watermark) {
    && (forall i, j :: 0 <= i < j < |w.ancestors| ==> w.ancestors[i].0 != w.ancestors[j].0)
    && (forall i :: 0 <= i < |w.ancestors| ==> w.ancestors[i].0 != w.epoch)
  }

  type Rows = map<nat, Transfer>

  function Deleted(w: Watermark, rows: Rows): set<nat> { set o | o in rows && Decide(w, rows[o]) == Delete }

  function Resent(w: Watermark, rows: Rows): set<nat> { set o | o in rows && Decide(w, rows[o]) == Resend }

  /** Every row by its own decision. */
  function Decided(w: Watermark, rows: Rows): Rows {
    map o | o in rows && Decide(w, rows[o]) != Delete :: if Decide(w, rows[o]) == Resend then Pending else rows[o]
  }

  /** A statement's condition on a received row's receipt. */
  predicate At(t: Transfer, e: Epoch) { t.Received? && t.receipt.Some? && t.receipt.value.epoch == e }

  predicate DeletesAt(t: Transfer, e: Epoch, upTo: int) { At(t, e) && t.aged && t.receipt.value.num <= upTo }

  predicate ResendsAt(t: Transfer, e: Epoch, fork: int) { At(t, e) && t.receipt.value.num > fork }

  predicate Lost(w: Watermark, t: Transfer) {
    && t.Received? && t.receipt.Some? && t.receipt.value.epoch != w.epoch
    && ForkOf(w.ancestors, t.receipt.value.epoch).None?
    && !EpochLess(w.epoch, t.receipt.value.epoch)
  }

  /** What the statements so far have done to a row: those of the own epoch and of the first k ancestors. */
  function Sofar(w: Watermark, k: nat, t: Transfer): Verdict
    requires k <= |w.ancestors|
  {
    if DeletesAt(t, w.epoch, w.num) then Delete
    else if t.Received? && t.receipt.Some? && ForkOf(w.ancestors[..k], t.receipt.value.epoch).Some? then
      var fork := ForkOf(w.ancestors[..k], t.receipt.value.epoch).value;
      if t.receipt.value.num > fork then Resend else if w.backedUp && t.aged then Delete else Keep
    else Keep
  }

  lemma {:induction false} ForkSnoc(ancestors: seq<(Epoch, int)>, a: (Epoch, int), e: Epoch)
    ensures ForkOf(ancestors + [a], e) ==
      if ForkOf(ancestors, e).Some? then ForkOf(ancestors, e) else if a.0 == e then Some(a.1) else None
  {
    if ancestors != [] {
      assert (ancestors + [a])[1..] == ancestors[1..] + [a];
      ForkSnoc(ancestors[1..], a, e);
    } else {
      assert ([] + [a])[1..] == [] && ([] + [a])[0] == a;
    }
  }

  lemma {:induction false} ForkKey(ancestors: seq<(Epoch, int)>, e: Epoch)
    ensures ForkOf(ancestors, e).Some? ==>
      exists i :: 0 <= i < |ancestors| && ancestors[i] == (e, ForkOf(ancestors, e).value)
  {
    if ancestors != [] && ancestors[0].0 != e {
      ForkKey(ancestors[1..], e);
      var f := ForkOf(ancestors, e);
      if i :| f.Some? && 0 <= i < |ancestors[1..]| && ancestors[1..][i] == (e, f.value) {
        assert ancestors[i + 1] == (e, ForkOf(ancestors, e).value);
      }
    } else if ancestors != [] {
      assert ancestors[0] == (e, ancestors[0].1);
    }
  }

  /** Rows changed by the verdicts so far: deleted ones gone, resent ones pending. */
  ghost predicate Done(w: Watermark, k: nat, before: Rows, now: Rows)
    requires k <= |w.ancestors|
  {
    && (forall o :: o in now <==> o in before && Sofar(w, k, before[o]) != Delete)
    && (forall o :: o in now ==> now[o] == if Sofar(w, k, before[o]) == Resend then Pending else before[o])
  }

  /** Rows resent so far. */
  function Back(before: Rows, now: Rows): set<nat> {
    set o | o in before && o in now && before[o].Received? && now[o] == Pending
  }

  class Table {
    var rows: Rows

    constructor ()
      ensures rows == map[]
    {
      rows := map[];
    }

    /** DELETE of aged received rows of an epoch up to a position. */
    method DeleteUpTo(e: Epoch, upTo: int) returns (n: nat)
      modifies this
      ensures rows == map o | o in old(rows) && !DeletesAt(old(rows)[o], e, upTo) :: old(rows)[o]
      ensures n == |old(rows)| - |rows|
    {
      var gone := set o | o in rows && DeletesAt(rows[o], e, upTo);
      var kept := map o | o in rows && !DeletesAt(rows[o], e, upTo) :: rows[o];
      assert kept.Keys == rows.Keys - gone;
      rows := kept;
      n := |gone|;
    }

    /** UPDATE of received rows back to pending. */
    method Return(these: set<nat>) returns (n: nat)
      requires these <= rows.Keys && forall o :: o in these ==> rows[o].Received?
      modifies this
      ensures rows == map o | o in old(rows) :: if o in these then Pending else old(rows)[o]
      ensures n == |these| && |rows| == |old(rows)|
    {
      rows := map o | o in rows :: if o in these then Pending else rows[o];
      assert rows.Keys == old(rows).Keys;
      n := |these|;
    }

    /** purge: one statement after the other, the ancestors in any order, comes to every row's own decision, and counts
        exactly the rows deleted and sent again. */
    method Purge(w: Watermark) returns (deleted: nat, resent: nat)
      requires WellFormed(w)
      modifies this
      ensures rows == Decided(w, old(rows))
      ensures deleted == |Deleted(w, old(rows))| && resent == |Resent(w, old(rows))|
    {
      ghost var before := rows;
      deleted := DeleteUpTo(w.epoch, w.num);
      resent := 0;
      FirstDone(w, before, rows);
      for k := 0 to |w.ancestors|
        invariant Done(w, k, before, rows)
        invariant deleted == |before| - |rows| && resent == |Back(before, rows)|
      {
        var n, m := Ancestor(w, k, before);
        deleted, resent := deleted + n, resent + m;
      }
      var last := ReturnLost(w, before);
      resent := resent + last;
      Counts(w, before, rows);
    }

    /** Receipts of an epoch that is neither current nor an ancestor nor later. */
    method ReturnLost(w: Watermark, ghost before: Rows) returns (resent: nat)
      requires WellFormed(w) && Done(w, |w.ancestors|, before, rows)
      modifies this
      ensures rows == Decided(w, before) && |rows| == |old(rows)|
      ensures |Back(before, rows)| == |Back(before, old(rows))| + resent
    {
      ghost var mid := rows;
      var lost := set o | o in rows && Lost(w, rows[o]);
      resent := Return(lost);
      LostWereReceived(w, before, mid);
      BackSplit(before, mid, rows, lost);
      FinalRows(w, before, mid, rows);
    }

    /** One ancestor's statements: what is covered by a backup goes, what lies past the fork is sent again. */
    method Ancestor(w: Watermark, k: nat, ghost before: Rows) returns (deleted: nat, resent: nat)
      requires WellFormed(w) && k < |w.ancestors| && Done(w, k, before, rows)
      modifies this
      ensures Done(w, k + 1, before, rows)
      ensures deleted == |old(rows)| - |rows| && |Back(before, rows)| == |Back(before, old(rows))| + resent
    {
      var (e, fork) := w.ancestors[k];
      ghost var start := rows;
      deleted := 0;
      if w.backedUp { deleted := DeleteUpTo(e, fork); }
      ghost var mid := rows;
      var past := set o | o in rows && ResendsAt(rows[o], e, fork);
      resent := Return(past);
      AncestorDone(w, k, before, start, rows);
      BackDelete(before, start, mid);
      DoneKeys(w, k, before, start);
      BackSplit(before, mid, rows, past);
    }
  }

  lemma FirstDone(w: Watermark, before: Rows, now: Rows)
    requires now == map o | o in before && !DeletesAt(before[o], w.epoch, w.num) :: before[o]
    ensures Done(w, 0, before, now) && Back(before, now) == {}
  {}

  lemma DoneKeys(w: Watermark, k: nat, before: Rows, now: Rows)
    requires k <= |w.ancestors| && Done(w, k, before, now)
    ensures forall o :: o in now && now[o].Received? ==> o in before && before[o].Received?
  {}

  lemma LostWereReceived(w: Watermark, before: Rows, now: Rows)
    requires Done(w, |w.ancestors|, before, now)
    ensures forall o :: o in now && Lost(w, now[o]) ==> now[o].Received? && o in before && before[o].Received?
  {}

  lemma BackDelete(before: Rows, start: Rows, mid: Rows)
    requires forall o :: o in mid ==> o in start && mid[o] == start[o]
    requires forall o :: o in start && o !in mid ==> start[o].Received?
    ensures Back(before, mid) == Back(before, start)
  {}

  lemma BackSplit(before: Rows, mid: Rows, now: Rows, these: set<nat>)
    requires these <= mid.Keys && forall o :: o in these ==> mid[o].Received? && o in before && before[o].Received?
    requires now == map o | o in mid :: if o in these then Pending else mid[o]
    ensures |Back(before, now)| == |Back(before, mid)| + |these|
  {
    assert Back(before, now) == Back(before, mid) + these;
    assert Back(before, mid) !! these;
  }

  lemma ForkAbsent(w: Watermark, k: nat)
    requires WellFormed(w) && k < |w.ancestors|
    ensures ForkOf(w.ancestors[..k], w.ancestors[k].0).None? && ForkOf(w.ancestors, w.epoch).None?
  {
    ForkKey(w.ancestors[..k], w.ancestors[k].0);
    ForkKey(w.ancestors, w.epoch);
  }

  /** What one ancestor's statements do to one row. */
  lemma SofarNext(w: Watermark, k: nat, t: Transfer)
    requires WellFormed(w) && k < |w.ancestors|
    ensures var (e, fork) := w.ancestors[k];
      Sofar(w, k + 1, t) ==
        if At(t, e) then if t.receipt.value.num > fork then Resend else if w.backedUp && t.aged then Delete else Keep
        else Sofar(w, k, t)
    ensures At(t, w.ancestors[k].0) ==> Sofar(w, k, t) == Keep
  {
    ForkAbsent(w, k);
    assert w.ancestors[..k + 1] == w.ancestors[..k] + [w.ancestors[k]];
    if t.Received? && t.receipt.Some? { ForkSnoc(w.ancestors[..k], w.ancestors[k], t.receipt.value.epoch); }
  }

  lemma AncestorDone(w: Watermark, k: nat, before: Rows, start: Rows, now: Rows)
    requires WellFormed(w) && k < |w.ancestors| && Done(w, k, before, start)
    requires var (e, fork) := w.ancestors[k];
      && (forall o :: o in now <==> o in start && !(w.backedUp && DeletesAt(start[o], e, fork)))
      && (forall o :: o in now ==> now[o] == if ResendsAt(start[o], e, fork) then Pending else start[o])
    ensures Done(w, k + 1, before, now)
  {
    forall o ensures o in now <==> o in before && Sofar(w, k + 1, before[o]) != Delete {
      if o in before { SofarNext(w, k, before[o]); }
    }
    forall o | o in now ensures now[o] == if Sofar(w, k + 1, before[o]) == Resend then Pending else before[o] {
      SofarNext(w, k, before[o]);
    }
  }

  lemma AllSofar(w: Watermark, t: Transfer)
    requires WellFormed(w)
    ensures Decide(w, t) == if Lost(w, t) then Resend else Sofar(w, |w.ancestors|, t)
    ensures Lost(w, t) ==> Sofar(w, |w.ancestors|, t) == Keep
  {
    assert w.ancestors[..|w.ancestors|] == w.ancestors;
    ForkKey(w.ancestors, w.epoch);
  }

  lemma FinalRows(w: Watermark, before: Rows, mid: Rows, now: Rows)
    requires WellFormed(w) && Done(w, |w.ancestors|, before, mid)
    requires now == map o | o in mid :: if Lost(w, mid[o]) then Pending else mid[o]
    ensures now == Decided(w, before)
  {
    forall o ensures o in now <==> o in Decided(w, before) {
      if o in before { AllSofar(w, before[o]); }
    }
    forall o | o in now ensures now[o] == Decided(w, before)[o] { AllSofar(w, before[o]); }
  }

  lemma Counts(w: Watermark, before: Rows, now: Rows)
    requires now == Decided(w, before)
    ensures |before| - |now| == |Deleted(w, before)| && Back(before, now) == Resent(w, before)
  {
    assert before.Keys == now.Keys + Deleted(w, before);
    assert now.Keys !! Deleted(w, before);
  }
}
