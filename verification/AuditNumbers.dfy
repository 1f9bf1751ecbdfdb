/** The production positions of audit records, over every run of the component's audit table. */
module AuditNumbers {
  import opened Wrappers
  import opened Outbox
  import OutboxRuns
  import opened Audit
  import R = AuditRuns

  // ----- the invariant -----

  ghost predicate NumbersOk(s: R.World) {
    && DbOk(R.Local(s)) && (s.numbers.counter.Some? ==> UpTo(s.numbers.counter.value, s.numbers.epoch))
    && (forall o :: o in s.rows ==> o in s.committed)
    && (forall g :: g in s.numbers.lineage ==> g.ord in s.committed)
  }

  /** Steps that give no position: rows keep theirs, and a row that comes has none. */
  lemma QuietNumbers(s: R.World, u: R.World)
    requires NumbersOk(s) && u.numbers == s.numbers && s.committed <= u.committed
    requires forall o :: o in u.rows ==> o in u.committed && (o in s.committed ==> o in s.rows)
    requires forall o :: o in u.rows ==> u.rows[o].place == if o in s.rows then s.rows[o].place else None
    ensures NumbersOk(u)
  {
    assert RowsNumbered(R.Local(u)) by {
      forall o | o in R.Local(u).rows && R.Local(u).rows[o].place.Some?
        ensures Given(R.Local(u).rows[o].place.value, o) in u.numbers.lineage
      {
        assert R.Local(s).rows[o].place == R.Local(u).rows[o].place;
      }
      forall g | g in u.numbers.lineage && g.ord in R.Local(u).rows
        ensures R.Local(u).rows[g.ord].place == Some(g.place)
      {
        assert R.Local(s).rows[g.ord].place == Some(g.place);
      }
    }
  }

  /** A batch gets the positions after those of the present epoch, and rows not in it keep theirs. */
  lemma BatchNumbers(s: R.World, picked: seq<nat>)
    requires NumbersOk(s) && R.Enabled(s, R.Number(picked))
    ensures NumbersOk(R.After(s, R.Number(picked)))
    ensures var u := R.After(s, R.Number(picked));
      u.numbers.lineage
      == s.numbers.lineage + Positions(s.numbers.epoch, CountOf(s.numbers.lineage, s.numbers.epoch), picked)
  {
    var u := R.After(s, R.Number(picked));
    AuditNumbering(R.Local(s), s.numbers.epoch, R.BATCH, picked);
    NumberedRows(s, picked);
    PickedCommitted(s, picked);
  }

  lemma {:induction false} NumberAllRows(db: Db, e: Epoch, picked: seq<nat>)
    requires forall i :: 0 <= i < |picked| ==> picked[i] in db.rows
    requires forall o :: o in db.rows ==> !db.rows[o].published
    ensures NumberAll(db, e, picked).rows.Keys == db.rows.Keys && NumberAll(db, e, picked).forks == db.forks
    ensures forall o :: o in db.rows ==> !NumberAll(db, e, picked).rows[o].published
    ensures NumberAll(db, e, picked).used == db.used && NumberAll(db, e, picked).counter == db.counter
    decreases picked
  {
    if picked != [] {
      var u := NumberOne(db, e, picked[0]);
      forall i | 0 <= i < |picked[1..]| ensures picked[1..][i] in u.rows { assert picked[1..][i] == picked[i + 1]; }
      NumberAllRows(u, e, picked[1..]);
    }
  }

  /** The state after a batch is what numbering makes of the local table. */
  lemma NumberedRows(s: R.World, picked: seq<nat>)
    requires R.Enabled(s, R.Number(picked))
    ensures R.Local(R.After(s, R.Number(picked))) == R.Numbered(s, picked)
    ensures R.Numbered(s, picked).counter == Some(s.numbers.epoch)
  {
    NumberAllRows(AuditStart(R.Local(s), s.numbers.epoch), s.numbers.epoch, picked);
    assert R.Local(R.After(s, R.Number(picked))).rows == R.Numbered(s, picked).rows;
  }

  lemma PickedCommitted(s: R.World, picked: seq<nat>)
    requires NumbersOk(s) && R.Enabled(s, R.Number(picked))
    ensures forall g :: g in Positions(s.numbers.epoch, CountOf(s.numbers.lineage, s.numbers.epoch), picked) ==>
      g.ord in s.committed
  {
    OutboxRuns.PositionsAre(s.numbers.epoch, CountOf(s.numbers.lineage, s.numbers.epoch), picked);
    forall i | 0 <= i < |picked| ensures picked[i] in s.rows {
      assert Unnumbered(AuditStart(R.Local(s), s.numbers.epoch), picked[i]);
    }
  }

  lemma PlaceShown(s: R.World, g: Given)
    requires NumbersOk(s) && g in s.numbers.lineage && g.ord in s.rows
    ensures s.rows[g.ord].place == Some(g.place)
  {
    assert R.Local(s).rows[g.ord].place == s.rows[g.ord].place;
  }

  lemma ShownGiven(s: R.World, o: nat)
    requires NumbersOk(s) && o in s.rows && s.rows[o].place.Some?
    ensures Given(s.rows[o].place.value, o) in s.numbers.lineage
  {
    assert R.Local(s).rows[o].place == s.rows[o].place;
  }

  lemma NumberAllHas(s: R.World, picked: seq<nat>, o: nat)
    requires R.Enabled(s, R.Number(picked)) && o in s.rows
    ensures o in R.After(s, R.Number(picked)).rows
  {
    R.NumberRows(AuditStart(R.Local(s), s.numbers.epoch), s.numbers.epoch, picked, o);
  }

  /** Rows show the positions given to their records. */
  ghost predicate Shown(s: R.World) {
    forall g :: g in s.numbers.lineage && g.ord in s.rows ==> s.rows[g.ord].place == Some(g.place)
  }

  lemma NumbersShown(s: R.World)
    requires NumbersOk(s)
    ensures Shown(s)
  {
    forall g | g in s.numbers.lineage && g.ord in s.rows ensures s.rows[g.ord].place == Some(g.place) {
      PlaceShown(s, g);
    }
  }

  lemma GivenPlace(u: R.World, before: seq<Given>, e: Epoch, n: nat, picked: seq<nat>, k: nat)
    requires Shown(u) && u.numbers.lineage == before + Positions(e, n, picked)
    requires k < |picked| && picked[k] in u.rows
    ensures u.rows[picked[k]].place == Some(Place(e, n + 1 + k))
  {
    var g := Given(Place(e, n + 1 + k), picked[k]);
    OutboxRuns.PositionsAre(e, n, picked);
    assert u.numbers.lineage[|before| + k] == g;
  }

  lemma PickedHeld(s: R.World, picked: seq<nat>, k: nat)
    requires R.Enabled(s, R.Number(picked)) && k < |picked|
    ensures picked[k] in R.After(s, R.Number(picked)).rows
  {
    assert Unnumbered(AuditStart(R.Local(s), s.numbers.epoch), picked[k]);
    NumberAllHas(s, picked, picked[k]);
  }

  /** The step of a batch: its rows are there, and the positions follow those of the epoch. */
  ghost predicate Batched(s: R.World, picked: seq<nat>, u: R.World) {
    && (forall k :: 0 <= k < |picked| ==> picked[k] in u.rows)
    && u.numbers.lineage
       == s.numbers.lineage + Positions(s.numbers.epoch, CountOf(s.numbers.lineage, s.numbers.epoch), picked)
  }

  lemma BatchedAfter(s: R.World, picked: seq<nat>)
    requires NumbersOk(s) && R.Enabled(s, R.Number(picked))
    ensures Batched(s, picked, R.After(s, R.Number(picked))) && Shown(R.After(s, R.Number(picked)))
  {
    BatchNumbers(s, picked);
    NumbersShown(R.After(s, R.Number(picked)));
    forall k | 0 <= k < |picked| ensures picked[k] in R.After(s, R.Number(picked)).rows { PickedHeld(s, picked, k); }
  }

  lemma PicksLocal(s: R.World, picked: seq<nat>)
    requires R.Enabled(s, R.Number(picked))
    ensures Picks(R.Local(s), R.BATCH, picked)
  {
    forall o ensures Unnumbered(R.Local(s), o) <==> Unnumbered(AuditStart(R.Local(s), s.numbers.epoch), o) {}
  }

  /** The k-th row of a batch shows the k-th of the next positions. */
  lemma BatchPlace(s: R.World, picked: seq<nat>, u: R.World, k: nat)
    requires Batched(s, picked, u) && Shown(u) && k < |picked|
    ensures picked[k] in u.rows
    ensures u.rows[picked[k]].place
      == Some(Place(s.numbers.epoch, CountOf(s.numbers.lineage, s.numbers.epoch) + 1 + k))
  {
    GivenPlace(u, s.numbers.lineage, s.numbers.epoch, CountOf(s.numbers.lineage, s.numbers.epoch), picked, k);
  }

  /** What a batch leaves, row by row. */
  ghost predicate InOrder(s: R.World, picked: seq<nat>, u: R.World) {
    forall k :: 0 <= k < |picked| ==>
      picked[k] in u.rows
      && u.rows[picked[k]].place
         == Some(Place(s.numbers.epoch, CountOf(s.numbers.lineage, s.numbers.epoch) + 1 + k))
  }

  lemma BatchShows(s: R.World, picked: seq<nat>)
    requires NumbersOk(s) && R.Enabled(s, R.Number(picked))
    ensures InOrder(s, picked, R.After(s, R.Number(picked)))
  {
    var u := R.After(s, R.Number(picked));
    BatchedAfter(s, picked);
    forall k | 0 <= k < |picked|
      ensures picked[k] in u.rows
      ensures u.rows[picked[k]].place
        == Some(Place(s.numbers.epoch, CountOf(s.numbers.lineage, s.numbers.epoch) + 1 + k))
    {
      BatchPlace(s, picked, u, k);
    }
  }

  lemma NumbersKept(s: R.World, t: R.Step, u: R.World)
    requires NumbersOk(s) && R.Next(s, t, u)
    ensures NumbersOk(u)
  {
    match t
    case Number(picked) => BatchNumbers(s, picked);
    case Failover(e) => assert R.Local(u) == R.Local(s);
    case _ => QuietNumbers(s, u);
  }

  // ----- runs -----

  lemma {:induction false} RunNumbers(ss: seq<R.World>, ts: seq<R.Step>, i: nat)
    requires R.IsRun(ss, ts) && i <= |ts|
    ensures NumbersOk(ss[i])
  {
    if i > 0 {
      RunNumbers(ss, ts, i - 1);
      assert R.StepAt(ss, ts, i - 1);
      NumbersKept(ss[i - 1], ts[i - 1], ss[i]);
    }
  }

  /** In every reachable state the positions of an epoch are exactly 1 to n, each given to one record and each record
      given one; a row still in the table shows the position its record was given. */
  lemma PositionsExact(ss: seq<R.World>, ts: seq<R.Step>, i: nat, e: Epoch, n: nat)
    requires R.IsRun(ss, ts) && i <= |ts|
    ensures (exists g :: g in ss[i].numbers.lineage && g.place == Place(e, n))
      <==> 1 <= n <= CountOf(ss[i].numbers.lineage, e)
    ensures forall g, h | g in ss[i].numbers.lineage && h in ss[i].numbers.lineage ::
      g.place == h.place <==> g.ord == h.ord
    ensures forall o, p | o in ss[i].rows :: ss[i].rows[o].place == Some(p) <==> Given(p, o) in ss[i].numbers.lineage
  {
    var s := ss[i];
    var gs := s.numbers.lineage;
    RunNumbers(ss, ts, i);
    if 1 <= n <= CountOf(gs, e) { OutboxRuns.EveryNumber(gs, e, n); }
    forall g | g in gs && g.place == Place(e, n) ensures 1 <= n <= CountOf(gs, e) { NumberBound(gs, e, g); }
    forall g, h | g in gs && h in gs && g.place == h.place ensures g == h { OutboxRuns.GivenOnce(gs, g, h); }
    forall o, p | o in s.rows ensures s.rows[o].place == Some(p) <==> Given(p, o) in gs {
      assert R.Local(s).rows[o].place == s.rows[o].place;
      if Given(p, o) in gs { PlaceShown(s, Given(p, o)); }
    }
  }

  /** Positions given stay given, and a row keeps its position until it is purged. */
  lemma {:induction false} PositionStays(ss: seq<R.World>, ts: seq<R.Step>, i: nat, j: nat, o: nat)
    requires R.IsRun(ss, ts) && i <= j <= |ts|
    ensures ss[i].numbers.lineage <= ss[j].numbers.lineage
    ensures o in ss[i].rows && o in ss[j].rows && ss[i].rows[o].place.Some? ==>
      ss[j].rows[o].place == ss[i].rows[o].place
    decreases j
  {
    if i < j {
      PositionStays(ss, ts, i, j - 1, o);
      RunNumbers(ss, ts, j - 1);
      assert R.StepAt(ss, ts, j - 1);
      if ts[j - 1].Number? { BatchNumbers(ss[j - 1], ts[j - 1].picked); }
    }
    if o in ss[i].rows && o in ss[j].rows && ss[i].rows[o].place.Some? {
      RunNumbers(ss, ts, i);
      RunNumbers(ss, ts, j);
      var g := Given(ss[i].rows[o].place.value, o);
      ShownGiven(ss[i], o);
      assert g in ss[j].numbers.lineage;
      PlaceShown(ss[j], g);
    }
  }

  /** A batch takes the first unnumbered rows, and gives them the next positions in the order of their insertion. */
  lemma BatchInOrder(ss: seq<R.World>, ts: seq<R.Step>, i: nat)
    requires R.IsRun(ss, ts) && i < |ts| && ts[i].Number?
    ensures InOrder(ss[i], ts[i].picked, ss[i + 1])
    ensures |ts[i].picked| <= 500 && forall k, l :: 0 <= k < l < |ts[i].picked| ==> ts[i].picked[k] < ts[i].picked[l]
    ensures forall o :: o in ts[i].picked ==> o in ss[i].rows && ss[i].rows[o].place == None
    ensures forall o :: o in ss[i].rows && ss[i].rows[o].place == None && o !in ts[i].picked ==>
      |ts[i].picked| == 500 && forall p :: p in ts[i].picked ==> p < o
  {
    RunNumbers(ss, ts, i);
    assert R.StepAt(ss, ts, i);
    PicksLocal(ss[i], ts[i].picked);
    OutboxRuns.NumbersExactly(R.Local(ss[i]), R.BATCH, ts[i].picked);
    forall o | o in ss[i].rows ensures R.Local(ss[i]).rows[o].place == ss[i].rows[o].place {}
    BatchShows(ss[i], ts[i].picked);
  }
}
