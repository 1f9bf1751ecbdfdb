/** What holds in every run of an outbox partition. */
module OutboxRuns {
  import opened Wrappers
  import opened Outbox

  // ----- the invariant -----

  /** Whatever is published or purged was acknowledged by the transport. */
  ghost predicate AckedRows(db: Db, acked: set<Given>) {
    && (forall o :: o in db.rows && db.rows[o].published ==>
          db.rows[o].place.Some? && Given(db.rows[o].place.value, o) in acked)
    && (forall g :: g in db.lineage ==> g.ord in db.rows || g in acked)
  }

  ghost predicate UsedOk(db: Db) {
    (forall o :: o in db.rows ==> o in db.used) && (forall g :: g in db.lineage ==> g.ord in db.used)
  }

  /** The transport has every earlier position of this past before a later one. */
  ghost predicate Closed(lineage: seq<Given>, log: seq<Given>) {
    forall p, q :: p in log && q in lineage && Less(q.place, p.place) ==> q in log
  }

  ghost predicate Store(db: Db, s: State) {
    && DbOk(db) && AckedRows(db, s.acked) && UsedOk(db) && Closed(db.lineage, s.log)
    && (forall g :: g in db.lineage ==> g in s.given)
    && (db.counter.Some? ==> UpTo(db.counter.value, s.epoch))
  }

  /** What a forwarder holds: everything before its k-th row is in the transport or among the rows before it. */
  ghost predicate Held(w: Forwarder, s: State) {
    && w.done <= |w.batch| && Ascending(w.batch)
    && (forall k :: 0 <= k < |w.batch| ==> w.batch[k] in s.db.lineage)
    && (forall k :: 0 <= k < w.done ==> w.batch[k] in s.acked)
    && (forall k, q :: 0 <= k < |w.batch| && q in s.db.lineage && Less(q.place, w.batch[k].place) ==>
          q in s.log || q in w.batch[..k])
  }

  ghost predicate Forwarders(s: State) { forall f :: f in s.forwarders ==> Held(s.forwarders[f], s) }

  /** Every position ever given, also in a past that a restore lost. */
  ghost predicate AllGiven(s: State) {
    && Exact(s.given) && AllUpTo(s.given, s.epoch)
    && (forall g :: g in s.log ==> g in s.given)
    && CountOf(s.given, s.epoch) == if s.db.counter == Some(s.epoch) then s.db.last else 0
  }

  ghost predicate Past(b: Db, s: State) { Store(b, s) && b.lineage <= s.db.lineage }

  /** A backup is a past of the database, and of every later backup. */
  ghost predicate Backups(s: State) {
    && (forall b :: b in s.backups ==> Past(b, s))
    && (forall i, j :: 0 <= i < j < |s.backups| ==> s.backups[i].lineage <= s.backups[j].lineage)
  }

  /** First publications are in the order of the positions. */
  ghost predicate FirstsOrdered(log: seq<Given>) {
    forall i, j :: 0 <= i < j < |log| && log[j] !in log[..j] ==> Less(log[i].place, log[j].place)
  }

  ghost predicate Inv(s: State) {
    && Store(s.db, s) && Backups(s) && Forwarders(s) && AllGiven(s) && FirstsOrdered(s.log)
    && (forall g :: g in s.acked ==> g in s.log)
  }

  // ----- places -----

  lemma LessTotal(a: Place, b: Place, c: Place)
    ensures !(Less(a, b) && Less(b, a))
    ensures Less(a, b) && Less(b, c) ==> Less(a, c)
    ensures a == b || Less(a, b) || Less(b, a)
  {}

  /** A position is given once. */
  lemma {:induction false} GivenOnce(gs: seq<Given>, g: Given, h: Given)
    requires Exact(gs) && g in gs && h in gs && g.place == h.place
    ensures g == h
  {
    var l := gs[|gs| - 1];
    var front := gs[..|gs| - 1];
    assert gs == front + [l];
    assert ExactAt(gs, |gs| - 1);
    forall i | 0 <= i < |front| ensures ExactAt(front, i) { assert ExactAt(gs, i) && front[..i] == gs[..i]; }
    if g in front && h in front {
      GivenOnce(front, g, h);
    } else if g in front {
      NumberBound(front, l.place.epoch, g);
    } else if h in front {
      NumberBound(front, l.place.epoch, h);
    }
  }

  // ----- numbering -----

  lemma {:induction false} PositionsGive(gs: seq<Given>, e: Epoch, last: nat, picked: seq<nat>)
    requires Exact(gs) && AllUpTo(gs, e) && last == CountOf(gs, e)
    ensures Exact(gs + Positions(e, last, picked)) && AllUpTo(gs + Positions(e, last, picked), e)
    ensures CountOf(gs + Positions(e, last, picked), e) == last + |picked|
    decreases picked
  {
    var all := Positions(e, last, picked);
    if picked == [] {
      assert gs + all == gs;
    } else {
      var g := Given(Place(e, last + 1), picked[0]);
      CountSnoc(gs, g, e);
      ExactSnoc(gs, g);
      PositionsGive(gs + [g], e, last + 1, picked[1..]);
      assert gs + all == (gs + [g]) + Positions(e, last + 1, picked[1..]);
    }
  }

  lemma {:induction false} PositionsAre(e: Epoch, last: nat, picked: seq<nat>)
    ensures var ps := Positions(e, last, picked);
      |ps| == |picked| && forall i :: 0 <= i < |ps| ==> ps[i] == Given(Place(e, last + 1 + i), picked[i])
    decreases picked
  {
    if picked != [] { PositionsAre(e, last + 1, picked[1..]); }
  }

  /** New positions lie after every position ever given. */
  lemma PositionsLater(gs: seq<Given>, e: Epoch, last: nat, picked: seq<nat>, g: Given, h: Given)
    requires Exact(gs) && AllUpTo(gs, e) && last == CountOf(gs, e) && g in gs && h in Positions(e, last, picked)
    ensures Less(g.place, h.place)
  {
    PositionsAre(e, last, picked);
    if g.place.epoch == e { NumberBound(gs, e, g); }
  }

  lemma NumberOneAcked(db: Db, e: Epoch, o: nat, acked: set<Given>)
    requires AckedRows(db, acked) && UsedOk(db) && Unnumbered(db, o)
    ensures AckedRows(NumberOne(db, e, o), acked) && UsedOk(NumberOne(db, e, o))
  {}

  lemma {:induction false} NumberAcked(db: Db, e: Epoch, picked: seq<nat>, acked: set<Given>)
    requires AckedRows(db, acked) && UsedOk(db)
    requires forall i :: 0 <= i < |picked| ==> Unnumbered(db, picked[i])
    requires forall i, j :: 0 <= i < j < |picked| ==> picked[i] < picked[j]
    ensures AckedRows(NumberAll(db, e, picked), acked) && UsedOk(NumberAll(db, e, picked))
    decreases picked
  {
    if picked != [] {
      NumberOneAcked(db, e, picked[0], acked);
      var u := NumberOne(db, e, picked[0]);
      forall i | 0 <= i < |picked[1..]| ensures Unnumbered(u, picked[1..][i])
      {
        assert picked[1..][i] == picked[i + 1];
      }
      NumberAcked(u, e, picked[1..], acked);
    }
  }

  // ----- publishing -----

  lemma AppendOrdered(s: State, g: Given)
    requires FirstsOrdered(s.log) && Closed(s.db.lineage, s.log) && AllGiven(s) && g in s.db.lineage && g in s.given
    ensures FirstsOrdered(s.log + [g])
  {
    var log := s.log + [g];
    forall i, j | 0 <= i < j < |log| && log[j] !in log[..j] ensures Less(log[i].place, log[j].place) {
      assert log[..j] == s.log[..j];
      if j == |s.log| {
        assert log[i] in s.log && s.log[..j] == s.log;
        LessTotal(log[i].place, g.place, g.place);
        if log[i].place == g.place { GivenOnce(s.given, log[i], g); }
      }
    }
  }

  lemma AppendClosed(s: State, w: Forwarder, lineage: seq<Given>)
    requires Held(w, s) && w.done < |w.batch| && Closed(lineage, s.log) && lineage <= s.db.lineage
    requires forall g :: g in s.acked ==> g in s.log
    ensures Closed(lineage, s.log + [w.batch[w.done]])
  {
    var g := w.batch[w.done];
    forall q | q in lineage && Less(q.place, g.place) ensures q in s.log {
      assert q in s.db.lineage;
      if q in w.batch[..w.done] { assert q in s.acked; }
    }
  }

  // ----- what later states keep -----

  ghost predicate Grown(s: State, u: State) {
    && (forall g :: g in s.log ==> g in u.log)
    && (forall g :: g in s.acked ==> g in u.acked)
    && (forall g :: g in s.given ==> g in u.given)
    && UpTo(s.epoch, u.epoch)
  }

  lemma StoreLater(db: Db, s: State, u: State)
    requires Store(db, s) && Grown(s, u) && Closed(db.lineage, u.log)
    ensures Store(db, u)
  {}

  lemma HeldLater(w: Forwarder, s: State, u: State)
    requires Held(w, s) && Grown(s, u) && u.db.lineage == s.db.lineage
    ensures Held(w, u)
  {}

  lemma BackupsLater(s: State, u: State)
    requires Backups(s) && Grown(s, u) && u.backups == s.backups && s.db.lineage <= u.db.lineage
    requires forall b :: b in s.backups ==> Closed(b.lineage, u.log)
    ensures Backups(u)
  {
    forall b | b in u.backups ensures Past(b, u) {
      assert Past(b, s);
      StoreLater(b, s, u);
    }
  }

  /** Steps that leave the log and the numbering alone. */
  lemma QuietKept(s: State, u: State)
    requires Inv(s) && Store(u.db, u) && u.log == s.log && u.acked == s.acked
      && u.given == s.given && u.epoch == s.epoch
    requires u.backups == s.backups && u.db.lineage == s.db.lineage
      && u.db.counter == s.db.counter && u.db.last == s.db.last
    requires forall f :: f in u.forwarders ==> f in s.forwarders && u.forwarders[f] == s.forwarders[f]
    ensures Inv(u)
  {
    BackupsLater(s, u);
    forall f | f in u.forwarders ensures Held(u.forwarders[f], u) { HeldLater(s.forwarders[f], s, u); }
  }

  // ----- each step -----

  lemma WriteKept(s: State, ords: set<nat>)
    requires Inv(s) && Enabled(s, WriteStep(ords))
    ensures Inv(After(s, WriteStep(ords)))
  {
    var u := After(s, WriteStep(ords));
    assert RowsNumbered(u.db);
    QuietKept(s, u);
  }

  lemma CrashKept(s: State, f: nat)
    requires Inv(s)
    ensures Inv(After(s, CrashStep(f)))
  {
    QuietKept(s, After(s, CrashStep(f)));
  }

  lemma PurgeKept(s: State, ords: set<nat>)
    requires Inv(s) && Enabled(s, PurgeStep(ords))
    ensures Inv(After(s, PurgeStep(ords)))
  {
    var u := After(s, PurgeStep(ords));
    assert RowsNumbered(u.db);
    assert AckedRows(u.db, u.acked);
    QuietKept(s, u);
  }

  lemma MarkedAcked(s: State, w: Forwarder)
    requires Store(s.db, s) && Held(w, s)
    ensures Store(Marked(s.db, w.batch[..w.done]), s)
  {
    var u := Marked(s.db, w.batch[..w.done]);
    assert RowsNumbered(u);
    forall o | o in u.rows && u.rows[o].published
      ensures u.rows[o].place.Some? && Given(u.rows[o].place.value, o) in s.acked
    {
      if o in Ords(w.batch[..w.done]) {
        var k :| 0 <= k < w.done && w.batch[..w.done][k].ord == o;
        assert w.batch[k] in s.db.lineage && w.batch[k] in s.acked;
      }
    }
  }

  lemma MarkKept(s: State, f: nat)
    requires Inv(s) && Enabled(s, MarkStep(f))
    ensures Inv(After(s, MarkStep(f)))
  {
    MarkedAcked(s, s.forwarders[f]);
    QuietKept(s, After(s, MarkStep(f)));
  }

  lemma EpochKept(s: State, e: Epoch)
    requires Inv(s) && EpochLess(s.epoch, e)
    ensures Inv(After(s, EpochStep(e)))
  {
    var u := After(s, EpochStep(e));
    StoreLater(s.db, s, u);
    BackupsLater(s, u);
    forall f | f in u.forwarders ensures Held(u.forwarders[f], u) { HeldLater(s.forwarders[f], s, u); }
    NoneOf(s.given, e);
  }

  lemma PastLater(b: Db, s: State, u: State)
    requires Past(b, s) && Grown(s, u) && u.log == s.log && u.db == s.db
    ensures Past(b, u)
  {
    StoreLater(b, s, u);
  }

  lemma BackupKept(s: State)
    requires Inv(s)
    ensures Inv(After(s, BackupStep))
  {
    var u := After(s, BackupStep);
    StoreLater(s.db, s, u);
    forall f | f in u.forwarders ensures Held(u.forwarders[f], u) { HeldLater(s.forwarders[f], s, u); }
    forall b | b in u.backups ensures Past(b, u) {
      if b in s.backups { PastLater(b, s, u); }
    }
    forall i, j | 0 <= i < j < |u.backups| ensures u.backups[i].lineage <= u.backups[j].lineage {
      assert Past(s.backups[i], s);
    }
  }

  lemma PastsKept(s: State, k: nat, e: Epoch, u: State)
    requires Backups(s) && k < |s.backups| && EpochLess(s.epoch, e) && u == After(s, RestoreStep(k, e))
    ensures Backups(u) && Store(u.db, u)
  {
    assert Past(s.backups[k], s);
    StoreLater(s.backups[k], s, u);
    forall i | 0 <= i <= k ensures Past(s.backups[i], u) {
      assert Past(s.backups[i], s);
      StoreLater(s.backups[i], s, u);
    }
  }

  lemma RestoreKept(s: State, k: nat, e: Epoch)
    requires Inv(s) && Enabled(s, RestoreStep(k, e))
    ensures Inv(After(s, RestoreStep(k, e)))
  {
    PastsKept(s, k, e, After(s, RestoreStep(k, e)));
    assert Past(s.backups[k], s);
    NoneOf(s.given, e);
  }

  /** The transport receives a row, whether or not the forwarder learns of it. */
  lemma SendKept(s: State, f: nat, u: State)
    requires Inv(s) && f in s.forwarders && s.forwarders[f].done < |s.forwarders[f].batch|
    requires u.log == s.log + [s.forwarders[f].batch[s.forwarders[f].done]] && Grown(s, u)
    requires u.db == s.db && u.backups == s.backups && u.given == s.given && u.epoch == s.epoch
    requires forall g :: g in u.acked ==> g in u.log
    requires u.forwarders.Keys == s.forwarders.Keys && Held(u.forwarders[f], u)
    requires forall h :: h in u.forwarders && h != f ==> u.forwarders[h] == s.forwarders[h]
    ensures Inv(u)
  {
    var w := s.forwarders[f];
    AppendClosed(s, w, s.db.lineage);
    StoreLater(s.db, s, u);
    forall b | b in s.backups ensures Closed(b.lineage, u.log) {
      assert Past(b, s);
      AppendClosed(s, w, b.lineage);
    }
    BackupsLater(s, u);
    forall h | h in u.forwarders ensures Held(u.forwarders[h], u) {
      if h != f { HeldLater(s.forwarders[h], s, u); }
    }
    AppendOrdered(s, w.batch[w.done]);
  }

  lemma AckedHeld(w: Forwarder, s: State, u: State)
    requires Held(w, s) && w.done < |w.batch| && Grown(s, u) && u.db.lineage == s.db.lineage
      && w.batch[w.done] in u.acked
    ensures Held(w.(done := w.done + 1), u)
  {
    HeldLater(w, s, u);
  }

  lemma PublishKept(s: State, f: nat)
    requires Inv(s) && Enabled(s, PublishStep(f))
    ensures Inv(After(s, PublishStep(f)))
  {
    var u := After(s, PublishStep(f));
    var w := s.forwarders[f];
    var sent := w.batch[w.done];
    assert u.log[|s.log|] == sent && u.acked == s.acked + {sent};
    AckedHeld(w, s, u);
    SendKept(s, f, u);
  }

  lemma LostAckKept(s: State, f: nat)
    requires Inv(s) && Enabled(s, LostAckStep(f))
    ensures Inv(After(s, LostAckStep(f)))
  {
    var u := After(s, LostAckStep(f));
    HeldLater(s.forwarders[f], s, u);
    SendKept(s, f, u);
  }

  // ----- numbering and reading in one transaction -----

  lemma NewClosed(s: State, e: Epoch, last: nat, picked: seq<nat>)
    requires Closed(s.db.lineage, s.log) && AllGiven(s) && e == s.epoch && last == CountOf(s.given, e)
    ensures Closed(s.db.lineage + Positions(e, last, picked), s.log)
  {
    forall p, q | p in s.log && q in s.db.lineage + Positions(e, last, picked) && Less(q.place, p.place)
      ensures q in s.log
    {
      if q in Positions(e, last, picked) {
        PositionsLater(s.given, e, last, picked, p, q);
        LessTotal(p.place, q.place, q.place);
      }
    }
  }

  lemma HeldNumbered(w: Forwarder, s: State, u: State, e: Epoch, last: nat, picked: seq<nat>)
    requires Held(w, s) && AllGiven(s) && e == s.epoch && last == CountOf(s.given, e)
    requires forall g :: g in s.db.lineage ==> g in s.given
    requires u.log == s.log && u.acked == s.acked && u.db.lineage == s.db.lineage + Positions(e, last, picked)
    ensures Held(w, u)
  {
    forall k, q | 0 <= k < |w.batch| && q in u.db.lineage && Less(q.place, w.batch[k].place)
      ensures q in u.log || q in w.batch[..k]
    {
      if q in Positions(e, last, picked) {
        PositionsLater(s.given, e, last, picked, w.batch[k], q);
        LessTotal(w.batch[k].place, q.place, q.place);
      }
    }
  }

  /** A forwarder that has just read the first unpublished rows has missed nothing before them. */
  lemma TakenHeld(s: State, size: nat, batch: seq<Given>)
    requires Store(s.db, s) && Takes(s.db, size, batch) && forall g :: g in s.acked ==> g in s.log
    ensures Held(Forwarder(batch, 0, false), s)
  {
    forall k, q | 0 <= k < |batch| && q in s.db.lineage && Less(q.place, batch[k].place)
      ensures q in s.log || q in batch[..k]
    {
      LessTotal(q.place, batch[k].place, batch[k].place);
      if q.ord in s.db.rows && !s.db.rows[q.ord].published {
        assert Unpublished(s.db, q);
        assert q in batch;
        var j :| 0 <= j < |batch| && batch[j] == q;
        if j > k { assert false; }
        assert batch[..k][j] == q;
      }
    }
  }

  lemma NumberedStore(s: State, picked: seq<nat>, size: nat, u: State)
    requires Inv(s) && Picks(StartEpoch(s.db, s.epoch), size, picked)
    requires u.db == NumberAll(StartEpoch(s.db, s.epoch), s.epoch, picked) && u.log == s.log && u.acked == s.acked
    requires u.given == s.given + Positions(s.epoch, StartEpoch(s.db, s.epoch).last, picked) && u.epoch == s.epoch
    ensures Store(u.db, u) && AllGiven(u)
    ensures StartEpoch(s.db, s.epoch).last == CountOf(s.given, s.epoch)
    ensures u.db.lineage == s.db.lineage + Positions(s.epoch, StartEpoch(s.db, s.epoch).last, picked)
  {
    var db := StartEpoch(s.db, s.epoch);
    StartKeeps(s.db, s.epoch);
    NumberKeeps(db, s.epoch, picked);
    NumberLineage(db, s.epoch, picked);
    NumberAcked(db, s.epoch, picked, s.acked);
    NewClosed(s, s.epoch, db.last, picked);
    PositionsGive(s.given, s.epoch, db.last, picked);
  }

  lemma TakeKept(s: State, f: nat, size: nat, picked: seq<nat>, batch: seq<Given>)
    requires Inv(s) && Enabled(s, TakeStep(f, size, picked, batch))
    ensures Inv(After(s, TakeStep(f, size, picked, batch)))
  {
    var u := After(s, TakeStep(f, size, picked, batch));
    NumberedStore(s, picked, size, u);
    TakenHeld(u, size, batch);
    forall h | h in u.forwarders ensures Held(u.forwarders[h], u) {
      if h != f { HeldNumbered(s.forwarders[h], s, u, s.epoch, StartEpoch(s.db, s.epoch).last, picked); }
    }
    BackupsLater(s, u);
  }

  lemma InvKept(s: State, t: Step, u: State)
    requires Inv(s) && Next(s, t, u)
    ensures Inv(u)
  {
    match t
    case WriteStep(ords) => WriteKept(s, ords);
    case TakeStep(f, size, picked, batch) => TakeKept(s, f, size, picked, batch);
    case PublishStep(f) => PublishKept(s, f);
    case LostAckStep(f) => LostAckKept(s, f);
    case MarkStep(f) => MarkKept(s, f);
    case CrashStep(f) => CrashKept(s, f);
    case PurgeStep(ords) => PurgeKept(s, ords);
    case EpochStep(e) => EpochKept(s, e);
    case BackupStep => BackupKept(s);
    case RestoreStep(k, e) => RestoreKept(s, k, e);
  }

  // ----- runs -----

  ghost predicate IsRun(ss: seq<State>, ts: seq<Step>) {
    |ss| == |ts| + 1 && Init(ss[0]) && forall i :: 0 <= i < |ts| ==> StepAt(ss, ts, i)
  }

  ghost predicate StepAt(ss: seq<State>, ts: seq<Step>, i: nat)
    requires |ss| == |ts| + 1 && i < |ts|
  {
    Next(ss[i], ts[i], ss[i + 1])
  }

  ghost predicate Reached(s: State) { exists ss, ts :: IsRun(ss, ts) && ss[|ts|] == s }

  lemma {:induction false} RunInv(ss: seq<State>, ts: seq<Step>, i: nat)
    requires IsRun(ss, ts) && i <= |ts|
    ensures Inv(ss[i])
  {
    if i > 0 {
      RunInv(ss, ts, i - 1);
      assert StepAt(ss, ts, i - 1);
      InvKept(ss[i - 1], ts[i - 1], ss[i]);
    }
  }

  lemma ReachedInv(s: State)
    requires Reached(s)
    ensures Inv(s)
  {
    var ss, ts :| IsRun(ss, ts) && ss[|ts|] == s;
    RunInv(ss, ts, |ts|);
  }

  // ----- what every run keeps -----

  lemma {:induction false} EveryNumber(gs: seq<Given>, e: Epoch, n: nat)
    requires Exact(gs) && 1 <= n <= CountOf(gs, e)
    ensures exists g :: g in gs && g.place == Place(e, n)
  {
    var front := gs[..|gs| - 1];
    assert gs == front + [gs[|gs| - 1]];
    assert ExactAt(gs, |gs| - 1);
    CountSnoc(front, gs[|gs| - 1], e);
    if n > CountOf(front, e) {
      assert gs[|gs| - 1].place == Place(e, n);
    } else {
      forall i | 0 <= i < |front| ensures ExactAt(front, i) { assert ExactAt(gs, i) && front[..i] == gs[..i]; }
      EveryNumber(front, e, n);
    }
  }

  /** The positions ever given in one epoch are exactly 1..n, each once, whatever was interleaved, lost or restored. */
  lemma PositionsExact(s: State, e: Epoch, n: nat)
    requires Reached(s)
    ensures (exists g :: g in s.given && g.place == Place(e, n)) <==> 1 <= n <= CountOf(s.given, e)
    ensures forall g, h :: g in s.given && h in s.given && g.place == h.place ==> g == h
  {
    ReachedInv(s);
    if 1 <= n <= CountOf(s.given, e) { EveryNumber(s.given, e, n); }
    if g :| g in s.given && g.place == Place(e, n) { NumberBound(s.given, e, g); }
    forall g, h | g in s.given && h in s.given && g.place == h.place ensures g == h { GivenOnce(s.given, g, h); }
  }

  /** In the database's past a row has one position, each fork is the number of positions of the epoch it closes, and
      that epoch never goes on. */
  lemma NumberedOnce(s: State, f: Fork)
    requires Reached(s) && f in s.db.forks
    ensures OncePerRow(s.db.lineage)
    ensures f.fork == CountOf(s.db.lineage, f.before) && s.db.counter != Some(f.before) && EpochLess(f.before, s.epoch)
  {
    ReachedInv(s);
  }

  lemma {:induction false} NumberedRow(db: Db, e: Epoch, picked: seq<nat>, o: nat)
    requires o !in picked && o in db.rows
    ensures o in NumberAll(db, e, picked).rows && NumberAll(db, e, picked).rows[o] == db.rows[o]
    decreases picked
  {
    if picked != [] { NumberedRow(NumberOne(db, e, picked[0]), e, picked[1..], o); }
  }

  /** No step but a restore changes a position once given, and only a purge of a published row removes a row. */
  lemma PositionStays(s: State, t: Step, u: State, o: nat)
    requires Reached(s) && Next(s, t, u) && !t.RestoreStep?
    requires o in s.db.rows && s.db.rows[o].place.Some?
    ensures o in u.db.rows ==> u.db.rows[o].place == s.db.rows[o].place
    ensures o !in u.db.rows ==> t.PurgeStep? && s.db.rows[o].published
  {
    match t
    case TakeStep(f, size, picked, batch) => NumberedRow(StartEpoch(s.db, s.epoch), s.epoch, picked, o);
    case WriteStep(ords) => ReachedInv(s);
    case _ =>
  }

  lemma GivenAt(gs: seq<Given>, e: Epoch, last: nat, picked: seq<nat>, i: nat)
    requires i < |picked|
    ensures var all := gs + Positions(e, last, picked);
      |all| == |gs| + |picked| && all[|gs| + i] == Given(Place(e, last + 1 + i), picked[i])
  {
    PositionsAre(e, last, picked);
  }

  /** One numbering gives the first unnumbered rows consecutive positions in insertion order. */
  lemma BatchInOrder(s: State, f: nat, size: nat, picked: seq<nat>, batch: seq<Given>, u: State, i: nat)
    requires Reached(s) && Next(s, TakeStep(f, size, picked, batch), u) && i < |picked|
    ensures |u.given| == |s.given| + |picked|
    ensures u.given[|s.given| + i] == Given(Place(s.epoch, CountOf(s.given, s.epoch) + 1 + i), picked[i])
    ensures i > 0 ==> picked[i - 1] < picked[i]
  {
    ReachedInv(s);
    NumberedStore(s, picked, size, u);
    GivenAt(s.given, s.epoch, StartEpoch(s.db, s.epoch).last, picked, i);
  }

  /** Without any mutual exclusion of the forwarders, the first publications of a partition's rows are in the order of
      their positions; a row is marked published, or purged, only after its publication was acknowledged. */
  lemma PublicationOrder(s: State, i: nat, j: nat, g: Given)
    requires Reached(s)
    ensures i < j < |s.log| && s.log[j] !in s.log[..j] ==> Less(s.log[i].place, s.log[j].place)
    ensures g in s.db.lineage && (g.ord !in s.db.rows || s.db.rows[g.ord].published) ==> g in s.acked && g in s.log
  {
    ReachedInv(s);
  }

  /** Nothing published has an earlier row of the same past still to come: a consumer that saw a position has been sent
      every lower one. */
  lemma NothingMissing(s: State, p: Given, q: Given)
    requires Reached(s) && p in s.log && q in s.db.lineage && Less(q.place, p.place)
    ensures q in s.log
  {
    ReachedInv(s);
  }

  /** A forwarder reads exactly the numbered rows not yet marked published, the first ones in the order of their
      positions, as many as its batch takes. */
  lemma ReadsExactly(db: Db, size: nat, batch: seq<Given>)
    ensures Takes(db, size, batch) <==>
      && (forall i, j :: 0 <= i < j < |batch| ==> Less(batch[i].place, batch[j].place))
      && (forall g :: g in batch ==>
            g.ord in db.rows && !db.rows[g.ord].published && db.rows[g.ord].place == Some(g.place))
      && forall o :: o in db.rows && !db.rows[o].published && db.rows[o].place.Some? ==>
        var g := Given(db.rows[o].place.value, o);
        g in batch || (|batch| == size && forall h :: h in batch ==> Less(h.place, g.place))
  {
    forall g ensures Unpublished(db, g) <==>
      g.ord in db.rows && !db.rows[g.ord].published && db.rows[g.ord].place == Some(g.place)
    {}
  }

  /** Numbering takes exactly the rows without a position, the first ones in insertion order. */
  lemma NumbersExactly(db: Db, size: nat, picked: seq<nat>)
    ensures Picks(db, size, picked) <==>
      && |picked| <= size && (forall i, j :: 0 <= i < j < |picked| ==> picked[i] < picked[j])
      && (forall o :: o in picked ==> o in db.rows && db.rows[o].place == None)
      && forall o :: o in db.rows && db.rows[o].place == None ==>
        o in picked || (|picked| == size && forall p :: p in picked ==> p < o)
  {
    forall o ensures Unnumbered(db, o) <==> o in db.rows && db.rows[o].place == None {}
  }
}
