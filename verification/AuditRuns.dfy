/** Audit records between a component and the audit component: over every run of writing, numbering, sending, receipts,
    purges, backups and restores, no committed record is lost. */
module AuditRuns {
  import opened Wrappers
  import opened Outbox
  import opened Audit

  /** Rows numbered in one transaction, at most. */
  const BATCH := 500

  /** A record stored by the audit component, at a position of one of its epochs. */
  datatype Item = Item(epoch: Epoch, num: int, id: nat)

  datatype LocalRow = LocalRow(place: Option<Place>, transfer: Transfer)

  /** The component's numbering: its database epoch, the counter with its epoch, and every position given. */
  datatype Numbers = Numbers(epoch: Epoch, counter: Option<Epoch>, last: nat, lineage: seq<Given>)

  /** committed: the records whose transactions committed. log: the audit component's history, of which the first backed
      are in its backup and the first answered were covered by a watermark it has given out. base: how long it was when
      its epoch began. forks: where its history left the ancestors of its epoch. receipts: all it ever issued. */
  datatype World = World(committed: set<nat>, rows: map<nat, LocalRow>, numbers: Numbers, epoch: Epoch, log: seq<Item>,
                         base: nat, forks: seq<(Epoch, int)>, backed: nat, backedUp: bool, answered: nat,
                         receipts: set<Item>, watermarks: set<Watermark>)

  /** The local table and counter as the numbering algorithm sees them. */
  function Local(s: World): Db {
    Db(map o | o in s.rows :: Row(s.rows[o].place, false), s.committed, s.numbers.counter, s.numbers.last, [],
       s.numbers.lineage)
  }

  /** The local database after a batch is numbered under the present database epoch. */
  function Numbered(s: World, picked: seq<nat>): Db {
    NumberAll(AuditStart(Local(s), s.numbers.epoch), s.numbers.epoch, picked)
  }

  /** The highest position of an epoch in a history. */
  function Highest(log: seq<Item>, e: Epoch): int {
    if log == [] then 0
    else if log[|log| - 1].epoch == e && log[|log| - 1].num > Highest(log[..|log| - 1], e) then log[|log| - 1].num
    else Highest(log[..|log| - 1], e)
  }

  predicate Stored(log: seq<Item>, id: nat) { exists i :: 0 <= i < |log| && log[i].id == id }

  /** The answer about the backup: the highest covered position of the current epoch, and the ancestors. */
  function Answered(s: World): Watermark
    requires s.backed <= |s.log|
  {
    Watermark(s.epoch, if s.backedUp then Highest(s.log[..s.backed], s.epoch) else 0, s.forks, s.backedUp)
  }

  /** The forks of a history cut back to its first k items, the epoch so far now being an ancestor too. */
  function Forked(s: World, k: nat): seq<(Epoch, int)>
    requires k <= |s.log|
  {
    Cut(s.log[..k], s.forks + [(s.epoch, 0)])
  }

  function Cut(log: seq<Item>, forks: seq<(Epoch, int)>): (r: seq<(Epoch, int)>)
    ensures |r| == |forks| && forall i :: 0 <= i < |r| ==> r[i] == (forks[i].0, Highest(log, forks[i].0))
  {
    if forks == [] then [] else [(forks[0].0, Highest(log, forks[0].0))] + Cut(log, forks[1..])
  }

  datatype Step =
    | Write(id: nat)
    | Number(picked: seq<nat>)                   // the first unnumbered rows, in one transaction
    | Failover(e: Epoch)                         // of the component's database, without loss
    | Send(id: nat)                              // the audit component stores it, or finds it by its identity
    | Settle(r: Item)                            // a receipt is stored with its row, at any later time
    | Refuse(id: nat)                            // a conflict, or a status this code does not know
    | Purge(w: Watermark, aged: set<nat>)        // any watermark ever given, however old
    | Backup
    | Answer
    | Restore(k: nat, e: Epoch)                  // of the audit component, to a backup

  ghost predicate Enabled(s: World, t: Step) {
    match t
    case Write(id) => id !in s.committed
    case Number(picked) => Picks(AuditStart(Local(s), s.numbers.epoch), BATCH, picked)
    case Failover(e) => EpochLess(s.numbers.epoch, e)
    case Send(id) => id in s.rows && s.rows[id].place.Some? && s.rows[id].transfer.Pending?
    case Settle(r) => r in s.receipts
    case Purge(w, _) => w in s.watermarks
    case Answer => s.backed <= |s.log|
    case Restore(k, e) => s.answered <= k <= |s.log| && EpochLess(s.epoch, e)
    case _ => true
  }

  function Aged(t: Transfer, aged: bool): Transfer { if t.Received? then t.(aged := aged) else t }

  ghost function After(s: World, t: Step): World
    requires Enabled(s, t)
  {
    match t
    case Write(id) => s.(committed := s.committed + {id}, rows := s.rows[id := LocalRow(None, Pending)])
    case Number(picked) =>
      var db := Numbered(s, picked);
      s.(rows := map o | o in s.rows && o in db.rows :: s.rows[o].(place := db.rows[o].place),
         numbers := Numbers(s.numbers.epoch, db.counter, db.last, db.lineage))
    case Failover(e) => s.(numbers := s.numbers.(epoch := e))
    case Send(id) =>
      if Stored(s.log, id) then s.(receipts := s.receipts + set i | 0 <= i < |s.log| && s.log[i].id == id :: s.log[i])
      else
        var item := Item(s.epoch, Highest(s.log, s.epoch) + 1, id);
        s.(log := s.log + [item], receipts := s.receipts + {item})
    case Settle(r) =>
      if r.id in s.rows && s.rows[r.id].transfer.Pending?
      then s.(rows := s.rows[r.id := s.rows[r.id].(transfer := Received(Some(Receipt(r.epoch, r.num)), false))])
      else s
    case Refuse(id) =>
      if id in s.rows && s.rows[id].transfer.Pending?
      then s.(rows := s.rows[id := s.rows[id].(transfer := Conflict)])
      else s
    case Purge(w, aged) =>
      var before := map o | o in s.rows :: Aged(s.rows[o].transfer, o in aged);
      var kept := Decided(w, before);
      s.(rows := map o | o in s.rows && o in kept :: s.rows[o].(transfer := kept[o]))
    case Backup => s.(backed := |s.log|, backedUp := true)
    case Answer =>
      s.(watermarks := s.watermarks + {Answered(s)},
         answered := if s.backedUp && s.answered < s.backed then s.backed else s.answered)
    case Restore(k, e) =>
      s.(log := s.log[..k], forks := Forked(s, k), epoch := e, base := k, backed := k, backedUp := false)
  }

  ghost predicate Next(s: World, t: Step, u: World) { Enabled(s, t) && u == After(s, t) }

  predicate Init(s: World) {
    s == World({}, map[], Numbers(s.numbers.epoch, None, 0, []), s.epoch, [], 0, [], 0, false, 0, {}, {})
  }

  // ----- positions -----

  lemma HighestSnoc(log: seq<Item>, x: Item, e: Epoch)
    ensures Highest(log + [x], e) == if x.epoch == e && x.num > Highest(log, e) then x.num else Highest(log, e)
  {
    assert (log + [x])[..|log|] == log;
  }

  lemma {:induction false} HighestIs(log: seq<Item>, e: Epoch)
    ensures Highest(log, e) >= 0 && forall x :: x in log && x.epoch == e ==> x.num <= Highest(log, e)
    ensures Highest(log, e) > 0 ==> exists i :: 0 <= i < |log| && log[i].epoch == e && log[i].num == Highest(log, e)
  {
    if log != [] {
      var front := log[..|log| - 1];
      HighestIs(front, e);
      assert log == front + [log[|log| - 1]];
      if i :| 0 <= i < |front| && front[i].epoch == e && front[i].num == Highest(front, e) {
        assert log[i].epoch == e && log[i].num == Highest(front, e);
      }
    }
  }

  /** Each epoch's positions in the log increase. */
  ghost predicate Rising(log: seq<Item>) {
    forall i, j :: 0 <= i < j < |log| && log[i].epoch == log[j].epoch ==> log[i].num < log[j].num
  }

  /** What lies at or below the highest position of a prefix is in the prefix. */
  lemma BelowHighest(log: seq<Item>, k: nat, x: Item)
    requires Rising(log) && k <= |log| && x in log && 0 < x.num <= Highest(log[..k], x.epoch)
    ensures x in log[..k]
  {
    HighestIs(log[..k], x.epoch);
    var i :| 0 <= i < k && log[..k][i].epoch == x.epoch && log[..k][i].num == Highest(log[..k], x.epoch);
    var j :| 0 <= j < |log| && log[j] == x;
    assert j <= i;
    assert log[..k][j] == x;
  }

  // ----- the invariant -----

  ghost predicate LogOk(s: World) {
    && Rising(s.log) && s.base <= |s.log| && s.backed <= |s.log| && s.answered <= |s.log|
    && (s.backedUp ==> s.base <= s.backed)
    && (forall i :: 0 <= i < |s.log| ==> s.log[i] in s.receipts && (s.log[i].epoch == s.epoch <==> s.base <= i))
  }

  ghost predicate ForksOk(s: World) {
    && (forall i :: 0 <= i < |s.forks| ==>
          EpochLess(s.forks[i].0, s.epoch) && s.forks[i].1 == Highest(s.log, s.forks[i].0))
    && (forall i, j :: 0 <= i < j < |s.forks| ==> s.forks[i].0 != s.forks[j].0)
  }

  /** Whatever was stored in the current epoch, or in an ancestor up to its fork, is in the history. */
  ghost predicate HistoryOk(s: World) {
    && (forall r :: r in s.receipts ==> 0 < r.num && UpTo(r.epoch, s.epoch))
    && (forall r :: r in s.receipts && r.epoch == s.epoch ==> r in s.log)
    && (forall r, i :: r in s.receipts && 0 <= i < |s.forks| && r.epoch == s.forks[i].0 && r.num <= s.forks[i].1 ==>
          r in s.log)
  }

  ghost predicate Covers(w: Watermark, r: Item) {
    || (r.epoch == w.epoch && r.num <= w.num)
    || (w.backedUp && exists i :: 0 <= i < |w.ancestors| && w.ancestors[i].0 == r.epoch && r.num <= w.ancestors[i].1)
  }

  /** A watermark once given stays true: what it covers is in the part of the history that no restore may cut. */
  ghost predicate WatermarkOk(s: World, w: Watermark) {
    && UpTo(w.epoch, s.epoch) && (w.epoch == s.epoch ==> w.num <= Highest(s.log, s.epoch))
    && (forall i :: 0 <= i < |w.ancestors| ==> EpochLess(w.ancestors[i].0, w.epoch))
    && s.answered <= |s.log| && forall r :: r in s.receipts && Covers(w, r) ==> r in s.log[..s.answered]
  }

  ghost predicate Watermarks(s: World) { forall w :: w in s.watermarks ==> WatermarkOk(s, w) }

  ghost predicate RowsOk(s: World) {
    && (forall o :: o in s.rows && s.rows[o].transfer.Received? ==> ReceiptOk(s, o, s.rows[o].transfer))
    && s.answered <= |s.log| && forall o :: o in s.committed ==> o in s.rows || Stored(s.log[..s.answered], o)
  }

  ghost predicate ReceiptOk(s: World, o: nat, t: Transfer)
    requires t.Received?
  {
    t.receipt.Some? && Item(t.receipt.value.epoch, t.receipt.value.num, o) in s.receipts
  }

  ghost predicate Inv(s: World) { LogOk(s) && ForksOk(s) && HistoryOk(s) && Watermarks(s) && RowsOk(s) }

  // ----- each step -----

  /** Steps of the component alone. */
  lemma LocalKept(s: World, u: World)
    requires Inv(s) && RowsOk(u) && u == s.(committed := u.committed, rows := u.rows, numbers := u.numbers)
    ensures Inv(u)
  {
    forall w | w in u.watermarks ensures WatermarkOk(u, w) { assert WatermarkOk(s, w); }
  }

  lemma RowStepKept(s: World, t: Step)
    requires Inv(s) && Enabled(s, t) && (t.Write? || t.Failover? || t.Settle? || t.Refuse?)
    ensures Inv(After(s, t))
  {
    LocalKept(s, After(s, t));
  }

  lemma {:induction false} NumberRows(db: Db, e: Epoch, picked: seq<nat>, o: nat)
    requires o in db.rows
    ensures o in NumberAll(db, e, picked).rows
    decreases picked
  {
    if picked != [] { NumberRows(NumberOne(db, e, picked[0]), e, picked[1..], o); }
  }

  /** Numbering keeps every row and its transfer. */
  lemma NumberKept(s: World, picked: seq<nat>)
    requires Inv(s) && Enabled(s, Number(picked))
    ensures Inv(After(s, Number(picked)))
    ensures After(s, Number(picked)).rows.Keys == s.rows.Keys
    ensures forall o :: o in s.rows ==> After(s, Number(picked)).rows[o].transfer == s.rows[o].transfer
  {
    var u := After(s, Number(picked));
    forall o | o in s.rows ensures o in u.rows && u.rows[o].transfer == s.rows[o].transfer {
      NumberRows(AuditStart(Local(s), s.numbers.epoch), s.numbers.epoch, picked, o);
    }
    LocalKept(s, u);
  }

  lemma CoveredStored(s: World, w: Watermark, o: nat, t: Transfer)
    requires Watermarks(s) && w in s.watermarks && t.Received? && ReceiptOk(s, o, t) && Decide(w, t) == Delete
    ensures s.answered <= |s.log| && Stored(s.log[..s.answered], o)
  {
    var r := Item(t.receipt.value.epoch, t.receipt.value.num, o);
    assert WatermarkOk(s, w);
    ForkKey(w.ancestors, r.epoch);
    assert Covers(w, r);
    var i :| 0 <= i < s.answered && s.log[..s.answered][i] == r;
  }

  lemma PurgeKept(s: World, w: Watermark, aged: set<nat>)
    requires Inv(s) && w in s.watermarks
    ensures Inv(After(s, Purge(w, aged)))
  {
    var u := After(s, Purge(w, aged));
    forall o | o in u.committed ensures o in u.rows || Stored(u.log[..u.answered], o) {
      if o in s.rows && o !in u.rows { CoveredStored(s, w, o, Aged(s.rows[o].transfer, o in aged)); }
    }
    forall o | o in u.rows && u.rows[o].transfer.Received? ensures ReceiptOk(u, o, u.rows[o].transfer) {
      assert ReceiptOk(s, o, s.rows[o].transfer);
    }
    LocalKept(s, u);
  }

  lemma StoredPrefix(log: seq<Item>, k: nat, l: nat, id: nat)
    requires k <= l <= |log| && Stored(log[..k], id)
    ensures Stored(log[..l], id)
  {
    var i :| 0 <= i < k && log[..k][i].id == id;
    assert log[..l][i].id == id;
  }

  lemma SentAgain(s: World, id: nat)
    requires Inv(s) && Enabled(s, Send(id)) && Stored(s.log, id)
    ensures After(s, Send(id)) == s
  {}

  lemma SentKept(s: World, id: nat)
    requires Inv(s) && Enabled(s, Send(id)) && !Stored(s.log, id)
    ensures Inv(After(s, Send(id)))
  {
    var u := After(s, Send(id));
    var x := Item(s.epoch, Highest(s.log, s.epoch) + 1, id);
    assert u.log[|s.log|] == x;
    assert u.log[..u.answered] == s.log[..s.answered];
    HighestIs(s.log, s.epoch);
    HighestSnoc(s.log, x, s.epoch);
    forall i | 0 <= i < |u.forks| ensures u.forks[i].1 == Highest(u.log, u.forks[i].0) {
      HighestSnoc(s.log, x, u.forks[i].0);
    }
    forall i | 0 <= i < |s.log| && s.log[i].epoch == s.epoch ensures s.log[i].num < x.num { assert s.log[i] in s.log; }
    forall w | w in u.watermarks ensures WatermarkOk(u, w) {
      assert WatermarkOk(s, w);
      assert !Covers(w, x);
    }
    forall o | o in u.rows && u.rows[o].transfer.Received? ensures ReceiptOk(u, o, u.rows[o].transfer) {
      assert ReceiptOk(s, o, s.rows[o].transfer);
    }
  }

  lemma BackupKept(s: World)
    requires Inv(s)
    ensures Inv(After(s, Backup))
  {
    var u := After(s, Backup);
    forall w | w in u.watermarks ensures WatermarkOk(u, w) { assert WatermarkOk(s, w); }
    forall o | o in u.rows && u.rows[o].transfer.Received? ensures ReceiptOk(u, o, u.rows[o].transfer) {
      assert ReceiptOk(s, o, s.rows[o].transfer);
    }
  }

  /** What a new watermark covers is in the backup. */
  lemma AnswerCovers(s: World, r: Item)
    requires LogOk(s) && ForksOk(s) && HistoryOk(s) && r in s.receipts && Covers(Answered(s), r)
    ensures s.backedUp && r in s.log[..s.backed]
  {
    if r.epoch == s.epoch {
      BelowHighest(s.log, s.backed, r);
    } else {
      assert r in s.log;
      var j :| 0 <= j < |s.log| && s.log[j] == r;
      assert s.log[..s.backed][j] == r;
    }
  }

  lemma AnswerKept(s: World)
    requires Inv(s)
    ensures Inv(After(s, Answer))
  {
    var u := After(s, Answer);
    var w0 := Answered(s);
    HighestIs(s.log, s.epoch);
    HighestIs(s.log[..s.backed], s.epoch);
    forall w | w in u.watermarks ensures WatermarkOk(u, w) {
      forall r | r in u.receipts && Covers(w, r) ensures r in u.log[..u.answered] {
        if w == w0 {
          AnswerCovers(s, r);
          PrefixHas(s.log, s.backed, u.answered, r);
        } else {
          assert WatermarkOk(s, w);
          PrefixHas(s.log, s.answered, u.answered, r);
        }
      }
      if w != w0 {
        assert WatermarkOk(s, w);
      } else if s.backedUp && Highest(s.log[..s.backed], s.epoch) > 0 {
        var i :| 0 <= i < s.backed && s.log[..s.backed][i].epoch == s.epoch
                 && s.log[..s.backed][i].num == Highest(s.log[..s.backed], s.epoch);
        assert s.log[i] in s.log;
      }
    }
    forall o | o in u.committed ensures o in u.rows || Stored(u.log[..u.answered], o) {
      if o !in s.rows { StoredPrefix(s.log, s.answered, u.answered, o); }
    }
    forall o | o in u.rows && u.rows[o].transfer.Received? ensures ReceiptOk(u, o, u.rows[o].transfer) {
      assert ReceiptOk(s, o, s.rows[o].transfer);
    }
  }

  lemma PrefixHas(log: seq<Item>, k: nat, l: nat, r: Item)
    requires k <= l <= |log| && r in log[..k]
    ensures r in log[..l]
  {
    var i :| 0 <= i < k && log[..k][i] == r;
    assert log[..l][i] == r;
  }

  /** A restore keeps what lies at or below each new fork. */
  lemma RestoredHistory(s: World, k: nat, e: Epoch, r: Item, i: nat)
    requires Inv(s) && Enabled(s, Restore(k, e)) && r in s.receipts && i < |Forked(s, k)|
    requires r.epoch == Forked(s, k)[i].0 && r.num <= Forked(s, k)[i].1
    ensures r in s.log[..k]
  {
    if i < |s.forks| {
      HighestIs(s.log, r.epoch);
      HighestIs(s.log[..k], r.epoch);
      var j :| 0 <= j < k && s.log[..k][j].epoch == r.epoch && s.log[..k][j].num == Highest(s.log[..k], r.epoch);
      assert s.log[j] in s.log && s.forks[i].0 == r.epoch;
    }
    BelowHighest(s.log, k, r);
  }

  lemma RestoreKept(s: World, k: nat, e: Epoch)
    requires Inv(s) && Enabled(s, Restore(k, e))
    ensures Inv(After(s, Restore(k, e)))
  {
    var u := After(s, Restore(k, e));
    assert u.log[..u.answered] == s.log[..s.answered];
    forall i | 0 <= i < |u.log| ensures u.log[i].epoch != e { assert s.log[i] in s.receipts; }
    forall r, i | r in u.receipts && 0 <= i < |u.forks| && r.epoch == u.forks[i].0 && r.num <= u.forks[i].1
      ensures r in u.log
    {
      RestoredHistory(s, k, e, r, i);
    }
    forall w | w in u.watermarks ensures WatermarkOk(u, w) { assert WatermarkOk(s, w); }
    forall o | o in u.rows && u.rows[o].transfer.Received? ensures ReceiptOk(u, o, u.rows[o].transfer) {
      assert ReceiptOk(s, o, s.rows[o].transfer);
    }
  }

  lemma InvKept(s: World, t: Step, u: World)
    requires Inv(s) && Next(s, t, u)
    ensures Inv(u)
  {
    match t
    case Number(picked) => NumberKept(s, picked);
    case Purge(w, aged) => PurgeKept(s, w, aged);
    case Send(id) => if Stored(s.log, id) { SentAgain(s, id); } else { SentKept(s, id); }
    case Backup => BackupKept(s);
    case Answer => AnswerKept(s);
    case Restore(k, e) => RestoreKept(s, k, e);
    case _ => RowStepKept(s, t);
  }

  // ----- runs -----

  ghost predicate IsRun(ss: seq<World>, ts: seq<Step>) {
    |ss| == |ts| + 1 && Init(ss[0]) && forall i :: 0 <= i < |ts| ==> StepAt(ss, ts, i)
  }

  ghost predicate StepAt(ss: seq<World>, ts: seq<Step>, i: nat)
    requires |ss| == |ts| + 1 && i < |ts|
  {
    Next(ss[i], ts[i], ss[i + 1])
  }

  lemma {:induction false} RunInv(ss: seq<World>, ts: seq<Step>, i: nat)
    requires IsRun(ss, ts) && i <= |ts|
    ensures Inv(ss[i])
  {
    if i > 0 {
      RunInv(ss, ts, i - 1);
      assert StepAt(ss, ts, i - 1);
      InvKept(ss[i - 1], ts[i - 1], ss[i]);
    }
  }

  /** A committed record is always still in the component's table, or in the audit component's history whatever backup
      it is restored to, as long as restores do not go below a watermark it has given out. Receipts and watermarks may
      be used however late. */
  lemma NoRecordLost(ss: seq<World>, ts: seq<Step>, i: nat, id: nat, k: nat, e: Epoch)
    requires IsRun(ss, ts) && i <= |ts| && id in ss[i].committed && Enabled(ss[i], Restore(k, e))
    ensures id in ss[i].rows || Stored(After(ss[i], Restore(k, e)).log, id)
  {
    RunInv(ss, ts, i);
    if id !in ss[i].rows { StoredPrefix(ss[i].log, ss[i].answered, k, id); }
  }

  /** A row is deleted only when every restore that may still come keeps its record. */
  lemma DeletedIsSafe(ss: seq<World>, ts: seq<Step>, i: nat, id: nat)
    requires IsRun(ss, ts) && i < |ts| && id in ss[i].rows && id !in ss[i + 1].rows && id in ss[i].committed
    ensures ts[i].Purge? && ss[i].answered <= |ss[i].log| && Stored(ss[i].log[..ss[i].answered], id)
  {
    RunInv(ss, ts, i);
    RunInv(ss, ts, i + 1);
    assert StepAt(ss, ts, i);
    if ts[i].Number? { NumberKept(ss[i], ts[i].picked); }
  }
}
