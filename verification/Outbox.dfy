/** One outbox partition (besdk/events/outbox.py): rows numbered under database epochs, published by any number of
    forwarders at once, with crashes, lost acknowledgements, failovers and restores of a backup. */
module Outbox {
  import opened Wrappers

  /** The database epoch: the deployment's recovery generation and the write timeline. */
  datatype Epoch = Epoch(generation: nat, timeline: nat)

  predicate EpochLess(a: Epoch, b: Epoch) {
    a.generation < b.generation || (a.generation == b.generation && a.timeline < b.timeline)
  }

  datatype Place = Place(epoch: Epoch, n: nat)

  predicate Less(a: Place, b: Place) { EpochLess(a.epoch, b.epoch) || (a.epoch == b.epoch && a.n < b.n) }

  /** A position given to the row inserted as ord. */
  datatype Given = Given(place: Place, ord: nat)

  datatype Row = Row(place: Option<Place>, published: bool)

  datatype Fork = Fork(before: Epoch, fork: nat, next: Epoch)

  /** The partition's part of the database: committed rows, the insertion numbers used, the counter with its epoch, the
      epoch history, and for the properties every position given in this database's past. */
  datatype Db = Db(rows: map<nat, Row>, used: set<nat>, counter: Option<Epoch>, last: nat, forks: seq<Fork>,
                   lineage: seq<Given>)

  /** A forwarder with the rows it read, of which done are published and acknowledged. */
  datatype Forwarder = Forwarder(batch: seq<Given>, done: nat, failed: bool)

  /** The log is what the transport received; given is every position ever given, also in a past that a restore lost. */
  datatype State = State(epoch: Epoch, db: Db, backups: seq<Db>, forwarders: map<nat, Forwarder>,
                         log: seq<Given>, acked: set<Given>, given: seq<Given>)

  // ----- numbering (number_in) -----

  /** A changed epoch is recorded with the last position of the old one, and its positions start again. */
  function StartEpoch(db: Db, e: Epoch): Db {
    if db.counter == Some(e) then db
    else db.(counter := Some(e), last := 0,
             forks := if db.counter.Some? then db.forks + [Fork(db.counter.value, db.last, e)] else db.forks)
  }

  function NumberOne(db: Db, e: Epoch, ord: nat): Db {
    var p := Place(e, db.last + 1);
    db.(rows := db.rows[ord := Row(Some(p), false)], last := db.last + 1, lineage := db.lineage + [Given(p, ord)])
  }

  function NumberAll(db: Db, e: Epoch, picked: seq<nat>): Db
    decreases picked
  {
    if picked == [] then db else NumberAll(NumberOne(db, e, picked[0]), e, picked[1..])
  }

  /** The positions that numbering gives, from the one after last. */
  function Positions(e: Epoch, last: nat, picked: seq<nat>): seq<Given>
    decreases picked
  {
    if picked == [] then [] else [Given(Place(e, last + 1), picked[0])] + Positions(e, last + 1, picked[1..])
  }

  predicate Unnumbered(db: Db, o: nat) { o in db.rows && db.rows[o].place.None? }

  /** The first unnumbered rows in insertion order, as many as a batch takes. */
  ghost predicate Picks(db: Db, size: nat, picked: seq<nat>) {
    && |picked| <= size
    && (forall i :: 0 <= i < |picked| ==> Unnumbered(db, picked[i]))
    && (forall i, j :: 0 <= i < j < |picked| ==> picked[i] < picked[j])
    && forall o :: Unnumbered(db, o) && o !in picked ==> |picked| == size && forall p :: p in picked ==> p < o
  }

  // ----- reading what is numbered and unpublished (_unpublished) -----

  predicate Unpublished(db: Db, g: Given) { g.ord in db.rows && db.rows[g.ord] == Row(Some(g.place), false) }

  ghost predicate Ascending(gs: seq<Given>) { forall i, j :: 0 <= i < j < |gs| ==> Less(gs[i].place, gs[j].place) }

  ghost predicate Takes(db: Db, size: nat, batch: seq<Given>) {
    && Ascending(batch)
    && (forall i :: 0 <= i < |batch| ==> Unpublished(db, batch[i]))
    && forall g :: Unpublished(db, g) && g !in batch ==>
      |batch| == size && forall i :: 0 <= i < |batch| ==> Less(batch[i].place, g.place)
  }

  // ----- steps -----

  datatype Step =
    | WriteStep(ords: set<nat>)                                          // a business transaction commits its rows
    // a forwarder numbers and reads, in one transaction
    | TakeStep(f: nat, size: nat, picked: seq<nat>, batch: seq<Given>)
    | PublishStep(f: nat)
    | LostAckStep(f: nat)                                                // published, but the forwarder sees a failure
    | MarkStep(f: nat)
    | CrashStep(f: nat)
    | PurgeStep(ords: set<nat>)
    | EpochStep(e: Epoch)                                                // a failover without loss
    | BackupStep
    | RestoreStep(k: nat, e: Epoch)                                      // back to a backup, the processes stopped

  ghost predicate Enabled(s: State, t: Step) {
    match t
    case WriteStep(ords) => ords !! s.db.used
    case TakeStep(f, size, picked, batch) =>
      && f !in s.forwarders && Picks(StartEpoch(s.db, s.epoch), size, picked)
      && Takes(NumberAll(StartEpoch(s.db, s.epoch), s.epoch, picked), size, batch)
    case PublishStep(f) =>
      f in s.forwarders && s.forwarders[f].done < |s.forwarders[f].batch| && !s.forwarders[f].failed
    case LostAckStep(f) =>
      f in s.forwarders && s.forwarders[f].done < |s.forwarders[f].batch| && !s.forwarders[f].failed
    case MarkStep(f) => f in s.forwarders && s.forwarders[f].done <= |s.forwarders[f].batch|
    case PurgeStep(ords) => forall o :: o in ords ==> o in s.db.rows && s.db.rows[o].published
    case EpochStep(e) => EpochLess(s.epoch, e)
    case RestoreStep(k, e) => k < |s.backups| && EpochLess(s.epoch, e)
    case _ => true
  }

  function Ords(gs: seq<Given>): set<nat> { set i | 0 <= i < |gs| :: gs[i].ord }

  /** UPDATE ... SET published_at for the rows done. */
  function Marked(db: Db, done: seq<Given>): Db {
    db.(rows := map o | o in db.rows :: if o in Ords(done) then db.rows[o].(published := true) else db.rows[o])
  }

  ghost function After(s: State, t: Step): State
    requires Enabled(s, t)
  {
    match t
    case WriteStep(ords) =>
      s.(db := s.db.(rows := s.db.rows + map o | o in ords :: Row(None, false), used := s.db.used + ords))
    case TakeStep(f, size, picked, batch) =>
      var db := StartEpoch(s.db, s.epoch);
      s.(db := NumberAll(db, s.epoch, picked), forwarders := s.forwarders[f := Forwarder(batch, 0, false)],
         given := s.given + Positions(s.epoch, db.last, picked))
    case PublishStep(f) =>
      var w := s.forwarders[f];
      s.(log := s.log + [w.batch[w.done]], acked := s.acked + {w.batch[w.done]},
         forwarders := s.forwarders[f := w.(done := w.done + 1)])
    case LostAckStep(f) =>
      var w := s.forwarders[f];
      s.(log := s.log + [w.batch[w.done]], forwarders := s.forwarders[f := w.(failed := true)])
    case MarkStep(f) =>
      var w := s.forwarders[f];
      s.(db := Marked(s.db, w.batch[..w.done]), forwarders := s.forwarders - {f})
    case CrashStep(f) => s.(forwarders := s.forwarders - {f})
    case PurgeStep(ords) => s.(db := s.db.(rows := s.db.rows - ords))
    case EpochStep(e) => s.(epoch := e)
    case BackupStep => s.(backups := s.backups + [s.db])
    case RestoreStep(k, e) => s.(db := s.backups[k], backups := s.backups[..k + 1], forwarders := map[], epoch := e)
  }

  ghost predicate Next(s: State, t: Step, u: State) { Enabled(s, t) && u == After(s, t) }

  ghost predicate Init(s: State) {
    s == State(s.epoch, Db(map[], {}, None, 0, [], []), [], map[], [], {}, [])
  }

  // ----- the database by itself -----

  function CountOf(gs: seq<Given>, e: Epoch): nat {
    if gs == [] then 0
    else CountOf(gs[..|gs| - 1], e) + if gs[|gs| - 1].place.epoch == e then 1 else 0
  }

  lemma CountSnoc(gs: seq<Given>, g: Given, e: Epoch)
    ensures CountOf(gs + [g], e) == CountOf(gs, e) + if g.place.epoch == e then 1 else 0
  {
    assert (gs + [g])[..|gs|] == gs;
  }

  /** In the order given, the positions of every epoch are 1, 2, 3, ... */
  ghost predicate Exact(gs: seq<Given>) { forall i :: 0 <= i < |gs| ==> ExactAt(gs, i) }

  ghost predicate ExactAt(gs: seq<Given>, i: nat)
    requires i < |gs|
  {
    gs[i].place.n == CountOf(gs[..i], gs[i].place.epoch) + 1
  }

  predicate UpTo(e: Epoch, limit: Epoch) { e == limit || EpochLess(e, limit) }

  ghost predicate AllUpTo(gs: seq<Given>, e: Epoch) { forall g :: g in gs ==> UpTo(g.place.epoch, e) }

  ghost predicate OncePerRow(gs: seq<Given>) { forall i, j :: 0 <= i < j < |gs| ==> gs[i].ord != gs[j].ord }

  ghost predicate RowsNumbered(db: Db) {
    && (forall o :: o in db.rows && db.rows[o].place.Some? ==> Given(db.rows[o].place.value, o) in db.lineage)
    && (forall g :: g in db.lineage && g.ord in db.rows ==> db.rows[g.ord].place == Some(g.place))
  }

  ghost predicate CounterOk(db: Db) {
    match db.counter
    case None => db.lineage == [] && db.forks == []
    case Some(e) => AllUpTo(db.lineage, e) && db.last == CountOf(db.lineage, e)
  }

  /** A fork tells how many positions the old epoch has. */
  ghost predicate ForksOk(db: Db) {
    forall f :: f in db.forks ==>
      f.fork == CountOf(db.lineage, f.before) && EpochLess(f.before, f.next)
      && db.counter.Some? && UpTo(f.next, db.counter.value)
  }

  ghost predicate DbOk(db: Db) {
    && RowsNumbered(db) && CounterOk(db) && ForksOk(db)
    && Exact(db.lineage) && Ascending(db.lineage) && OncePerRow(db.lineage)
  }

  // ----- numbering keeps the database -----

  lemma {:induction false} NumberBound(gs: seq<Given>, e: Epoch, g: Given)
    requires Exact(gs) && g in gs && g.place.epoch == e
    ensures 1 <= g.place.n <= CountOf(gs, e)
  {
    var h := gs[..|gs| - 1];
    assert gs == h + [gs[|gs| - 1]];
    CountSnoc(h, gs[|gs| - 1], e);
    assert ExactAt(gs, |gs| - 1);
    if g != gs[|gs| - 1] {
      forall i | 0 <= i < |h| ensures ExactAt(h, i) { assert ExactAt(gs, i) && h[..i] == gs[..i]; }
      NumberBound(h, e, g);
    }
  }

  lemma {:induction false} NoneOf(gs: seq<Given>, e: Epoch)
    requires forall g :: g in gs ==> g.place.epoch != e
    ensures CountOf(gs, e) == 0
  {
    if gs != [] {
      assert gs[|gs| - 1] in gs;
      NoneOf(gs[..|gs| - 1], e);
    }
  }

  /** The next position lies after every position given. */
  lemma NextIsLast(db: Db, e: Epoch, g: Given)
    requires DbOk(db) && db.counter == Some(e) && g in db.lineage
    ensures Less(g.place, Place(e, db.last + 1))
  {
    if g.place.epoch == e { NumberBound(db.lineage, e, g); }
  }

  lemma ExactSnoc(gs: seq<Given>, g: Given)
    requires Exact(gs) && g.place.n == CountOf(gs, g.place.epoch) + 1
    ensures Exact(gs + [g])
  {
    var more := gs + [g];
    forall i | 0 <= i < |more| ensures ExactAt(more, i) {
      assert more[..i] == gs[..i];
      if i == |gs| { assert gs[..i] == gs; } else { assert ExactAt(gs, i); }
    }
  }

  lemma StartKeeps(db: Db, e: Epoch)
    requires DbOk(db) && (db.counter.Some? ==> UpTo(db.counter.value, e))
    ensures DbOk(StartEpoch(db, e)) && StartEpoch(db, e).counter == Some(e)
    ensures StartEpoch(db, e).lineage == db.lineage && StartEpoch(db, e).rows == db.rows
  {
    if db.counter != Some(e) {
      forall g | g in db.lineage ensures EpochLess(g.place.epoch, e) {}
      NoneOf(db.lineage, e);
    }
  }

  lemma NumberOneForks(db: Db, e: Epoch, o: nat)
    requires ForksOk(db) && db.counter == Some(e)
    ensures ForksOk(NumberOne(db, e, o))
  {
    var u := NumberOne(db, e, o);
    forall f | f in u.forks ensures f.fork == CountOf(u.lineage, f.before) {
      CountSnoc(db.lineage, Given(Place(e, db.last + 1), o), f.before);
    }
  }

  lemma NumberOneRows(db: Db, e: Epoch, o: nat)
    requires RowsNumbered(db) && Unnumbered(db, o)
    ensures RowsNumbered(NumberOne(db, e, o))
  {
    var u := NumberOne(db, e, o);
    var g := Given(Place(e, db.last + 1), o);
    assert u.lineage[|db.lineage|] == g;
    forall p | p in u.rows && u.rows[p].place.Some? ensures Given(u.rows[p].place.value, p) in u.lineage {
      if p != o { assert Given(db.rows[p].place.value, p) in db.lineage; }
    }
  }

  lemma NumberOneCounter(db: Db, e: Epoch, o: nat)
    requires CounterOk(db) && db.counter == Some(e)
    ensures CounterOk(NumberOne(db, e, o))
  {
    CountSnoc(db.lineage, Given(Place(e, db.last + 1), o), e);
  }

  lemma NumberOneExact(db: Db, e: Epoch, o: nat)
    requires Exact(db.lineage) && CounterOk(db) && db.counter == Some(e)
    ensures Exact(NumberOne(db, e, o).lineage)
  {
    ExactSnoc(db.lineage, Given(Place(e, db.last + 1), o));
  }

  lemma NumberOneOrder(db: Db, e: Epoch, o: nat)
    requires DbOk(db) && db.counter == Some(e) && Unnumbered(db, o)
    ensures Ascending(NumberOne(db, e, o).lineage) && OncePerRow(NumberOne(db, e, o).lineage)
  {
    forall h | h in db.lineage ensures Less(h.place, Place(e, db.last + 1)) && h.ord != o { NextIsLast(db, e, h); }
  }

  lemma NumberOneKeeps(db: Db, e: Epoch, o: nat)
    requires DbOk(db) && db.counter == Some(e) && Unnumbered(db, o)
    ensures DbOk(NumberOne(db, e, o)) && NumberOne(db, e, o).counter == Some(e)
  {
    NumberOneExact(db, e, o);
    NumberOneRows(db, e, o);
    NumberOneCounter(db, e, o);
    NumberOneForks(db, e, o);
    NumberOneOrder(db, e, o);
  }

  lemma {:induction false} NumberKeeps(db: Db, e: Epoch, picked: seq<nat>)
    requires DbOk(db) && db.counter == Some(e)
    requires forall i :: 0 <= i < |picked| ==> Unnumbered(db, picked[i])
    requires forall i, j :: 0 <= i < j < |picked| ==> picked[i] < picked[j]
    ensures DbOk(NumberAll(db, e, picked)) && NumberAll(db, e, picked).counter == Some(e)
    decreases picked
  {
    if picked != [] {
      var u := NumberOne(db, e, picked[0]);
      NumberOneKeeps(db, e, picked[0]);
      forall i | 0 <= i < |picked[1..]| ensures Unnumbered(u, picked[1..][i])
      {
        assert picked[1..][i] == picked[i + 1];
      }
      NumberKeeps(u, e, picked[1..]);
    }
  }

  lemma {:induction false} NumberLineage(db: Db, e: Epoch, picked: seq<nat>)
    ensures NumberAll(db, e, picked).lineage == db.lineage + Positions(e, db.last, picked)
    ensures NumberAll(db, e, picked).last == db.last + |picked|
    decreases picked
  {
    if picked == [] {
      assert db.lineage + [] == db.lineage;
    } else {
      NumberLineage(NumberOne(db, e, picked[0]), e, picked[1..]);
      assert db.lineage + Positions(e, db.last, picked) ==
        (db.lineage + [Given(Place(e, db.last + 1), picked[0])]) + Positions(e, db.last + 1, picked[1..]);
    }
  }
}
