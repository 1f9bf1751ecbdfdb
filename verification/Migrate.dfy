/** The migration runner (besdk/db/migrate.py): files applied in version order under a lock, with the state table's
    version and dirty flag, by any number of instances that may stop at any point. */
module Migrate {
  import opened Wrappers

  datatype File = File(version: nat, body: nat)

  /** The state table's row; without one nothing was applied. */
  datatype Mark = Mark(version: nat, dirty: bool)

  /** The state table and, for the properties, the files whose effect the schema has, in the order they took effect. */
  datatype Db = Db(mark: Option<Mark>, applied: seq<File>)

  /** How one file's part of a run goes: to its end; a lock not granted or a failed statement, taken back; a failed one
      whose taking back fails; or the process stops before the file is marked, after, or when it has taken effect. */
  datatype Fate = Applies | LockTimeout | Fails | FailsTwice | StopsBefore | StopsMarked | StopsApplied

  datatype Outcome = Done | WasDirty | NoLock | Failed | Stopped

  function Clean(version: int): Option<Mark> { if version >= 0 then Some(Mark(version, false)) else None }

  function Current(m: Option<Mark>): int { if m.Some? then m.value.version else -1 }

  /** The loop over the files after the current version. */
  function Files(db: Db, current: int, files: seq<File>, fates: seq<Fate>): (Db, Outcome)
    requires |fates| >= |files|
    decreases files
  {
    if files == [] then (db, Done)
    else if files[0].version <= current then Files(db, current, files[1..], fates[1..])
    else
      var dirty := Some(Mark(files[0].version, true));
      match fates[0]
      case Applies =>
        Files(Db(Clean(files[0].version), db.applied + [files[0]]), files[0].version, files[1..], fates[1..])
      case LockTimeout => (db.(mark := Clean(current)), NoLock)
      case Fails => (db.(mark := Clean(current)), Failed)
      case FailsTwice => (db.(mark := dirty), Stopped)
      case StopsBefore => (db, Stopped)
      case StopsMarked => (db.(mark := dirty), Stopped)
      case StopsApplied => (Db(dirty, db.applied + [files[0]]), Stopped)
  }

  /** _apply_locked: a dirty state is never built upon. */
  function Run(db: Db, files: seq<File>, fates: seq<Fate>): (Db, Outcome)
    requires |fates| >= |files|
  {
    if db.mark.Some? && db.mark.value.dirty then (db, WasDirty) else Files(db, Current(db.mark), files, fates)
  }

  class Store {
    var mark: Option<Mark>
    ghost var applied: seq<File>

    ghost function Model(): Db
      reads this
    {
      Db(mark, applied)
    }

    constructor ()
      ensures Model() == Db(None, [])
    {
      mark, applied := None, [];
    }

    /** _set_version: truncate, then insert, in one transaction. */
    method SetVersion(version: int, dirty: bool)
      requires dirty ==> version >= 0
      modifies `mark
      ensures mark == if version >= 0 then Some(Mark(version, dirty)) else None
    {
      mark := None;
      if version >= 0 { mark := Some(Mark(version, dirty)); }
    }

    /** _apply_locked. */
    method ApplyLocked(files: seq<File>, fates: seq<Fate>) returns (out: Outcome)
      requires |fates| >= |files|
      modifies this
      ensures (Model(), out) == Run(old(Model()), files, fates)
    {
      if mark.Some? && mark.value.dirty { return WasDirty; }
      var current := Current(mark);
      ghost var before := Model();
      ghost var first := current;
      for i := 0 to |files|
        invariant current == Current(mark) && (mark.Some? ==> !mark.value.dirty)
        invariant Files(Model(), current, files[i..], fates[i..]) == Files(before, first, files, fates)
      {
        var f, fate := files[i], fates[i];
        assert files[i..][1..] == files[i + 1..] && fates[i..][1..] == fates[i + 1..];
        if f.version <= current { continue; }
        if fate == StopsBefore { return Stopped; }
        SetVersion(f.version, true);
        match fate
        case LockTimeout =>
          SetVersion(current, false);
          return NoLock;
        case Fails =>
          SetVersion(current, false);
          return Failed;
        case StopsApplied =>
          applied := applied + [f];
          return Stopped;
        case Applies =>
          applied := applied + [f];
          SetVersion(f.version, false);
          current := f.version;
        case _ => return Stopped;
      }
      return Done;
    }
  }

  /** The state table's version is that of the last file that took effect. */
  predicate CleanAt(db: Db) {
    db.mark == if db.applied == [] then None else Some(Mark(db.applied[|db.applied| - 1].version, false))
  }

  /** A run that ends with its lock not granted, or with a failed file taken back, leaves the state clean at the last
      file that took effect, so that the next run goes on there; only a run that stops midway can leave it dirty. */
  lemma {:induction false} TakenBackIsClean(db: Db, files: seq<File>, fates: seq<Fate>)
    requires |fates| >= |files| && CleanAt(db)
    ensures var r := Files(db, Current(db.mark), files, fates);
      r.1 == Done || r.1 == NoLock || r.1 == Failed ==> CleanAt(r.0)
    decreases files
  {
    if files != [] {
      var applied := Db(Clean(files[0].version), db.applied + [files[0]]);
      if files[0].version <= Current(db.mark) {
        TakenBackIsClean(db, files[1..], fates[1..]);
      } else if fates[0] == Applies {
        TakenBackIsClean(applied, files[1..], fates[1..]);
      }
    }
  }

  // ----- runs of several instances over append-only file sets -----

  /** Versions increase strictly. */
  ghost predicate Ordered(all: seq<File>) { forall i, j :: 0 <= i < j < |all| ==> all[i].version < all[j].version }

  /** An instance's run over the first n files of the list, or the correction of a dirty state by someone who looked
      whether the marked file was applied. */
  datatype Step = Instance(n: nat, fates: seq<Fate>) | Repair

  /** Exactly the first k files took effect, and the mark says so: clean at the last of them, or dirty at the next one
      or at the last one. */
  ghost predicate At(all: seq<File>, db: Db, k: nat) {
    && k <= |all| && db.applied == all[..k]
    && match db.mark
       case None => k == 0
       case Some(Mark(v, false)) => k > 0 && all[k - 1].version == v
       case Some(Mark(v, true)) => (k < |all| && all[k].version == v) || (k > 0 && all[k - 1].version == v)
  }

  ghost predicate Sound(all: seq<File>, db: Db) { exists k :: At(all, db, k) }

  predicate Enabled(all: seq<File>, t: Step) { t.Instance? ==> t.n <= |all| && |t.fates| >= t.n }

  function Repaired(db: Db): Db {
    if db.mark.Some? && db.mark.value.dirty then
      db.(mark := if db.applied == [] then None else Some(Mark(db.applied[|db.applied| - 1].version, false)))
    else db
  }

  function After(all: seq<File>, db: Db, t: Step): Db
    requires Enabled(all, t)
  {
    match t
    case Instance(n, fates) => Run(db, all[..n], fates).0
    case Repair => Repaired(db)
  }

  lemma {:induction false} FilesKeep(all: seq<File>, db: Db, k: nat, i: nat, n: nat, fates: seq<Fate>)
    requires Ordered(all) && At(all, db, k) && (db.mark.Some? ==> !db.mark.value.dirty)
    requires i <= n <= |all| && |fates| >= n - i && i <= k
    ensures Sound(all, Files(db, Current(db.mark), all[i..n], fates).0)
    ensures n <= k ==> Files(db, Current(db.mark), all[i..n], fates) == (db, Done)
    ensures Files(db, Current(db.mark), all[i..n], fates).1 == Done ==>
      At(all, Files(db, Current(db.mark), all[i..n], fates).0, if n <= k then k else n)
    decreases n - i
  {
    if i < n {
      var files := all[i..n];
      assert files[1..] == all[i + 1..n] && files[0] == all[i];
      if i < k {
        assert all[i].version <= Current(db.mark);
        FilesKeep(all, db, k, i + 1, n, fates[1..]);
      } else {
        assert db.applied + [all[i]] == all[..k + 1];
        assert all[i].version > Current(db.mark);
        if fates[0] == Applies {
          FilesKeep(all, Db(Clean(all[i].version), all[..k + 1]), k + 1, i + 1, n, fates[1..]);
        } else if fates[0] == StopsApplied {
          assert At(all, Files(db, Current(db.mark), files, fates).0, k + 1);
        } else {
          assert At(all, Files(db, Current(db.mark), files, fates).0, k);
        }
      }
    }
  }

  lemma StepKept(all: seq<File>, db: Db, t: Step)
    requires Ordered(all) && Sound(all, db) && Enabled(all, t)
    ensures Sound(all, After(all, db, t))
  {
    var k: nat :| At(all, db, k);
    match t
    case Instance(n, fates) =>
      if db.mark.None? || !db.mark.value.dirty {
        assert all[..n] == all[0..n];
        FilesKeep(all, db, k, 0, n, fates);
      }
    case Repair => assert At(all, Repaired(db), k);
  }

  ghost predicate IsRun(all: seq<File>, dbs: seq<Db>, ts: seq<Step>) {
    && |dbs| == |ts| + 1 && dbs[0] == Db(None, [])
    && forall i :: 0 <= i < |ts| ==> Enabled(all, ts[i]) && dbs[i + 1] == After(all, dbs[i], ts[i])
  }

  lemma {:induction false} RunSound(all: seq<File>, dbs: seq<Db>, ts: seq<Step>, i: nat)
    requires Ordered(all) && IsRun(all, dbs, ts) && i <= |ts|
    ensures Sound(all, dbs[i])
  {
    if i == 0 {
      assert At(all, dbs[0], 0);
    } else {
      RunSound(all, dbs, ts, i - 1);
      StepKept(all, dbs[i - 1], ts[i - 1]);
    }
  }

  /** Whatever instances ran and wherever they stopped, the files that took effect are the first ones of the list, each
      once and in version order; and in a clean state at version v they are exactly the files up to v. */
  lemma ExactlyOnceInOrder(all: seq<File>, dbs: seq<Db>, ts: seq<Step>, i: nat, f: File)
    requires Ordered(all) && IsRun(all, dbs, ts) && i <= |ts|
    ensures dbs[i].applied <= all
    ensures Ordered(dbs[i].applied)
    ensures dbs[i].mark.None? || !dbs[i].mark.value.dirty ==>
      (f in dbs[i].applied <==> f in all && f.version <= Current(dbs[i].mark))
  {
    RunSound(all, dbs, ts, i);
    var k: nat :| At(all, dbs[i], k);
    if f in all {
      var j :| 0 <= j < |all| && all[j] == f;
      assert j < k ==> all[..k][j] == f;
    }
    if f in dbs[i].applied {
      var j :| 0 <= j < |dbs[i].applied| && dbs[i].applied[j] == f;
      assert all[j] == f;
    }
  }

  /** A dirty state is never built upon. */
  lemma DirtyStays(all: seq<File>, dbs: seq<Db>, ts: seq<Step>, i: nat)
    requires IsRun(all, dbs, ts) && i < |ts| && ts[i].Instance?
    requires dbs[i].mark.Some? && dbs[i].mark.value.dirty
    ensures dbs[i + 1] == dbs[i] && Run(dbs[i], all[..ts[i].n], ts[i].fates).1 == WasDirty
  {}

  /** A run to the end applies what was missing up to its own last file, and an older instance changes nothing. */
  lemma RunCompletes(all: seq<File>, dbs: seq<Db>, ts: seq<Step>, i: nat)
    requires Ordered(all) && IsRun(all, dbs, ts) && i < |ts| && ts[i].Instance?
    requires dbs[i].mark.None? || !dbs[i].mark.value.dirty
    ensures ts[i].n <= |dbs[i].applied| ==> dbs[i + 1] == dbs[i]
    ensures Run(dbs[i], all[..ts[i].n], ts[i].fates).1 == Done && ts[i].n > |dbs[i].applied| ==>
      dbs[i + 1].applied == all[..ts[i].n]
  {
    RunSound(all, dbs, ts, i);
    var k: nat :| At(all, dbs[i], k);
    assert all[..ts[i].n] == all[0..ts[i].n];
    FilesKeep(all, dbs[i], k, 0, ts[i].n, ts[i].fates);
  }

  // ----- any file sets -----

  /** A finished run over any ordered set applies, besides what was applied, exactly its files above the version. */
  lemma {:induction false} FilesExactly(db: Db, current: int, files: seq<File>, fates: seq<Fate>, f: File)
    requires |fates| >= |files| && Ordered(files) && Files(db, current, files, fates).1 == Done
    ensures f in Files(db, current, files, fates).0.applied <==>
      f in db.applied || (f in files && f.version > current)
    decreases files
  {
    if files != [] {
      var h := files[0];
      assert forall x :: x in files <==> x == h || x in files[1..] by { assert files == [h] + files[1..]; }
      if h.version <= current {
        FilesExactly(db, current, files[1..], fates[1..], f);
      } else {
        FilesExactly(Db(Clean(h.version), db.applied + [h]), h.version, files[1..], fates[1..], f);
        if f in files[1..] {
          var j :| 0 <= j < |files[1..]| && files[1..][j] == f;
          assert files[j + 1] == f;
        }
      }
    }
  }

  lemma RunExactly(db: Db, files: seq<File>, fates: seq<Fate>, f: File)
    requires |fates| >= |files| && Ordered(files) && Run(db, files, fates).1 == Done
    ensures f in Run(db, files, fates).0.applied <==>
      f in db.applied || (f in files && f.version > Current(db.mark))
  {
    FilesExactly(db, Current(db.mark), files, fates, f);
  }

  /** The version of the last file that took effect. */
  function Level(db: Db): int { if db.applied == [] then -1 else db.applied[|db.applied| - 1].version }

  /** The mark goes with the last file applied: at its version when clean, and not below it when dirty. */
  ghost predicate Tracked(db: Db) {
    && Ordered(db.applied)
    && match db.mark
       case None => db.applied == []
       case Some(Mark(v, dirty)) => if dirty then Level(db) <= v else db.applied != [] && Level(db) == v
  }

  lemma {:induction false} FilesTracked(db: Db, files: seq<File>, fates: seq<Fate>)
    requires |fates| >= |files| && Tracked(db) && (db.mark.Some? ==> !db.mark.value.dirty)
    ensures Tracked(Files(db, Current(db.mark), files, fates).0)
    ensures db.applied <= Files(db, Current(db.mark), files, fates).0.applied
    decreases files
  {
    if files != [] {
      if files[0].version <= Current(db.mark) {
        FilesTracked(db, files[1..], fates[1..]);
      } else if fates[0] == Applies {
        FilesTracked(Db(Clean(files[0].version), db.applied + [files[0]]), files[1..], fates[1..]);
      }
    }
  }

  /** A run over any set of files, or a repair. */
  datatype AnyStep = AnyRun(files: seq<File>, fates: seq<Fate>) | Fix

  ghost predicate AnyRuns(dbs: seq<Db>, ts: seq<AnyStep>) {
    |dbs| == |ts| + 1 && dbs[0] == Db(None, []) && forall i :: 0 <= i < |ts| ==> AnyAt(dbs, ts, i)
  }

  ghost predicate AnyAt(dbs: seq<Db>, ts: seq<AnyStep>, i: nat)
    requires |dbs| == |ts| + 1 && i < |ts|
  {
    match ts[i]
    case AnyRun(files, fates) => |fates| >= |files| && dbs[i + 1] == Run(dbs[i], files, fates).0
    case Fix => dbs[i + 1] == Repaired(dbs[i])
  }

  lemma {:induction false} AnyTracked(dbs: seq<Db>, ts: seq<AnyStep>, i: nat)
    requires AnyRuns(dbs, ts) && i <= |ts|
    ensures Tracked(dbs[i])
  {
    if i > 0 {
      AnyTracked(dbs, ts, i - 1);
      assert AnyAt(dbs, ts, i - 1);
      AnyGrows(dbs, ts, i - 1);
    }
  }

  lemma AnyGrows(dbs: seq<Db>, ts: seq<AnyStep>, i: nat)
    requires AnyRuns(dbs, ts) && i < |ts| && Tracked(dbs[i])
    ensures Tracked(dbs[i + 1]) && dbs[i].applied <= dbs[i + 1].applied
  {
    assert AnyAt(dbs, ts, i);
    var clean := dbs[i].mark.None? || !dbs[i].mark.value.dirty;
    if ts[i].AnyRun? && clean { FilesTracked(dbs[i], ts[i].files, ts[i].fates); }
  }

  lemma {:induction false} AnyPrefix(dbs: seq<Db>, ts: seq<AnyStep>, i: nat, j: nat)
    requires AnyRuns(dbs, ts) && i <= j <= |ts|
    ensures dbs[i].applied <= dbs[j].applied
    decreases j
  {
    if i < j {
      AnyPrefix(dbs, ts, i, j - 1);
      AnyTracked(dbs, ts, j - 1);
      AnyGrows(dbs, ts, j - 1);
    }
  }

  /** The sets must only grow at their end: whatever sets are run, stopped and repaired, a file that is not above the
      last one applied is never applied later. */
  lemma LateFileSkipped(dbs: seq<Db>, ts: seq<AnyStep>, i: nat, j: nat, f: File)
    requires AnyRuns(dbs, ts) && i <= j <= |ts| && f !in dbs[i].applied && f.version <= Level(dbs[i])
    ensures f !in dbs[j].applied
  {
    AnyPrefix(dbs, ts, i, j);
    AnyTracked(dbs, ts, j);
    var k := |dbs[i].applied|;
    assert dbs[j].applied[..k] == dbs[i].applied;
    AboveBefore(dbs[j].applied, k, f);
  }

  lemma AboveBefore(all: seq<File>, k: nat, f: File)
    requires Ordered(all) && 0 < k <= |all|
    ensures f in all ==> f in all[..k] || f.version > all[k - 1].version
  {
    if m :| 0 <= m < |all| && all[m] == f {
      if m < k { assert all[..k][m] == f; }
    }
  }
}
