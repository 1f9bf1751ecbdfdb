/** A request's authorization cutoff, from the guard's admission to the commit of its writes (besdk/reqctx.py,
    besdk/guard.py, besdk/authz/subject.py, and the transaction of besdk/db/pool.py). */
module Cutoff {
  import opened View
  import opened ViewRuns

  function Min(a: real, b: real): real { if b < a then b else a }

  const MAX_ATTEMPTS := 3

  /** One run of a transaction's function: it decides records, each with its evidence's cutoff, and then meets a
      conflict, fails, or comes to its end at a reading of the clock. */
  datatype End = Conflict | Failure | Finished(now: real)
  datatype Attempt = Attempt(decisions: seq<real>, end: End)

  datatype Result = Committed(now: real) | Expired | Failed | Conflicted

  /** A grant used: looked up at decided, in shard n of the view after i steps. */
  datatype Evidence = Evidence(i: nat, n: string, resource: string, principal: string, high: bool, decided: real)

  /** The shard was valid for the lookup. */
  predicate Granted(ws: seq<World>, ev: Evidence) {
    && ev.i < |ws| && ev.n in ws[ev.i].view.shards
    && View.Valid(ws[ev.i].view.shards[ev.n], ev.resource, ev.high, ev.decided)
  }

  function CutoffOf(ws: seq<World>, ev: Evidence): real
    requires Granted(ws, ev)
  {
    GrantOf(ws[ev.i].view.shards[ev.n], ev.resource, ev.principal, ev.high).cutoff
  }

  /** The content granted from was confirmed to a request sent less than the validity before now; for high risk a full
      renewal too. */
  ghost predicate Fresh(ws: seq<World>, ev: Evidence, now: real)
    requires Granted(ws, ev)
  {
    var w := ws[ev.i];
    && (exists sent :: Content(ev.n, w.view.shards[ev.n].shard, sent) in w.contents && sent > now - Validity(ev.high))
    && (ev.high ==> exists sent :: (ev.n, sent) in w.full && sent > now - Validity(true))
  }

  /** Evidence is fresh wherever its cutoff lies ahead. */
  lemma CutoffKeepsFresh(m: Means, ws: seq<World>, ts: seq<Step>, ev: Evidence, now: real)
    requires IsRun(m, ws, ts) && Granted(ws, ev) && now < CutoffOf(ws, ev)
    ensures Fresh(ws, ev, now)
  {
    BoundedStaleness(m, ws, ts, ev.i, ev.n, ev.resource, ev.principal, ev.high, ev.decided);
  }

  /** A run of the transaction decided on this cutoff, be it rolled back. */
  ghost predicate DecidedOn(runs: seq<Attempt>, attempts: nat, c: real) {
    exists k :: 0 <= k < attempts && k < |runs| && c in runs[k].decisions
  }

  /** A cutoff used in one of the first j + 1 scopes. */
  ghost predicate UsedUpTo(used: seq<set<real>>, j: nat, c: real) {
    exists i :: 0 <= i <= j && i < |used| && c in used[i]
  }

  lemma UsedStill(before: seq<set<real>>, after: seq<set<real>>, j: nat, k: nat, c: real)
    requires UsedUpTo(before, j, c) && j <= k && j < |before|
    requires forall i :: 0 <= i <= j ==> i < |after| && before[i] <= after[i]
    ensures UsedUpTo(after, k, c)
  {
    var i :| 0 <= i <= j && i < |before| && c in before[i];
    assert c in after[i];
  }

  /** The scopes around the innermost one are as before, and exactly these cutoffs have come to it. */
  ghost predicate Inner(cells: seq<real>, used: seq<set<real>>, now: seq<real>, after: seq<set<real>>,
        more: set<real>) {
    && |now| == |after| == |cells| == |used|
    && (now != [] ==>
        var last := |now| - 1;
        now[..last] == cells[..last] && after[..last] == used[..last] && after[last] == used[last] + more)
  }

  function All(cs: seq<real>): set<real> { set c | c in cs }

  /** The cutoffs that the first n runs decided on. */
  ghost function DecidedIn(runs: seq<Attempt>, n: nat): (cs: set<real>)
    requires n <= |runs|
    ensures forall c :: c in cs <==> DecidedOn(runs, n, c)
  {
    if n == 0 then {} else
      var cs := DecidedIn(runs, n - 1) + All(runs[n - 1].decisions);
      assert forall c :: DecidedOn(runs, n, c) <==> DecidedOn(runs, n - 1, c) || c in runs[n - 1].decisions;
      cs
  }

  /** now lies before every cutoff used. */
  ghost predicate AllAhead(used: seq<set<real>>, now: real) {
    forall i, c :: 0 <= i < |used| && c in used[i] ==> now < c
  }

  class Request {
    /** The cutoff cells of the open scopes, the innermost last. */
    var cells: seq<real>
    /** For each open scope the cutoffs used in it. */
    ghost var used: seq<set<real>>

    /** The innermost cell is the earliest of all cutoffs used in the open scopes. */
    ghost predicate Valid()
      reads this
    {
      && |cells| == |used|
      && (forall i, j, c :: 0 <= i <= j < |cells| && c in used[i] ==> cells[j] <= c)
      && (forall j :: 0 <= j < |cells| ==> UsedUpTo(used, j, cells[j]))
    }

    /** now lies before every cutoff used in an open scope. */
    ghost predicate InTime(now: real)
      reads this
      requires Valid()
    {
      AllAhead(used, now)
    }

    constructor ()
      ensures Valid() && cells == [] && used == []
    {
      cells, used := [], [];
    }

    /** cutoff_scope, entered: it only ever moves earlier. */
    method Enter(at: real)
      requires Valid()
      modifies this
      ensures Valid() && used == old(used) + [{at}] && cells[..|old(cells)|] == old(cells)
    {
      var cell := if cells == [] then at else Min(cells[|cells| - 1], at);
      cells, used := cells + [cell], used + [{at}];
      var last := |cells| - 1;
      forall j | 0 <= j < |cells| ensures UsedUpTo(used, j, cells[j]) {
        if j < last {
          UsedStill(old(used), used, j, j, cells[j]);
        } else if cell == at {
          assert cells[last] in used[last];
        } else {
          UsedStill(old(used), used, last - 1, last, cells[last]);
        }
      }
    }

    /** cutoff_scope, left: the enclosing scope's cutoff is in force again. */
    method Leave()
      requires Valid() && cells != []
      modifies this
      ensures Valid() && cells == old(cells)[..|old(cells)| - 1] && used == old(used)[..|old(used)| - 1]
    {
      cells, used := cells[..|cells| - 1], used[..|used| - 1];
      forall j | 0 <= j < |cells| ensures UsedUpTo(used, j, cells[j]) { UsedStill(old(used), used, j, j, cells[j]); }
    }

    /** tighten_cutoff: outside any scope there is no cutoff to move. */
    method Tighten(at: real)
      requires Valid()
      modifies this
      ensures Valid() && Inner(old(cells), old(used), cells, used, {at})
      ensures old(cells) == [] ==> used == old(used)
      ensures old(cells) != [] ==> used == old(used)[|old(used)| - 1 := old(used)[|old(used)| - 1] + {at}]
    {
      if cells != [] {
        var last := |cells| - 1;
        var cell := Min(cells[last], at);
        cells, used := cells[last := cell], used[last := used[last] + {at}];
        forall j | 0 <= j < |cells| ensures UsedUpTo(used, j, cells[j]) {
          if j == last && cell == at {
            assert cells[j] in used[last];
          } else {
            UsedStill(old(used), used, j, j, cells[j]);
          }
        }
      }
    }

    /** The check just before COMMIT: it passes exactly when now lies strictly before every cutoff used. */
    method Check(now: real) returns (ok: bool)
      requires Valid()
      ensures ok <==> InTime(now)
    {
      if cells == [] { return true; }
      var last := |cells| - 1;
      ok := now < cells[last];
      if !ok {
        assert UsedUpTo(used, last, cells[last]);
      }
    }

    /** UserGuard.admit: the token's expiry on this clock, and the cutoff of the admitting grant. */
    method Admit(boot: real, expiry: real, wall: real, grantCutoff: real)
      requires Valid()
      modifies this
      ensures Valid() && |cells| == |old(cells)| + 1 && used[..|old(used)|] == old(used)
      ensures cells[..|old(cells)|] == old(cells)
      ensures var token := boot + (expiry - wall);
        used[|used| - 1] == {if token <= grantCutoff then token else grantCutoff}
    {
      var at := Min(boot + (expiry - wall), grantCutoff);
      Enter(at);
    }

    /** The records a run decides: each cutoff is used in the innermost scope. */
    method Decide(decisions: seq<real>)
      requires Valid()
      modifies this
      ensures Valid() && Inner(old(cells), old(used), cells, used, All(decisions))
    {
      for k := 0 to |decisions|
        invariant Valid() && Inner(old(cells), old(used), cells, used, All(decisions[..k]))
      {
        assert All(decisions[..k + 1]) == All(decisions[..k]) + {decisions[k]};
        Tighten(decisions[k]);
      }
      assert decisions[..|decisions|] == decisions;
    }

    /** DB._run with its transaction: a conflict runs the whole function again, at most three times in all; a commit
        passed its check strictly before every cutoff used, in runs that were rolled back too. */
    method RunTx(runs: seq<Attempt>) returns (out: Result, attempts: nat)
      requires Valid() && |runs| >= MAX_ATTEMPTS
      modifies this
      ensures 1 <= attempts <= 3 && forall k :: 0 <= k < attempts - 1 ==> runs[k].end == Conflict
      ensures Valid() && Inner(old(cells), old(used), cells, used, DecidedIn(runs, attempts))
      ensures var last := runs[attempts - 1].end;
        match last
        case Conflict => out == Conflicted && attempts == MAX_ATTEMPTS
        case Failure => out == Failed
        case Finished(now) => out == if InTime(now) then Committed(now) else Expired
    {
      attempts := 0;
      while attempts < MAX_ATTEMPTS
        invariant attempts <= MAX_ATTEMPTS && Valid()
        invariant Inner(old(cells), old(used), cells, used, DecidedIn(runs, attempts))
        invariant forall k :: 0 <= k < attempts ==> runs[k].end == Conflict
      {
        var run := runs[attempts];
        Decide(run.decisions);
        attempts := attempts + 1;
        match run.end
        case Conflict =>
        case Failure => return Failed, attempts;
        case Finished(now) =>
          var ok := Check(now);
          return if ok then Committed(now) else Expired, attempts;
      }
      return Conflicted, attempts;
    }

    /** A request under the guard commits its write exactly when its function comes to its end, by the third run,
        before the user's token expires and before the cutoff of every grant used: the admitting one, those decided on
        in any of its runs, and those of the scopes around it. Every grant it used was fresh at the commit's check. */
    method Serve(boot: real, expiry: real, wall: real, grantCutoff: real, runs: seq<Attempt>, ghost m: Means,
        ghost ws: seq<World>, ghost ts: seq<Step>, ghost admitting: Evidence) returns (out: Result, attempts: nat)
      requires Valid() && |runs| >= MAX_ATTEMPTS && IsRun(m, ws, ts)
      requires Granted(ws, admitting) && grantCutoff == CutoffOf(ws, admitting)
      modifies this
      ensures Valid() && cells == old(cells) && used == old(used)
      ensures 1 <= attempts <= 3 && forall k :: 0 <= k < attempts - 1 ==> runs[k].end == Conflict
      ensures attempts < 3 ==> runs[attempts - 1].end != Conflict
      ensures out.Committed? <==>
        && runs[attempts - 1].end.Finished?
        && var now := runs[attempts - 1].end.now;
        && now < boot + (expiry - wall) && now < grantCutoff && AllAhead(old(used), now)
        && forall c | DecidedOn(runs, attempts, c) :: now < c
      ensures out.Committed? ==> out.now == runs[attempts - 1].end.now && Fresh(ws, admitting, out.now)
      ensures out.Committed? ==>
        forall ev | Granted(ws, ev) && DecidedOn(runs, attempts, CutoffOf(ws, ev)) :: Fresh(ws, ev, out.now)
    {
      Admit(boot, expiry, wall, grantCutoff);
      ghost var admitted := used;
      out, attempts := RunTx(runs);
      if runs[attempts - 1].end.Finished? {
        AheadSplits(old(used), admitted, used, DecidedIn(runs, attempts), runs[attempts - 1].end.now);
      }
      if out.Committed? {
        CutoffKeepsFresh(m, ws, ts, admitting, out.now);
        forall ev | Granted(ws, ev) && DecidedOn(runs, attempts, CutoffOf(ws, ev)) ensures Fresh(ws, ev, out.now) {
          CutoffKeepsFresh(m, ws, ts, ev, out.now);
        }
      }
      Leave();
      assert cells == old(cells) && used == old(used);
    }
  }

  /** The cutoffs of a new scope with more of them: those around it, its own first one, and the others. */
  lemma AheadSplits(around: seq<set<real>>, admitted: seq<set<real>>, used: seq<set<real>>, more: set<real>, now: real)
    requires |admitted| == |used| == |around| + 1 && admitted[..|around|] == around && used[..|around|] == around
    requires used[|around|] == admitted[|around|] + more
    ensures AllAhead(used, now) <==>
      AllAhead(around, now) && (forall c :: c in admitted[|around|] ==> now < c) && forall c :: c in more ==> now < c
  {
    forall i | 0 <= i < |around| ensures used[i] == around[i] { assert used[..|around|][i] == around[i]; }
  }
}
