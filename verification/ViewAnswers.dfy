/** What an answer does to a holder, said on the fields of the shards and of the answer (besdk/authz/view.py, apply). */
module ViewAnswers {
  import opened Wrappers
  import opened View
  import opened ViewRuns

  /** An answer is refused exactly when its recovery generation is older than the held one, or it comes from another
      member instance, or a view in it has a revision of another instance. Refused, it suspends every shard; otherwise
      its generation and instance are the holder's. */
  lemma RefusedExactly(m: Means, s: State, a: Answer, sent: real)
    ensures Apply(m, s, a, sent).1 == Refused <==>
      || (s.recovery.Some? && a.gen < s.recovery.value)
      || (s.instance != "" && s.instance != a.instance)
      || exists i, r :: 0 <= i < |a.shards| && a.shards[i].view.Some? && r in a.shards[i].view.value.revisions
                        && r.instance != a.instance
    ensures var u := Apply(m, s, a, sent).0;
      if Apply(m, s, a, sent).1 == Refused
      then u == s.(shards := u.shards) && u.shards.Keys == s.shards.Keys
           && forall n :: n in s.shards ==> u.shards[n] == s.shards[n].(suspended := true)
      else u == s.(shards := u.shards, recovery := Some(a.gen), instance := a.instance)
  {
    if Foreign(s, a) && !(s.instance != "" && s.instance != a.instance) {
      var i :| 0 <= i < |a.shards| && a.shards[i].view.Some? && !SameInstance(a.shards[i].view.value, a.instance);
      var r :| r in a.shards[i].view.value.revisions && r.instance != a.instance;
    }
    if i, r :| 0 <= i < |a.shards| && a.shards[i].view.Some? && r in a.shards[i].view.value.revisions
               && r.instance != a.instance {
      assert !SameInstance(a.shards[i].view.value, a.instance);
    }
  }

  /** The answer speaks of shard n once, at i. */
  predicate Names(answers: seq<ShardAnswer>, n: string, i: nat) {
    i < |answers| && forall j :: 0 <= j < |answers| ==> (answers[j].name == n <==> j == i)
  }

  predicate Silent(answers: seq<ShardAnswer>, n: string) { forall j :: 0 <= j < |answers| ==> answers[j].name != n }

  function At(shards: map<string, Held>, n: string): Option<Held> { if n in shards then Some(shards[n]) else None }

  lemma {:induction false} SilentStays(m: Means, shards: map<string, Held>, newer: bool, sent: real,
      answers: seq<ShardAnswer>, n: string)
    requires Silent(answers, n)
    ensures At(ApplyShards(m, shards, newer, sent, answers).0, n) == At(shards, n)
    decreases answers
  {
    if answers != [] && ApplyShard(m, shards, newer, sent, answers[0]).Some? {
      SilentStays(m, ApplyShard(m, shards, newer, sent, answers[0]).value, newer, sent, answers[1..], n);
    }
  }

  lemma {:induction false} OwnAnswer(m: Means, shards: map<string, Held>, newer: bool, sent: real,
      answers: seq<ShardAnswer>, n: string, i: nat) returns (before: map<string, Held>)
    requires Names(answers, n, i) && ApplyShards(m, shards, newer, sent, answers).1
    ensures At(before, n) == At(shards, n) && ApplyShard(m, before, newer, sent, answers[i]).Some?
    ensures At(ApplyShards(m, shards, newer, sent, answers).0, n)
         == At(ApplyShard(m, before, newer, sent, answers[i]).value, n)
    decreases answers
  {
    var next := ApplyShard(m, shards, newer, sent, answers[0]).value;
    if i == 0 {
      assert Silent(answers[1..], n);
      SilentStays(m, next, newer, sent, answers[1..], n);
      before := shards;
    } else {
      assert Names(answers[1..], n, i - 1);
      before := OwnAnswer(m, next, newer, sent, answers[1..], n, i - 1);
    }
  }

  // ----- the fields -----

  /** A view as it is used: all of it, but of each subject's segments only those that fit the component's resources. */
  ghost predicate UsedAs(m: Means, v: Shard, u: Shard) {
    && u.applicability == v.applicability && u.digest == v.digest && u.revisions == v.revisions
    && u.subjects.Keys == v.subjects.Keys
    && forall p :: p in v.subjects ==>
      && u.subjects[p].disabled == v.subjects[p].disabled && u.subjects[p].version == v.subjects[p].version
      && forall x :: x in u.subjects[p].segments <==> x in v.subjects[p].segments && m.fits(x)
  }

  lemma FittingExactly(m: Means, v: Shard)
    ensures UsedAs(m, v, Fitting(m.fits, v))
  {}

  /** The shard was confirmed: it counts from now, and for high risk too unless the source is only read. */
  predicate Renewed(h: Held, u: Held, sent: real, readOnly: bool) {
    && u.shard == h.shard && u.stopped == h.stopped && !u.suspended && u.sentAt == sent && u.sourceStale == readOnly
    && u.highAt == if readOnly then h.highAt else Some(sent)
  }

  /** The shard was replaced; only-read, it keeps the full renewal of the one it replaces. */
  ghost predicate Replaced(m: Means, h: Option<Held>, v: Shard, u: Held, sent: real, readOnly: bool) {
    && UsedAs(m, v, u.shard) && !u.stopped && !u.suspended && u.sentAt == sent && u.sourceStale == readOnly
    && u.highAt == if !readOnly then Some(sent) else if h.Some? then h.value.highAt else None
  }

  /** What an accepted answer makes of one shard that it names once. A higher generation first voids what was held. An
      unchanged shard is renewed and a changed one replaced, unless it is stopped; under the same generation a view with
      an older revision stops it instead. A closed shard is only marked. */
  lemma AnsweredExactly(m: Means, s: State, a: Answer, sent: real, n: string, i: nat)
    requires Apply(m, s, a, sent).1 == Accepted && Names(a.shards, n, i)
    ensures var newer := s.recovery.None? || s.recovery.value < a.gen;
      var h := if newer then None else At(s.shards, n);
      var u := At(Apply(m, s, a, sent).0.shards, n);
      var x := a.shards[i];
      if x.status == Unchanged && h.Some? && !h.value.stopped then
        u.Some? && Renewed(h.value, u.value, sent, x.readOnly)
      else if x.status == Changed && x.view.Some? && !(h.Some? && h.value.stopped) then
        u.Some? && if h.None? || NoneOlder(m, h.value.shard.revisions, x.view.value.revisions)
                   then Replaced(m, h, x.view.value, u.value, sent, x.readOnly)
                   else u.value == h.value.(stopped := true)
      else if x.status == Closed && h.Some? then u == Some(h.value.(sourceStale := true))
      else u == h
  {
    var newer := Newer(s, a);
    var held: map<string, Held> := if newer then map[] else s.shards;
    var before := OwnAnswer(m, held, newer, sent, a.shards, n, i);
    if a.shards[i].view.Some? {
      FittingExactly(m, a.shards[i].view.value);
      if n in before { GoesBackExactly(m, before[n].shard.revisions, a.shards[i].view.value.revisions); }
    }
  }

  /** A shard that an accepted answer does not name stays as it is, or is void under a higher generation. */
  lemma UnnamedExactly(m: Means, s: State, a: Answer, sent: real, n: string)
    requires Apply(m, s, a, sent).1 == Accepted && Silent(a.shards, n)
    ensures At(Apply(m, s, a, sent).0.shards, n) ==
      if s.recovery.None? || s.recovery.value < a.gen then None else At(s.shards, n)
  {
    var held: map<string, Held> := if Newer(s, a) then map[] else s.shards;
    SilentStays(m, held, Newer(s, a), sent, a.shards, n);
  }

  // ----- from the answer to the grant -----

  /** A full renewal keeps the shard good: until 29.97 seconds after its request was sent, and for high risk 4.995, a
      lookup of what it applies to finds it, unless something else happens to it. */
  lemma RenewalServes(m: Means, s: State, a: Answer, sent: real, n: string, i: nat, resource: string,
      high: bool, now: real)
    requires Apply(m, s, a, sent).1 == Accepted && Names(a.shards, n, i) && !a.shards[i].readOnly
    requires s.recovery == Some(a.gen) && n in s.shards && !s.shards[n].stopped
    requires a.shards[i].status == Unchanged && resource in s.shards[n].shard.applicability
    requires now < sent + if high then 4.995 else 29.97
    ensures var u := Apply(m, s, a, sent).0.shards; n in u && Serves(u[n], resource) && Current(u[n], high, now)
  {
    AnsweredExactly(m, s, a, sent, n, i);
  }
}
