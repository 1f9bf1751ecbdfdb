/** What every run of a view holder keeps: freshness of what it grants, and no way back for what it adopted. */
module ViewRuns {
  import opened Wrappers
  import opened View

  datatype Pending = Pending(sent: real, held: map<string, Shard>)

  /** Content(name, shard, sent): an accepted answer to a request sent then had this content for the shard. */
  datatype Content = Content(name: string, shard: Shard, sent: real)

  /** The holder, its clock, the request under way, and what accepted answers confirmed: the content of shards, and
      (name, sent) of the answers that were not read-only. */
  datatype World = World(view: State, clock: real, pending: Option<Pending>, contents: set<Content>,
                           full: set<(string, real)>)

  datatype Step =
    | SendStep(now: real)
    | AnswerStep(a: Answer)
    | LostStep
    | TickStep(now: real, wall: real)
    | RestStep(now: real, wall: real)

  predicate Enabled(w: World, t: Step) {
    match t
    case SendStep(now) => w.pending.None? && w.clock <= now
    case AnswerStep(_) => w.pending.Some?
    case LostStep => w.pending.Some?
    case TickStep(now, _) => w.clock <= now
    case RestStep(now, _) => w.clock <= now
  }

  function ContentsOf(m: Means, p: Pending, answers: seq<ShardAnswer>): set<Content> {
    (set i | 0 <= i < |answers| && answers[i].status == Unchanged && answers[i].name in p.held ::
      Content(answers[i].name, p.held[answers[i].name], p.sent))
    + (set i | 0 <= i < |answers| && answers[i].status == Changed && answers[i].view.Some? ::
      Content(answers[i].name, Fitting(m.fits, answers[i].view.value), p.sent))
  }

  function FullOf(p: Pending, answers: seq<ShardAnswer>): set<(string, real)> {
    set i | 0 <= i < |answers| && !answers[i].readOnly :: (answers[i].name, p.sent)
  }

  function After(m: Means, w: World, t: Step): World
    requires Enabled(w, t)
  {
    match t
    case SendStep(now) =>
      w.(clock := now, pending := Some(Pending(now, map n | n in w.view.shards :: w.view.shards[n].shard)))
    case AnswerStep(a) =>
      var p := w.pending.value;
      var r := Apply(m, w.view, a, p.sent);
      if r.1 == Refused then w.(view := r.0, pending := None)
      else w.(view := r.0, pending := None, contents := w.contents + ContentsOf(m, p, a.shards),
              full := w.full + FullOf(p, a.shards))
    case LostStep => w.(pending := None)
    case TickStep(now, wall) => w.(clock := now, view := Tick(w.view, now, wall))
    case RestStep(now, wall) => w.(clock := now, view := Rest(w.view, now, wall))
  }

  predicate Next(m: Means, w: World, t: Step, u: World) { Enabled(w, t) && u == After(m, w, t) }

  /** After a start there is no trusted view. */
  predicate Init(w: World) { w == World(State(map[], None, "", None, 0.0), w.clock, None, {}, {}) }

  // ----- freshness -----

  ghost predicate HeldOk(n: string, h: Held, w: World, latest: real) {
    && h.sentAt <= latest && Content(n, h.shard, h.sentAt) in w.contents
    && (h.highAt.Some? ==> h.highAt.value <= h.sentAt && (n, h.highAt.value) in w.full)
  }

  ghost predicate AllOk(shards: map<string, Held>, w: World, latest: real) {
    forall n :: n in shards ==> HeldOk(n, shards[n], w, latest)
  }

  /** A held shard is the one the request under way named, or was adopted from its answer. */
  ghost predicate Named(shards: map<string, Held>, p: Pending, w: World) {
    forall n :: n in shards ==>
      (n in p.held && shards[n].shard == p.held[n]) || Content(n, shards[n].shard, p.sent) in w.contents
  }

  ghost predicate Inv(w: World) {
    && AllOk(w.view.shards, w, w.clock)
    && (w.pending.Some? ==>
        w.pending.value.sent <= w.clock && AllOk(w.view.shards, w, w.pending.value.sent)
        && Named(w.view.shards, w.pending.value, w))
  }

  ghost predicate Confirms(m: Means, p: Pending, w: World, a: ShardAnswer) {
    && (a.status == Unchanged && a.name in p.held ==> Content(a.name, p.held[a.name], p.sent) in w.contents)
    && (a.status == Changed && a.view.Some? ==> Content(a.name, Fitting(m.fits, a.view.value), p.sent) in w.contents)
    && (!a.readOnly ==> (a.name, p.sent) in w.full)
  }

  lemma ShardFresh(m: Means, shards: map<string, Held>, newer: bool, p: Pending, a: ShardAnswer, w: World)
    requires AllOk(shards, w, p.sent) && Named(shards, p, w) && Confirms(m, p, w, a)
    requires ApplyShard(m, shards, newer, p.sent, a).Some?
    ensures AllOk(ApplyShard(m, shards, newer, p.sent, a).value, w, p.sent)
    ensures Named(ApplyShard(m, shards, newer, p.sent, a).value, p, w)
  {
    if a.name in shards { assert HeldOk(a.name, shards[a.name], w, p.sent); }
  }

  lemma {:induction false} ShardsFresh(m: Means, shards: map<string, Held>, newer: bool, p: Pending,
      answers: seq<ShardAnswer>, w: World)
    requires AllOk(shards, w, p.sent) && Named(shards, p, w)
    requires forall i :: 0 <= i < |answers| ==> Confirms(m, p, w, answers[i])
    ensures AllOk(ApplyShards(m, shards, newer, p.sent, answers).0, w, p.sent)
    decreases answers
  {
    if answers != [] && ApplyShard(m, shards, newer, p.sent, answers[0]).Some? {
      ShardFresh(m, shards, newer, p, answers[0], w);
      ShardsFresh(m, ApplyShard(m, shards, newer, p.sent, answers[0]).value, newer, p, answers[1..], w);
    }
  }

  lemma AnswerConfirms(m: Means, p: Pending, answers: seq<ShardAnswer>, w: World, i: nat)
    requires i < |answers| && ContentsOf(m, p, answers) <= w.contents && FullOf(p, answers) <= w.full
    ensures Confirms(m, p, w, answers[i])
  {
    if !answers[i].readOnly { assert (answers[i].name, p.sent) in FullOf(p, answers); }
  }

  lemma AnswerFresh(m: Means, w: World, a: Answer, u: World)
    requires Inv(w) && Next(m, w, AnswerStep(a), u)
    ensures Inv(u)
  {
    var p := w.pending.value;
    if Apply(m, w.view, a, p.sent).1 == Refused {
      forall n | n in u.view.shards ensures HeldOk(n, u.view.shards[n], u, u.clock) {
        assert HeldOk(n, w.view.shards[n], w, w.clock);
      }
    } else {
      var shards := if Newer(w.view, a) then map[] else w.view.shards;
      forall n | n in shards ensures HeldOk(n, shards[n], u, p.sent) { assert HeldOk(n, w.view.shards[n], w, p.sent); }
      forall i | 0 <= i < |a.shards| ensures Confirms(m, p, u, a.shards[i]) { AnswerConfirms(m, p, a.shards, u, i); }
      ShardsFresh(m, shards, Newer(w.view, a), p, a.shards, u);
      forall n | n in u.view.shards ensures HeldOk(n, u.view.shards[n], u, u.clock) {
        assert HeldOk(n, u.view.shards[n], u, p.sent);
      }
    }
  }

  lemma OkKept(w: World, u: World, l: real, latest: real)
    requires AllOk(w.view.shards, w, l) && l <= latest && u.contents == w.contents && u.full == w.full
    requires forall n :: n in u.view.shards ==> n in w.view.shards && u.view.shards[n] == w.view.shards[n]
    ensures AllOk(u.view.shards, u, latest)
  {
    forall n | n in u.view.shards ensures HeldOk(n, u.view.shards[n], u, latest)
    {
      assert HeldOk(n, w.view.shards[n], w, l);
    }
  }

  lemma QuietFresh(m: Means, w: World, t: Step, u: World)
    requires Inv(w) && Next(m, w, t, u) && !t.AnswerStep?
    ensures Inv(u)
  {
    OkKept(w, u, w.clock, u.clock);
    if w.pending.Some? { OkKept(w, u, w.pending.value.sent, w.pending.value.sent); }
  }

  lemma InvKept(m: Means, w: World, t: Step, u: World)
    requires Inv(w) && Next(m, w, t, u)
    ensures Inv(u)
  {
    if t.AnswerStep? { AnswerFresh(m, w, t.a, u); } else { QuietFresh(m, w, t, u); }
  }

  // ----- runs -----

  ghost predicate IsRun(m: Means, ws: seq<World>, ts: seq<Step>) {
    |ws| == |ts| + 1 && Init(ws[0]) && forall i :: 0 <= i < |ts| ==> StepAt(m, ws, ts, i)
  }

  ghost predicate StepAt(m: Means, ws: seq<World>, ts: seq<Step>, i: nat)
    requires |ws| == |ts| + 1 && i < |ts|
  {
    Next(m, ws[i], ts[i], ws[i + 1])
  }

  lemma {:induction false} RunInv(m: Means, ws: seq<World>, ts: seq<Step>, i: nat)
    requires IsRun(m, ws, ts) && i <= |ts|
    ensures Inv(ws[i])
  {
    if i > 0 {
      RunInv(m, ws, ts, i - 1);
      assert StepAt(m, ws, ts, i - 1);
      InvKept(m, ws[i - 1], ts[i - 1], ws[i]);
    }
  }

  /** Bounded staleness: a grant that is not stale rests on shard content that an accepted answer confirmed to a request
      sent less than the validity ago; for high risk also an answer for that shard that was not read-only was to a
      request sent less than the high-risk validity ago. The grant's cutoff lies ahead, and no further than that. */
  lemma BoundedStaleness(m: Means, ws: seq<World>, ts: seq<Step>, i: nat, n: string, resource: string,
      principal: string,
      high: bool, now: real)
    requires IsRun(m, ws, ts) && i <= |ts|
    requires n in ws[i].view.shards && Valid(ws[i].view.shards[n], resource, high, now)
    ensures var h := ws[i].view.shards[n]; var g := GrantOf(h, resource, principal, high);
      && (exists sent :: Content(n, h.shard, sent) in ws[i].contents && sent > now - Validity(high)
                         && g.cutoff <= sent + Validity(high))
      && (high ==>
            exists sent :: (n, sent) in ws[i].full && sent > now - Validity(true) && g.cutoff == sent + Validity(true))
      && now < g.cutoff
  {
    RunInv(m, ws, ts, i);
    assert HeldOk(n, ws[i].view.shards[n], ws[i], ws[i].clock);
    assert Content(n, ws[i].view.shards[n].shard, ws[i].view.shards[n].sentAt) in ws[i].contents;
    assert high ==> (n, ws[i].view.shards[n].highAt.value) in ws[i].full;
  }

  // ----- generations and instances -----

  lemma StepForward(m: Means, w: World, t: Step, u: World)
    requires Next(m, w, t, u)
    ensures w.view.recovery.Some? ==> u.view.recovery.Some? && w.view.recovery.value <= u.view.recovery.value
    ensures w.view.instance != "" ==> u.view.instance == w.view.instance
  {}

  /** The recovery generation never decreases and the member instance, once there, never changes. */
  lemma {:induction false} NeverBack(m: Means, ws: seq<World>, ts: seq<Step>, i: nat, j: nat)
    requires IsRun(m, ws, ts) && i <= j <= |ts|
    ensures ws[i].view.recovery.Some? ==>
      ws[j].view.recovery.Some? && ws[i].view.recovery.value <= ws[j].view.recovery.value
    ensures ws[i].view.instance != "" ==> ws[j].view.instance == ws[i].view.instance
    decreases j
  {
    if i < j {
      NeverBack(m, ws, ts, i, j - 1);
      assert StepAt(m, ws, ts, j - 1);
      StepForward(m, ws[j - 1], ts[j - 1], ws[j]);
    }
  }

  /** A refused answer changes nothing but suspensions, and a suspended shard grants nothing at all. */
  lemma RefusedOnlySuspends(m: Means, w: World, a: Answer, u: World, n: string, resource: string, high: bool, now: real)
    requires Next(m, w, AnswerStep(a), u) && Rollback(w.view, a)
    ensures u.contents == w.contents && u.full == w.full && u.view.(shards := w.view.shards) == w.view
    ensures u.view.shards.Keys == w.view.shards.Keys
    ensures n in u.view.shards ==>
      && u.view.shards[n].(suspended := w.view.shards[n].suspended) == w.view.shards[n]
      && !Valid(u.view.shards[n], resource, high, now) && !StaleUsable(u.view.shards[n], resource)
  {}

  // ----- no way back -----

  /** Epochs in one spelling: two texts of the same epoch are the same text. */
  ghost predicate Spelling(m: Means, canonical: string -> bool) {
    && (forall e: string :: canonical(e) ==> m.texts.epoch(e).Some?)
    && (forall e: string, f: string :: canonical(e) && canonical(f) && m.texts.epoch(e) == m.texts.epoch(f) ==> e == f)
  }

  predicate Plain(m: Means, canonical: string -> bool, r: Option<Revision>) {
    r.Some? && canonical(r.value.epoch) && m.texts.value(r.value.value).Some?
  }

  /** r has an earlier epoch than o, or the same epoch and a lower value. */
  predicate Lower(m: Means, o: Revision, r: Revision) {
    match (m.texts.epoch(o.epoch), m.texts.epoch(r.epoch))
    case (Some(e), Some(f)) =>
      || f.0 < e.0 || (f.0 == e.0 && f.1 < e.1)
      || (e == f && m.texts.value(o.value).Some? && m.texts.value(r.value).Some?
          && m.texts.value(r.value).value < m.texts.value(o.value).value)
    case _ => false
  }

  /** No new revision is older than the held one of its domain, and all those that are compared can be read. */
  ghost predicate NoneOlder(m: Means, held: seq<Revision>, news: seq<Revision>) {
    forall r :: r in news && RevisionOf(held, r.domain).Some? ==>
      Older(m.texts, RevisionOf(held, r.domain).value, r) == Some(false)
  }

  lemma {:induction false} GoesBackExactly(m: Means, held: seq<Revision>, news: seq<Revision>)
    ensures GoesBack(m.texts, held, news) == Some(false) <==> NoneOlder(m, held, news)
    decreases news
  {
    if news != [] {
      GoesBackExactly(m, held, news[1..]);
      assert news == [news[0]] + news[1..];
    }
  }

  lemma {:induction false} RevisionIn(rs: seq<Revision>, d: string)
    ensures RevisionOf(rs, d).Some? ==> RevisionOf(rs, d).value in rs && RevisionOf(rs, d).value.domain == d
  {
    if rs != [] { RevisionIn(rs[..|rs| - 1], d); }
  }

  /** A lower revision passes the comparison exactly when it spells the same epoch in another text. */
  lemma SlipsExactly(m: Means, o: Revision, r: Revision)
    ensures Lower(m, o, r) ==>
      (Older(m.texts, o, r) == Some(false) <==> m.texts.epoch(o.epoch) == m.texts.epoch(r.epoch) && o.epoch != r.epoch)
    ensures !Lower(m, o, r) ==> Older(m.texts, o, r) != Some(true)
    ensures Older(m.texts, o, r).None? <==> m.texts.epoch(o.epoch).None? || m.texts.epoch(r.epoch).None?
  {}

  function Alone(s: State, n: string, v: Shard): Answer
    requires s.recovery.Some?
  {
    Answer(s.instance, s.recovery.value, [ShardAnswer(n, Changed, false, Some(v))])
  }

  lemma AloneApplies(m: Means, s: State, n: string, v: Shard, sent: real)
    requires s.recovery.Some? && SameInstance(v, s.instance)
    ensures var r := ApplyShard(m, s.shards, false, sent, Alone(s, n, v).shards[0]);
      Apply(m, s, Alone(s, n, v), sent)
      == (s.(shards := if r.Some? then r.value else s.shards), if r.Some? then Accepted else Raised)
  {
    var a := Alone(s, n, v);
    assert !Rollback(s, a) && !Newer(s, a);
    assert a.shards[1..] == [];
    var r := ApplyShard(m, s.shards, false, sent, a.shards[0]);
    if r.Some? { assert ApplyShards(m, r.value, false, sent, a.shards[1..]) == (r.value, true); }
    assert ApplyShards(m, s.shards, false, sent, a.shards) == (if r.Some? then r.value else s.shards, r.Some?);
    assert s.(recovery := Some(a.gen), instance := a.instance) == s;
  }

  /** Under one generation an unstopped shard is replaced exactly when no revision is older than the one held now;
      what was adopted before the shard held now plays no part. A shard that is not held is adopted as it comes. */
  lemma AdoptedExactly(m: Means, s: State, n: string, v: Shard, sent: real)
    requires s.recovery.Some? && SameInstance(v, s.instance) && (n in s.shards ==> !s.shards[n].stopped)
    ensures var r := Apply(m, s, Alone(s, n, v), sent);
      var adopted := s.(shards := s.shards[n := Held(Fitting(m.fits, v), sent, false, false, Some(sent), false)]);
      && (n !in s.shards || NoneOlder(m, s.shards[n].shard.revisions, v.revisions) <==>
          r.1 == Accepted && n in r.0.shards && !r.0.shards[n].stopped)
      && (n !in s.shards || NoneOlder(m, s.shards[n].shard.revisions, v.revisions) ==> r == (adopted, Accepted))
  {
    AloneApplies(m, s, n, v, sent);
    if n in s.shards { GoesBackExactly(m, s.shards[n].shard.revisions, v.revisions); }
  }

  /** Only the revisions held now are compared: after three accepted answers of one generation, the second without the
      domain, the shard holds a revision older than the one it held first. */
  lemma DomainForgotten(m: Means, s: State, n: string, v: Shard, o: Revision, r: Revision, sents: (real, real, real))
    requires s.recovery.Some? && n !in s.shards && o.instance == r.instance == s.instance
    requires o.domain == r.domain && Older(m.texts, o, r) == Some(true)
    ensures
      var s1 := Apply(m, s, Alone(s, n, v.(revisions := [o])), sents.0);
      var s2 := Apply(m, s1.0, Alone(s, n, v.(revisions := [])), sents.1);
      var s3 := Apply(m, s2.0, Alone(s, n, v.(revisions := [r])), sents.2);
      && s1.1 == s2.1 == s3.1 == Accepted && s3.0.recovery == s.recovery
      && n in s1.0.shards && s1.0.shards[n].shard.revisions == [o]
      && n in s3.0.shards && s3.0.shards[n].shard.revisions == [r] && !s3.0.shards[n].stopped
      && s3.0.shards[n].sentAt == sents.2
  {
    AdoptedExactly(m, s, n, v.(revisions := [o]), sents.0);
    var s1 := Apply(m, s, Alone(s, n, v.(revisions := [o])), sents.0).0;
    AdoptedExactly(m, s1, n, v.(revisions := []), sents.1);
    var s2 := Apply(m, s1, Alone(s, n, v.(revisions := [])), sents.1).0;
    assert RevisionOf([], r.domain) == None;
    AdoptedExactly(m, s2, n, v.(revisions := [r]), sents.2);
  }

  predicate Before(m: Means, o: Revision, r: Revision) {
    match (m.texts.epoch(o.epoch), m.texts.epoch(r.epoch), m.texts.value(o.value), m.texts.value(r.value))
    case (Some(e), Some(f), Some(a), Some(b)) => e.0 < f.0 || (e.0 == f.0 && e.1 < f.1) || (e == f && a <= b)
    case _ => false
  }

  /** The domain's revision, plain in the old shard, is plain in the new one and at least the old one. */
  ghost predicate Forward(m: Means, canonical: string -> bool, d: string, was: Shard, now: Shard) {
    Plain(m, canonical, RevisionOf(was.revisions, d)) ==>
      && Plain(m, canonical, RevisionOf(now.revisions, d))
      && Before(m, RevisionOf(was.revisions, d).value, RevisionOf(now.revisions, d).value)
  }

  /** A shard stays, and stays as it is once stopped. */
  predicate Stays(n: string, shards: map<string, Held>, next: map<string, Held>) {
    n in shards ==> n in next && (shards[n].stopped ==> next[n].stopped && next[n].shard == shards[n].shard)
  }

  ghost predicate Onward(m: Means, canonical: string -> bool, n: string, d: string, shards: map<string, Held>,
      next: map<string, Held>) {
    Stays(n, shards, next) && (n in shards ==> Forward(m, canonical, d, shards[n].shard, next[n].shard))
  }

  /** A view of the shard has the domain, with a readable value and the epoch's one spelling. */
  predicate Keeps(m: Means, canonical: string -> bool, n: string, d: string, a: ShardAnswer) {
    a.name == n && a.view.Some? ==> Plain(m, canonical, RevisionOf(a.view.value.revisions, d))
  }

  lemma {:induction false} ShardsStay(m: Means, shards: map<string, Held>, sent: real, answers: seq<ShardAnswer>,
      n: string)
    ensures Stays(n, shards, ApplyShards(m, shards, false, sent, answers).0)
    decreases answers
  {
    if answers != [] && ApplyShard(m, shards, false, sent, answers[0]).Some? {
      ShardsStay(m, ApplyShard(m, shards, false, sent, answers[0]).value, sent, answers[1..], n);
    }
  }

  lemma NotOlderIsForward(m: Means, canonical: string -> bool, o: Revision, r: Revision)
    requires Spelling(m, canonical) && Older(m.texts, o, r) == Some(false)
    requires Plain(m, canonical, Some(o)) && Plain(m, canonical, Some(r))
    ensures Before(m, o, r)
  {}

  lemma AdoptedForward(m: Means, canonical: string -> bool, d: string, olds: seq<Revision>, news: seq<Revision>)
    requires Spelling(m, canonical) && GoesBack(m.texts, olds, news) == Some(false)
    requires Plain(m, canonical, RevisionOf(olds, d)) && Plain(m, canonical, RevisionOf(news, d))
    ensures Before(m, RevisionOf(olds, d).value, RevisionOf(news, d).value)
  {
    GoesBackExactly(m, olds, news);
    RevisionIn(news, d);
    var r := RevisionOf(news, d).value;
    assert r in news && r.domain == d;
    NotOlderIsForward(m, canonical, RevisionOf(olds, d).value, r);
  }

  lemma ShardForward(m: Means, canonical: string -> bool, shards: map<string, Held>, sent: real,
      a: ShardAnswer, n: string,
      d: string)
    requires Spelling(m, canonical) && Keeps(m, canonical, n, d, a) && n in shards
    requires ApplyShard(m, shards, false, sent, a).Some?
    ensures n in ApplyShard(m, shards, false, sent, a).value
    ensures Forward(m, canonical, d, shards[n].shard, ApplyShard(m, shards, false, sent, a).value[n].shard)
  {
    var olds := shards[n].shard.revisions;
    if n == a.name && a.view.Some? && Plain(m, canonical, RevisionOf(olds, d)) {
      var news := a.view.value.revisions;
      if GoesBack(m.texts, olds, news) == Some(false) { AdoptedForward(m, canonical, d, olds, news); }
    }
  }

  lemma {:induction false} ShardsForward(m: Means, canonical: string -> bool, shards: map<string, Held>, sent: real,
      answers: seq<ShardAnswer>, n: string, d: string)
    requires Spelling(m, canonical) && forall i :: 0 <= i < |answers| ==> Keeps(m, canonical, n, d, answers[i])
    ensures Onward(m, canonical, n, d, shards, ApplyShards(m, shards, false, sent, answers).0)
    decreases answers
  {
    ShardsStay(m, shards, sent, answers, n);
    if answers != [] && ApplyShard(m, shards, false, sent, answers[0]).Some? && n in shards {
      ShardForward(m, canonical, shards, sent, answers[0], n, d);
      ShardsForward(m, canonical, ApplyShard(m, shards, false, sent, answers[0]).value, sent, answers[1..], n, d);
    }
  }

  /** No stall is detected. */
  predicate Calm(w: World, t: Step) { t.TickStep? ==> !Stalled(w.view, t.now, t.wall) }

  ghost predicate KeptBy(m: Means, canonical: string -> bool, n: string, d: string, t: Step) {
    t.AnswerStep? ==> forall i :: 0 <= i < |t.a.shards| ==> Keeps(m, canonical, n, d, t.a.shards[i])
  }

  lemma StepStays(m: Means, w: World, t: Step, u: World, n: string)
    requires Next(m, w, t, u) && Calm(w, t) && w.view.recovery.Some? && w.view.recovery == u.view.recovery
    ensures Stays(n, w.view.shards, u.view.shards)
  {
    if t.AnswerStep? && !Rollback(w.view, t.a) { ShardsStay(m, w.view.shards, w.pending.value.sent, t.a.shards, n); }
  }

  lemma StepOnward(m: Means, canonical: string -> bool, w: World, t: Step, u: World, n: string, d: string)
    requires Spelling(m, canonical) && Next(m, w, t, u) && Calm(w, t) && KeptBy(m, canonical, n, d, t)
    requires w.view.recovery.Some? && w.view.recovery == u.view.recovery
    ensures Onward(m, canonical, n, d, w.view.shards, u.view.shards)
  {
    StepStays(m, w, t, u, n);
    if t.AnswerStep? && !Rollback(w.view, t.a) {
      ShardsForward(m, canonical, w.view.shards, w.pending.value.sent, t.a.shards, n, d);
    }
  }

  /** Under one recovery generation, and without a stall, a held shard stays, and a stopped one grants nothing. */
  lemma {:induction false} StoppedStays(m: Means, ws: seq<World>, ts: seq<Step>, i: nat, j: nat, n: string,
      resource: string,
      high: bool, now: real)
    requires IsRun(m, ws, ts) && i <= j <= |ts| && forall k :: i <= k < j ==> Calm(ws[k], ts[k])
    requires ws[i].view.recovery.Some? && ws[i].view.recovery == ws[j].view.recovery && n in ws[i].view.shards
    ensures Stays(n, ws[i].view.shards, ws[j].view.shards)
    ensures ws[i].view.shards[n].stopped ==>
      !Valid(ws[j].view.shards[n], resource, high, now) && !StaleUsable(ws[j].view.shards[n], resource)
    decreases j
  {
    if i < j {
      NeverBack(m, ws, ts, i, j - 1);
      NeverBack(m, ws, ts, j - 1, j);
      StoppedStays(m, ws, ts, i, j - 1, n, resource, high, now);
      assert StepAt(m, ws, ts, j - 1);
      StepStays(m, ws[j - 1], ts[j - 1], ws[j], n);
    }
  }

  /** Under one recovery generation, and without a stall, a domain that the views of a shard keep, in plain texts, never
      goes back in that shard. */
  lemma {:induction false} NoWayBack(m: Means, canonical: string -> bool, ws: seq<World>, ts: seq<Step>, i: nat, j: nat,
      n: string, d: string)
    requires Spelling(m, canonical) && IsRun(m, ws, ts) && i <= j <= |ts|
    requires forall k :: i <= k < j ==> Calm(ws[k], ts[k]) && KeptBy(m, canonical, n, d, ts[k])
    requires ws[i].view.recovery.Some? && ws[i].view.recovery == ws[j].view.recovery
    requires n in ws[i].view.shards && Plain(m, canonical, RevisionOf(ws[i].view.shards[n].shard.revisions, d))
    ensures n in ws[j].view.shards
    ensures Forward(m, canonical, d, ws[i].view.shards[n].shard, ws[j].view.shards[n].shard)
    decreases j
  {
    if i < j {
      NeverBack(m, ws, ts, i, j - 1);
      NeverBack(m, ws, ts, j - 1, j);
      NoWayBack(m, canonical, ws, ts, i, j - 1, n, d);
      assert StepAt(m, ws, ts, j - 1);
      StepOnward(m, canonical, ws[j - 1], ts[j - 1], ws[j], n, d);
    }
  }

  /** A stall forgets all shards, the stopped ones too: after it any view of the same generation and instance is
      adopted, however old its revisions. */
  lemma StallForgets(m: Means, w: World, now: real, wall: real, sent: real, n: string, v: Shard)
    requires w.pending.None? && w.clock <= now <= sent && Stalled(w.view, now, wall)
    requires w.view.recovery.Some? && SameInstance(v, w.view.instance)
    ensures var a := Answer(w.view.instance, w.view.recovery.value, [ShardAnswer(n, Changed, false, Some(v))]);
      var u := After(m, After(m, After(m, w, TickStep(now, wall)), SendStep(sent)), AnswerStep(a));
      u.view.shards == map[n := Held(Fitting(m.fits, v), sent, false, false, Some(sent), false)]
      && u.view.recovery == w.view.recovery
  {
    var a := Answer(w.view.instance, w.view.recovery.value, [ShardAnswer(n, Changed, false, Some(v))]);
    var w1 := After(m, w, TickStep(now, wall));
    var w2 := After(m, w1, SendStep(sent));
    assert a.shards[1..] == [];
    assert !Rollback(w2.view, a);
    var held: map<string, Held> := map[];
    assert ApplyShards(m, held, false, sent, a.shards)
        == ApplyShards(m, map[n := Held(Fitting(m.fits, v), sent, false, false, Some(sent), false)], false,
                       sent, a.shards[1..]);
  }
}
