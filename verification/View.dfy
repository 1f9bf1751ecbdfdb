/** A member's bounded view of the authorization (besdk/authz/view.py): shards with the time of the request that renewed
    them, acceptance of answers, stall detection and lookups. Times are readings of the suspend-aware clock. */
module View {
  import opened Wrappers

  const W_READ := 30.0
  const W_HIGH := 5.0
  const DRIFT := 0.001
  const T_STALL := 2.0
  const INTERVAL := W_HIGH / 2.0

  datatype Segment = Segment(resourceType: string, key: nat)

  datatype Subject = Subject(segments: seq<Segment>, disabled: bool, version: int)

  /** A revision of a security domain; value and epoch are texts, as the member sends them. */
  datatype Revision = Revision(domain: string, value: string, epoch: string, instance: string)

  datatype Shard = Shard(applicability: seq<string>, subjects: map<string, Subject>, digest: string,
                         revisions: seq<Revision>)

  datatype Held = Held(shard: Shard, sentAt: real, stopped: bool, suspended: bool, highAt: Option<real>,
                       sourceStale: bool)

  datatype Status = Unchanged | Changed | Closed | Other

  datatype ShardAnswer = ShardAnswer(name: string, status: Status, readOnly: bool, view: Option<Shard>)

  datatype Answer = Answer(instance: string, gen: int, shards: seq<ShardAnswer>)

  datatype Grant = Grant(segments: seq<Segment>, cutoff: real, version: int, stale: bool)

  /** Reading texts: an integer, and an epoch as (recovery generation, timeline); one that cannot be read raises. */
  datatype Texts = Texts(value: string -> Option<int>, epoch: string -> Option<(int, int)>)

  datatype State = State(shards: map<string, Held>, recovery: Option<int>, instance: string, lastTick: Option<real>,
                         lastSkew: real)

  // ----- revisions -----

  predicate EpochLess(a: (int, int), b: (int, int)) { a.0 < b.0 || (a.0 == b.0 && a.1 < b.1) }

  /** A dictionary keyed by domain: the last revision of a domain counts. */
  function RevisionOf(rs: seq<Revision>, domain: string): Option<Revision> {
    if rs == [] then None
    else if rs[|rs| - 1].domain == domain then Some(rs[|rs| - 1])
    else RevisionOf(rs[..|rs| - 1], domain)
  }

  /** Whether revision r is older than the held one of its domain; None when an epoch cannot be read. */
  function Older(texts: Texts, o: Revision, r: Revision): Option<bool> {
    match (texts.epoch(r.epoch), texts.epoch(o.epoch))
    case (Some(a), Some(b)) =>
      Some(EpochLess(a, b)
           || (r.epoch == o.epoch && texts.value(r.value).Some? && texts.value(o.value).Some?
               && texts.value(r.value).value < texts.value(o.value).value))
    case _ => None
  }

  function GoesBack(texts: Texts, held: seq<Revision>, news: seq<Revision>): Option<bool>
    decreases news
  {
    if news == [] then Some(false)
    else
      match RevisionOf(held, news[0].domain)
      case None => GoesBack(texts, held, news[1..])
      case Some(o) =>
        match Older(texts, o, news[0])
        case None => None
        case Some(true) => Some(true)
        case Some(false) => GoesBack(texts, held, news[1..])
  }

  // ----- acceptance (apply) -----

  /** Only segments that fit the component's definitions take part in anything. */
  function Fitting(fits: Segment -> bool, v: Shard): Shard {
    v.(subjects := map p | p in v.subjects :: v.subjects[p].(segments := Keep(fits, v.subjects[p].segments)))
  }

  function Keep(yes: Segment -> bool, ss: seq<Segment>): (r: seq<Segment>)
    ensures forall x :: x in r <==> x in ss && yes(x)
  {
    if ss == [] then [] else (if yes(ss[0]) then [ss[0]] else []) + Keep(yes, ss[1..])
  }

  predicate SameInstance(v: Shard, instance: string) { forall r :: r in v.revisions ==> r.instance == instance }

  /** Another member instance answered, or the views are of another one. */
  predicate Foreign(s: State, a: Answer) {
    || (s.instance != "" && a.instance != s.instance)
    || exists i :: 0 <= i < |a.shards| && a.shards[i].view.Some? && !SameInstance(a.shards[i].view.value, a.instance)
  }

  predicate Rollback(s: State, a: Answer) { (s.recovery.Some? && a.gen < s.recovery.value) || Foreign(s, a) }

  function Suspended(s: State): State {
    s.(shards := map n | n in s.shards :: s.shards[n].(suspended := true))
  }

  datatype Means = Means(texts: Texts, fits: Segment -> bool)

  /** One shard's answer; None when an epoch in it cannot be read. */
  function ApplyShard(m: Means, shards: map<string, Held>, newer: bool, sent: real, a: ShardAnswer):
        Option<map<string, Held>> {
    var h := if a.name in shards then Some(shards[a.name]) else None;
    if a.status == Unchanged then
      if h.None? || h.value.stopped then Some(shards)
      else
        var renewed := h.value.(sentAt := sent, suspended := false, sourceStale := a.readOnly);
        Some(shards[a.name := if a.readOnly then renewed else renewed.(highAt := Some(sent))])
    else if a.status == Changed && a.view.Some? then
      var view := Fitting(m.fits, a.view.value);
      if h.Some? && h.value.stopped then Some(shards)
      else
        match if h.Some? && !newer then GoesBack(m.texts, h.value.shard.revisions, view.revisions) else Some(false)
        case None => None
        case Some(true) => Some(shards[a.name := h.value.(stopped := true)])
        case Some(false) =>
          if a.readOnly then
            var high := if h.Some? then h.value.highAt else None;
            Some(shards[a.name := Held(view, sent, false, false, high, true)])
          else Some(shards[a.name := Held(view, sent, false, false, Some(sent), false)])
    else if a.status == Closed && h.Some? then Some(shards[a.name := h.value.(sourceStale := true)])
    else Some(shards)
  }

  /** Shard by shard; an unreadable epoch raises there, and what was applied before it stands. */
  function ApplyShards(m: Means, shards: map<string, Held>, newer: bool, sent: real, answers: seq<ShardAnswer>):
      (map<string, Held>, bool)
    decreases answers
  {
    if answers == [] then (shards, true)
    else
      match ApplyShard(m, shards, newer, sent, answers[0])
      case None => (shards, false)
      case Some(next) => ApplyShards(m, next, newer, sent, answers[1..])
  }

  datatype Acceptance = Accepted | Refused | Raised

  predicate Newer(s: State, a: Answer) { s.recovery.None? || a.gen > s.recovery.value }

  /** The acceptance table in order: a rollback of the whole answer, a higher recovery generation, then each shard. */
  function Apply(m: Means, s: State, a: Answer, sent: real): (State, Acceptance) {
    if Rollback(s, a) then (Suspended(s), Refused)
    else
      var r := ApplyShards(m, if Newer(s, a) then map[] else s.shards, Newer(s, a), sent, a.shards);
      (s.(shards := r.0, recovery := Some(a.gen), instance := a.instance), if r.1 then Accepted else Raised)
  }

  // ----- stalls (tick, rest) -----

  function Abs(x: real): real { if x < 0.0 then -x else x }

  predicate Stalled(s: State, now: real, wall: real) {
    s.lastTick.Some? && (now - s.lastTick.value > INTERVAL + T_STALL || Abs(wall - now - s.lastSkew) > T_STALL)
  }

  function Rest(s: State, now: real, wall: real): State { s.(lastTick := Some(now), lastSkew := wall - now) }

  function Tick(s: State, now: real, wall: real): State {
    Rest(if Stalled(s, now, wall) then s.(shards := map[]) else s, now, wall)
  }

  // ----- lookups -----

  function Validity(high: bool): real { (if high then W_HIGH else W_READ) * (1.0 - DRIFT) }

  /** From when a shard's validity counts: for high risk, from the last renewal that was not read-only. */
  function Start(h: Held, high: bool): Option<real> { if high then h.highAt else Some(h.sentAt) }

  predicate Usable(h: Held, resource: string) { !h.stopped && !h.suspended && resource in h.shard.applicability }

  predicate Valid(h: Held, resource: string, high: bool, now: real) {
    Usable(h, resource) && Start(h, high).Some? && now < Start(h, high).value + Validity(high)
  }

  function SubjectOf(v: Shard, principal: string): Subject {
    if principal in v.subjects then v.subjects[principal] else Subject([], false, 0)
  }

  function Mine(v: Shard, resource: string, principal: string): seq<Segment> {
    var subject := SubjectOf(v, principal);
    if subject.disabled then []
    else Keep((x: Segment) => x.resourceType == "" || x.resourceType == resource, subject.segments)
  }

  function GrantOf(h: Held, resource: string, principal: string, high: bool): Grant
    requires Start(h, high).Some?
  {
    Grant(Mine(h.shard, resource, principal), Start(h, high).value + Validity(high),
          SubjectOf(h.shard, principal).version, false)
  }

  /** A shard whose source the member called stale, fully renewed once. */
  predicate StaleUsable(h: Held, resource: string) { h.sourceStale && h.highAt.Some? && Usable(h, resource) }

  function StaleGrantOf(h: Held, resource: string, principal: string, now: real): Grant {
    Grant(Mine(h.shard, resource, principal), now + Validity(false), SubjectOf(h.shard, principal).version, true)
  }

  // ----- the same on the shards' own fields -----

  /** The shard may serve the resource: it is neither stopped nor suspended and applies to it. */
  predicate Serves(h: Held, resource: string) { !h.stopped && !h.suspended && resource in h.shard.applicability }

  /** Renewed less than the validity ago: 30 seconds after the last renewal, for high risk 5 seconds after the last one
      that was not read-only, each less a thousandth. */
  predicate Current(h: Held, high: bool, now: real) {
    if high then h.highAt.Some? && now < h.highAt.value + 4.995 else now < h.sentAt + 29.97
  }

  /** The last view of a source the member called stale: fully renewed once. */
  predicate LastView(h: Held) { h.sourceStale && h.highAt.Some? }

  /** The subject has the segment for the resource: it is known to the shard, its accounts are not disabled, and the
      segment is for the resource's type or for any. */
  predicate Has(v: Shard, principal: string, resource: string, x: Segment) {
    && principal in v.subjects && !v.subjects[principal].disabled && x in v.subjects[principal].segments
    && (x.resourceType == resource || x.resourceType == "")
  }

  /** The grant holds exactly the subject's segments for the resource, and its security version. */
  ghost predicate Tells(v: Shard, principal: string, resource: string, g: Grant) {
    && (forall x :: x in g.segments <==> Has(v, principal, resource, x))
    && g.version == if principal in v.subjects then v.subjects[principal].version else 0
  }

  /** A grant of a current shard: its segments, and a cutoff before which the shard is current. */
  ghost predicate Grants(h: Held, resource: string, principal: string, high: bool, now: real, g: Grant) {
    && Serves(h, resource) && Current(h, high, now) && Tells(h.shard, principal, resource, g)
    && !g.stale && forall t: real :: t < g.cutoff <==> Current(h, high, t)
  }

  /** A grant of a stale source's last view, good for an ordinary read's validity from now. */
  ghost predicate GrantsStale(h: Held, resource: string, principal: string, now: real, g: Grant) {
    && Serves(h, resource) && LastView(h) && Tells(h.shard, principal, resource, g)
    && g.stale && g.cutoff == now + 29.97
  }

  lemma ValidGrants(h: Held, resource: string, principal: string, high: bool, now: real)
    ensures Valid(h, resource, high, now) <==> Serves(h, resource) && Current(h, high, now)
    ensures Valid(h, resource, high, now) ==>
      Grants(h, resource, principal, high, now, GrantOf(h, resource, principal, high))
  {}

  lemma StaleGrants(h: Held, resource: string, principal: string, now: real)
    ensures StaleUsable(h, resource) <==> Serves(h, resource) && LastView(h)
    ensures StaleUsable(h, resource) ==>
      GrantsStale(h, resource, principal, now, StaleGrantOf(h, resource, principal, now))
  {}

  class Holder {
    const means: Means
    var shards: map<string, Held>
    var recovery: Option<int>
    var instance: string
    var lastTick: Option<real>
    var lastSkew: real

    function Model(): State
      reads this
    {
      State(shards, recovery, instance, lastTick, lastSkew)
    }

    constructor (means: Means)
      ensures this.means == means && Model() == State(map[], None, "", None, 0.0)
    {
      this.means := means;
      shards, recovery, instance, lastTick, lastSkew := map[], None, "", None, 0.0;
    }

    /** rest: the wait between verifications starts. */
    method MarkRest(now: real, wall: real)
      modifies `lastTick, `lastSkew
      ensures Model() == Rest(old(Model()), now, wall)
    {
      lastTick, lastSkew := Some(now), wall - now;
    }

    /** tick: a scheduling gap or a clock jump invalidates every shard. */
    method CheckStall(now: real, wall: real)
      modifies `shards, `lastTick, `lastSkew
      ensures Model() == Tick(old(Model()), now, wall)
      ensures var jump := wall - now - old(lastSkew);
        var stalled := old(lastTick).Some? && (now - old(lastTick).value > 4.5 || jump > 2.0 || jump < -2.0);
        shards == if stalled then map[] else old(shards)
    {
      var skew := wall - now;
      if lastTick.Some? {
        var gap, jump := now - lastTick.value, skew - lastSkew;
        if gap > INTERVAL + T_STALL || Abs(jump) > T_STALL { shards := map[]; }
      }
      lastTick, lastSkew := Some(now), skew;
    }

    /** apply. */
    method Accept(a: Answer, sent: real) returns (out: Acceptance)
      modifies `shards, `recovery, `instance
      ensures (Model(), out) == Apply(means, old(Model()), a, sent)
    {
      if Rollback(Model(), a) {
        shards := map n | n in shards :: shards[n].(suspended := true);
        return Refused;
      }
      var newer := recovery.None? || a.gen > recovery.value;
      if newer { shards := map[]; }
      recovery, instance := Some(a.gen), a.instance;
      ghost var before := shards;
      for i := 0 to |a.shards|
        invariant ApplyShards(means, shards, newer, sent, a.shards[i..])
          == ApplyShards(means, before, newer, sent, a.shards)
        invariant recovery == Some(a.gen) && instance == a.instance
          && lastTick == old(lastTick) && lastSkew == old(lastSkew)
      {
        assert a.shards[i..][1..] == a.shards[i + 1..];
        var next := ApplyShard(means, shards, newer, sent, a.shards[i]);
        if next.None? { return Raised; }
        shards := next.value;
      }
      return Accepted;
    }

    /** lookup: a grant of a shard that serves the resource and is current, and a refusal exactly when there is none. */
    method Lookup(resource: string, principal: string, high: bool, now: real) returns (g: Option<Grant>)
      ensures g.None? <==> forall n :: n in shards ==> !(Serves(shards[n], resource) && Current(shards[n], high, now))
      ensures g.Some? ==>
        exists n :: n in shards && Grants(shards[n], resource, principal, high, now, g.value)
          && g.value == GrantOf(shards[n], resource, principal, high)
    {
      var names := shards.Keys;
      while names != {}
        invariant names <= shards.Keys
        invariant forall n :: n in shards && n !in names ==>
          !(Serves(shards[n], resource) && Current(shards[n], high, now))
        decreases |names|
      {
        var n :| n in names;
        ValidGrants(shards[n], resource, principal, high, now);
        if Valid(shards[n], resource, high, now) { return Some(GrantOf(shards[n], resource, principal, high)); }
        names := names - {n};
      }
      return None;
    }

    /** lookup_stale: the last view of a shard whose source is stale, and a refusal exactly when there is none. */
    method LookupStale(resource: string, principal: string, now: real) returns (g: Option<Grant>)
      ensures g.None? <==> forall n :: n in shards ==> !(Serves(shards[n], resource) && LastView(shards[n]))
      ensures g.Some? ==> exists n :: n in shards && GrantsStale(shards[n], resource, principal, now, g.value)
    {
      var names := shards.Keys;
      while names != {}
        invariant names <= shards.Keys
        invariant forall n :: n in shards && n !in names ==> !(Serves(shards[n], resource) && LastView(shards[n]))
        decreases |names|
      {
        var n :| n in names;
        StaleGrants(shards[n], resource, principal, now);
        if StaleUsable(shards[n], resource) { return Some(StaleGrantOf(shards[n], resource, principal, now)); }
        names := names - {n};
      }
      return None;
    }

    /** lookup_for: only a tightening operation that the ordinary lookup refused falls back on a stale view. */
    method LookupFor(resource: string, principal: string, high: bool, tightening: bool, now: real)
      returns (g: Option<Grant>)
      ensures g.None? <==>
        (forall n :: n in shards ==> !(Serves(shards[n], resource) && Current(shards[n], high, now)))
        && (tightening ==> forall n :: n in shards ==> !(Serves(shards[n], resource) && LastView(shards[n])))
      ensures g.Some? && g.value.stale ==>
        tightening && (forall n :: n in shards ==> !(Serves(shards[n], resource) && Current(shards[n], high, now)))
        && exists n :: n in shards && GrantsStale(shards[n], resource, principal, now, g.value)
      ensures g.Some? && !g.value.stale ==>
        exists n :: n in shards && Grants(shards[n], resource, principal, high, now, g.value)
    {
      g := Lookup(resource, principal, high, now);
      if g.None? && tightening { g := LookupStale(resource, principal, now); }
    }
  }
}
