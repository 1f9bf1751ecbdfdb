/** What holds in every run of a durable subscription of the PostgreSQL queue. */
module QueueSafety {
  import opened Wrappers
  import opened Queue

  ghost predicate IsRun(d: Durable, ss: seq<State>, ts: seq<Step>) {
    && |ss| == |ts| + 1 && Init(ss[0])
    && forall i :: 0 <= i < |ts| ==> StepAt(d, ss, ts, i)
  }

  ghost predicate StepAt(d: Durable, ss: seq<State>, ts: seq<Step>, i: nat)
    requires |ss| == |ts| + 1 && i < |ts|
  {
    Next(d, ss[i], ts[i], ss[i + 1])
  }

  ghost predicate Reached(d: Durable, s: State) {
    exists ss, ts :: IsRun(d, ss, ts) && ss[|ts|] == s
  }

  lemma {:induction false} RunInv(d: Durable, ss: seq<State>, ts: seq<Step>, i: nat)
    requires d.maxDeliver > 0 && IsRun(d, ss, ts) && i <= |ts|
    ensures Inv(d, ss[i])
  {
    if i == 0 {
      InitInv(d, ss[0]);
    } else {
      RunInv(d, ss, ts, i - 1);
      assert StepAt(d, ss, ts, i - 1);
      InvKept(d, ss[i - 1], ts[i - 1], ss[i]);
    }
  }

  lemma ReachedInv(d: Durable, s: State)
    requires d.maxDeliver > 0 && Reached(d, s)
    ensures Inv(d, s)
  {
    var ss, ts :| IsRun(d, ss, ts) && ss[|ts|] == s;
    RunInv(d, ss, ts, |ts|);
  }

  lemma ReachedNext(d: Durable, s: State, t: Step, u: State)
    requires Reached(d, s) && Next(d, s, t, u)
    ensures Reached(d, u)
  {
    var ss, ts :| IsRun(d, ss, ts) && ss[|ts|] == s;
    var ss2, ts2 := ss + [u], ts + [t];
    forall i | 0 <= i < |ts2| ensures StepAt(d, ss2, ts2, i) {
      assert i < |ts| ==> StepAt(d, ss, ts, i);
    }
    assert IsRun(d, ss2, ts2) && ss2[|ts2|] == u;
  }

  // ----- no skipped message -----

  /** A message committed between two states was written by a transaction that was open, or not yet begun, before. */
  ghost predicate Grows(s: State, u: State) {
    && s.nextXid <= u.nextXid
    && (forall x :: x in u.open ==> x in s.open || s.nextXid <= x)
    && (forall q :: q in u.h.ever ==>
          (q in s.h.ever && u.h.ever[q] == s.h.ever[q]) || u.h.ever[q].xid in s.open || s.nextXid <= u.h.ever[q].xid)
    && (forall q :: q in s.h.ever ==> q in u.h.ever && u.h.ever[q] == s.h.ever[q])
  }

  lemma NextGrows(d: Durable, s: State, t: Step, u: State)
    requires Messages(s) && Next(d, s, t, u)
    ensures Grows(s, u)
  {}

  lemma {:induction false} RunGrows(d: Durable, ss: seq<State>, ts: seq<Step>, i: nat, j: nat)
    requires d.maxDeliver > 0 && IsRun(d, ss, ts) && i <= j <= |ts|
    ensures Grows(ss[i], ss[j])
    decreases j
  {
    if i < j {
      RunGrows(d, ss, ts, i, j - 1);
      RunInv(d, ss, ts, j - 1);
      assert StepAt(d, ss, ts, j - 1);
      NextGrows(d, ss[j - 1], ts[j - 1], ss[j]);
      GrowsTwice(ss[i], ss[j - 1], ss[j]);
    }
  }

  lemma GrowsTwice(s: State, u: State, v: State)
    requires Grows(s, u) && Grows(u, v)
    ensures Grows(s, v)
  {}

  /** No message is skipped: whatever is visible at any later time of a run, and lies at or below the read position of
      now, has been considered by now (or the retention took it unread); a considered message was queued exactly once
      when it matches, and never when it does not. */
  lemma NothingSkipped(d: Durable, ss: seq<State>, ts: seq<Step>, i: nat, j: nat, q: nat)
    requires d.maxDeliver > 0 && IsRun(d, ss, ts) && i <= j <= |ts|
    requires q in ss[j].h.ever && !Before(ss[i].pos, PlaceOf(q, ss[j].h.ever[q]))
    ensures q in ss[i].h.considered || q in ss[i].h.purged
    ensures q in ss[i].h.considered ==> Count(ss[i].h.queued, q) == if d.matches(ss[j].h.ever[q].subject) then 1 else 0
  {
    RunInv(d, ss, ts, i);
    RunGrows(d, ss, ts, i, j);
  }

  // ----- the delivery bound and the fencing of tokens -----

  /** No message is claimed more often than the durable allows, although a ready delivery is claimed without looking at
      its attempts. */
  lemma DeliveryBound(d: Durable, s: State, q: nat)
    requires d.maxDeliver > 0 && Reached(d, s)
    ensures Count(s.h.claims, q) <= d.maxDeliver
  {
    ReachedInv(d, s);
  }

  /** A delivery in flight has one current token, the last one issued for it. */
  lemma OneToken(d: Durable, s: State, a: nat, b: nat)
    requires d.maxDeliver > 0 && Reached(d, s)
    requires Current(s, a) && Current(s, b) && s.workers[a].num == s.workers[b].num
    ensures a == b && s.workers[a].attempt == Count(s.h.claims, s.workers[a].num)
  {
    ReachedInv(d, s);
    assert LeaseOk(d, s, s.workers[a].num);
  }

  lemma StaleClaimed(s: State, q: nat, token: nat, lease: int, stale: nat)
    requires q in s.rows && token !in s.workers && stale in s.workers && !Current(s, stale)
    ensures var u := Claim(s, q, token, lease);
      stale in u.workers && u.workers[stale] == s.workers[stale] && !Current(u, stale)
  {}

  /** Only a claim puts a delivery in flight. */
  lemma InFlightBefore(d: Durable, s: State, t: Step, u: State, q: nat)
    requires Next(d, s, t, u) && !t.ClaimStep? && q in u.rows && u.rows[q].inFlight
    ensures q in s.rows && s.rows[q].inFlight && s.rows[q].token == u.rows[q].token
  {}

  lemma StaleNext(d: Durable, s: State, t: Step, u: State, token: nat)
    requires Next(d, s, t, u) && token in s.workers && !Current(s, token)
    ensures token in u.workers && u.workers[token] == s.workers[token] && !Current(u, token)
  {
    match t
    case ClaimStep(q, _, _, latest, lease) => StaleClaimed(s, q, latest, lease, token);
    case _ =>
      WorkersKept(d, s, t, u);
      var q := s.workers[token].num;
      if q in u.rows && u.rows[q].inFlight { InFlightBefore(d, s, t, u, q); }
  }

  lemma WorkersKept(d: Durable, s: State, t: Step, u: State)
    requires Next(d, s, t, u) && !t.ClaimStep?
    ensures u.workers == s.workers
  {}

  /** Once replaced or ended, a token stays so, and nothing done under it changes anything. */
  lemma StaleForever(d: Durable, ss: seq<State>, ts: seq<Step>, i: nat, j: nat, token: nat)
    requires d.maxDeliver > 0 && IsRun(d, ss, ts) && i <= j <= |ts|
    requires token in ss[i].workers && !Current(ss[i], token)
    ensures token in ss[j].workers
    ensures forall out, at :: Settle(d, ss[j], token, out, at) == ss[j]
    ensures forall lease :: InProgress(ss[j], token, lease) == ss[j]
    ensures DropGone(ss[j], token) == ss[j]
  {
    StaleToken(d, ss, ts, i, j, token);
  }

  lemma {:induction false} StaleToken(d: Durable, ss: seq<State>, ts: seq<Step>, i: nat, j: nat, token: nat)
    requires d.maxDeliver > 0 && IsRun(d, ss, ts) && i <= j <= |ts|
    requires token in ss[i].workers && !Current(ss[i], token)
    ensures token in ss[j].workers && !Current(ss[j], token)
    decreases j
  {
    if i < j {
      StaleToken(d, ss, ts, i, j - 1, token);
      assert StepAt(d, ss, ts, j - 1);
      StaleNext(d, ss[j - 1], ts[j - 1], ss[j], token);
    }
  }

  /** A claim makes every earlier token of its delivery stale. */
  lemma ClaimReplaces(d: Durable, s: State, q: nat, now: int, locked: set<nat>, token: nat, lease: int, earlier: nat)
    requires Enabled(d, s, ClaimStep(q, now, locked, token, lease))
    requires earlier in s.workers && s.workers[earlier].num == q
    ensures !Current(Claim(s, q, token, lease), earlier) && Current(Claim(s, q, token, lease), token)
  {}

  /** A delivery claimed again is out of reach for all its earlier holders, for good: whatever they report, and however
      long they renew, changes nothing. */
  lemma ReplacedForever(d: Durable, ss: seq<State>, ts: seq<Step>, i: nat, j: nat, earlier: nat)
    requires d.maxDeliver > 0 && IsRun(d, ss, ts) && i < j <= |ts| && ts[i].ClaimStep?
    requires earlier in ss[i].workers && ss[i].workers[earlier].num == ts[i].q
    ensures earlier in ss[j].workers
    ensures forall out, at :: Settle(d, ss[j], earlier, out, at) == ss[j]
    ensures forall lease :: InProgress(ss[j], earlier, lease) == ss[j]
    ensures DropGone(ss[j], earlier) == ss[j]
  {
    assert StepAt(d, ss, ts, i);
    ClaimReplaces(d, ss[i], ts[i].q, ts[i].now, ts[i].locked, ts[i].token, ts[i].lease, earlier);
    StaleForever(d, ss, ts, i + 1, j, earlier);
  }

  // ----- one message of an event -----

  /** No two messages that are there, or about to be, have one id. */
  ghost predicate IdsDistinct(s: State) {
    && (forall p, q :: p in s.messages && q in s.messages && s.messages[p].id == s.messages[q].id ==> p == q)
    && (forall p, q :: p in s.pending && q in s.pending && s.pending[p].id == s.pending[q].id ==> p == q)
    && (forall p, q :: p in s.pending && q in s.messages ==> s.pending[p].id != s.messages[q].id)
  }

  lemma IdsKept(d: Durable, s: State, t: Step, u: State)
    requires Messages(s) && IdsDistinct(s) && Next(d, s, t, u)
    ensures IdsDistinct(u)
  {
    match t
    case CommitStep(x) => IdsCommitted(s, x);
    case _ => IdsElse(d, s, t, u);
  }

  lemma IdsElse(d: Durable, s: State, t: Step, u: State)
    requires IdsDistinct(s) && Next(d, s, t, u) && !t.CommitStep?
    ensures IdsDistinct(u)
  {
    if t.InsertStep? {
      assert u.messages == s.messages && u.pending == s.pending[t.num := Message(t.x, t.id, t.subject)];
    } else {
      assert u.messages.Keys <= s.messages.Keys && u.pending.Keys <= s.pending.Keys;
    }
  }

  lemma IdsCommitted(s: State, x: nat)
    requires Messages(s) && IdsDistinct(s)
    ensures IdsDistinct(Commit(s, x))
  {
    var u := Commit(s, x);
    forall p | p in u.messages ensures p in s.messages || (p in s.pending && u.messages[p] == s.pending[p]) {}
  }

  /** An event published again while its message is there adds nothing: at most one of its messages is there. */
  lemma {:induction false} OneMessage(d: Durable, ss: seq<State>, ts: seq<Step>, i: nat)
    requires d.maxDeliver > 0 && IsRun(d, ss, ts) && i <= |ts|
    ensures IdsDistinct(ss[i])
  {
    if i > 0 {
      OneMessage(d, ss, ts, i - 1);
      RunInv(d, ss, ts, i - 1);
      assert StepAt(d, ss, ts, i - 1);
      IdsKept(d, ss[i - 1], ts[i - 1], ss[i]);
    }
  }

  // ----- ordered durables -----

  /** Among matching messages the sequence numbers go with the transactions. */
  ghost predicate Agrees(d: Durable, s: State) {
    forall p, q :: p < q && Matching(d, s, p) && Matching(d, s, q) ==> s.h.ever[p].xid <= s.h.ever[q].xid
  }

  /** Whatever is in flight is the first of all. */
  ghost predicate OneAtATime(s: State) {
    forall p, q :: p in s.rows && q in s.rows && s.rows[q].inFlight ==> q <= p
  }

  lemma QueuedItem(d: Durable, s: State, u: State, now: int, p: nat)
    requires Reading(s) && Next(d, s, QueueStep(now), u) && p in u.rows && p !in s.rows
    ensures Matching(d, s, p) && Before(s.pos, PlaceOf(p, s.h.ever[p]))
  {
    var items := s.batch.value.items;
    var i :| 0 <= i < |items| && items[i].num == p && d.matches(items[i].m.subject);
  }

  lemma QueuedAfter(d: Durable, s: State, u: State, now: int, p: nat, q: nat)
    requires Inv(d, s) && Next(d, s, QueueStep(now), u) && Agrees(d, s)
    requires p in u.rows && p !in s.rows && q in s.rows
    ensures q < p
  {
    QueuedItem(d, s, u, now, p);
    EarlierRead(d, s, p, q);
  }

  lemma EarlierRead(d: Durable, s: State, p: nat, q: nat)
    requires Position(s) && Deliveries(d, s) && Agrees(d, s)
    requires Matching(d, s, p) && Before(s.pos, PlaceOf(p, s.h.ever[p])) && q in s.rows
    ensures q < p
  {
    assert Matching(d, s, q);
  }

  lemma QueueKeepsFirst(d: Durable, s: State, u: State, now: int)
    requires Inv(d, s) && OneAtATime(s) && Next(d, s, QueueStep(now), u) && Agrees(d, s)
    ensures OneAtATime(u)
  {
    forall p, q | p in u.rows && q in u.rows && u.rows[q].inFlight ensures q <= p {
      if p !in s.rows { QueuedAfter(d, s, u, now, p, q); }
    }
  }

  lemma OneAtATimeKept(d: Durable, s: State, t: Step, u: State)
    requires d.ordered && Inv(d, s) && OneAtATime(s) && Next(d, s, t, u) && Agrees(d, s)
    ensures OneAtATime(u)
  {
    match t
    case QueueStep(now) => QueueKeepsFirst(d, s, u, now);
    case _ => ElseKeepsFirst(d, s, t, u);
  }

  lemma ElseKeepsFirst(d: Durable, s: State, t: Step, u: State)
    requires d.ordered && OneAtATime(s) && Next(d, s, t, u) && !t.QueueStep?
    ensures OneAtATime(u)
  {}

  lemma AgreedBefore(d: Durable, s: State, u: State)
    requires Agrees(d, u) && Grows(s, u)
    ensures Agrees(d, s)
  {}

  lemma {:induction false} RunOneAtATime(d: Durable, ss: seq<State>, ts: seq<Step>, i: nat)
    requires d.maxDeliver > 0 && d.ordered && IsRun(d, ss, ts) && i <= |ts| && Agrees(d, ss[i])
    ensures OneAtATime(ss[i])
  {
    if i > 0 {
      RunInv(d, ss, ts, i - 1);
      assert StepAt(d, ss, ts, i - 1);
      NextGrows(d, ss[i - 1], ts[i - 1], ss[i]);
      AgreedBefore(d, ss[i - 1], ss[i]);
      RunOneAtATime(d, ss, ts, i - 1);
      OneAtATimeKept(d, ss[i - 1], ts[i - 1], ss[i]);
    }
  }

  /** An ordered durable has at most one delivery in flight across all its instances. */
  lemma OneInFlight(d: Durable, s: State, p: nat, q: nat)
    requires d.maxDeliver > 0 && d.ordered && Reached(d, s) && Agrees(d, s)
    requires p in s.rows && s.rows[p].inFlight && q in s.rows && s.rows[q].inFlight
    ensures p == q
  {
    var ss, ts :| IsRun(d, ss, ts) && ss[|ts|] == s;
    RunOneAtATime(d, ss, ts, |ts|);
  }

  /** It claims a message only after every earlier matching one was settled, given up, dropped or purged. */
  lemma ClaimedInOrder(d: Durable, s: State, q: nat, now: int, locked: set<nat>, p: nat)
    requires d.maxDeliver > 0 && d.ordered && Reached(d, s) && Agrees(d, s) && Claims(d, s, now, locked, q)
    requires Matching(d, s, p) && q in s.h.ever && Before(PlaceOf(p, s.h.ever[p]), PlaceOf(q, s.h.ever[q]))
    ensures p !in s.rows && (p in s.h.removed || p in s.h.purged)
  {
    ReachedInv(d, s);
    assert Matching(d, s, q);
    assert p < q;
  }

  // ----- numbers against transactions -----

  function Start(): State {
    State(1, {}, map[], map[], Place(0, 0), None, map[], map[], History(map[], {}, {}, map[], map[], map[]))
  }

  lemma TwoBegun(d: Durable) returns (s: State)
    ensures Reached(d, s) && s == Start().(nextXid := 3, open := {1, 2})
  {
    var s0 := Start();
    var none: seq<Step> := [];
    assert IsRun(d, [s0], none) && [s0][|none|] == s0;
    var s1 := Begin(s0);
    ReachedNext(d, s0, BeginStep, s1);
    s := Begin(s1);
    ReachedNext(d, s1, BeginStep, s);
    assert s.open == {1, 2};
  }

  /** Transaction 1 has written and committed number q, transaction 2 the lower number p, still open. */
  lemma TwoWriters(d: Durable, p: nat, q: nat, subject: string) returns (s: State)
    requires p != q
    ensures Reached(d, s)
    ensures s == Start().(nextXid := 3, open := {2}, pending := map[p := Message(2, p, subject)],
                          messages := map[q := Message(1, q, subject)],
                          h := Start().h.(ever := map[q := Message(1, q, subject)]))
  {
    var s2 := TwoBegun(d);
    var s3 := Insert(s2, 1, q, q, subject);
    ReachedNext(d, s2, InsertStep(1, q, q, subject), s3);
    var s4 := Insert(s3, 2, p, p, subject);
    ReachedNext(d, s3, InsertStep(2, p, p, subject), s4);
    s := Commit(s4, 1);
    ReachedNext(d, s4, CommitStep(1), s);
    assert s.pending == map[p := Message(2, p, subject)];
    assert s.messages == map[q := Message(1, q, subject)];
    assert s.open == {2};
  }

  /** A lone unread message below xmin is read and queued. */
  lemma ReadAndQueued(d: Durable, s: State, xmin: nat, q: nat) returns (u: State)
    requires Reached(d, s) && s.batch.None? && IsXmin(s, xmin) && q !in s.rows
    requires Unread(s, xmin, q) && (forall p :: Unread(s, xmin, p) ==> p == q) && d.matches(s.messages[q].subject)
    ensures Reached(d, u) && u.rows == s.rows[q := Delivery(0, false, 0, 0, 0)] && u.h.ever == s.h.ever
    ensures u.pos == PlaceOf(q, s.messages[q]) && u.batch.None? && u.workers == s.workers
    ensures u.messages == s.messages && u.pending == s.pending && u.open == s.open && u.nextXid == s.nextXid
  {
    var items := [Item(q, s.messages[q])];
    var s1 := Read(s, xmin, items);
    assert Item(q, s.messages[q]) in items;
    ReachedNext(d, s, ReadStep(xmin, items), s1);
    u := QueueBatch(d, s1, 0);
    assert items[0].num in Wanted(d, items);
    ReachedNext(d, s1, QueueStep(0), u);
  }

  lemma FirstClaimed(d: Durable, s: State, q: nat, token: nat) returns (u: State)
    requires Reached(d, s) && d.ordered && token !in s.workers
    requires q in s.rows && s.rows[q] == Delivery(0, false, 0, 0, 0) && forall p :: p in s.rows ==> q <= p
    ensures Reached(d, u) && u == Claim(s, q, token, 0)
  {
    u := Claim(s, q, token, 0);
    assert Claims(d, s, 0, {}, q);
    ReachedNext(d, s, ClaimStep(q, 0, {}, token, 0), u);
  }

  /** Without that agreement an ordered durable has two deliveries in flight: claims go by number, and the position by
      transaction, so a lower number of a later transaction is queued behind a higher one already in flight. */
  lemma DisagreementBreaksOrder(d: Durable, p: nat, q: nat, subject: string) returns (s: State)
    requires d.ordered && d.matches(subject) && p < q
    ensures Reached(d, s) && p in s.rows && s.rows[p].inFlight && q in s.rows && s.rows[q].inFlight
  {
    var s1 := TwoWriters(d, p, q, subject);
    var s2 := ReadAndQueued(d, s1, 2, q);
    var s3 := FirstClaimed(d, s2, q, 7);
    var s4 := Commit(s3, 2);
    ReachedNext(d, s3, CommitStep(2), s4);
    assert s4.messages == map[q := Message(1, q, subject), p := Message(2, p, subject)];
    var s5 := ReadAndQueued(d, s4, 3, p);
    s := FirstClaimed(d, s5, p, 8);
  }
}
