/** What every run of a consumer on its queue keeps. */
module PipelineRuns {
  import opened Pipeline
  import Q = Queue
  import QueueSafety

  ghost predicate IsRun(c: Setting, ss: seq<State>, ts: seq<Step>) {
    |ss| == |ts| + 1 && Init(ss[0]) && forall i :: 0 <= i < |ts| ==> StepAt(c, ss, ts, i)
  }

  ghost predicate StepAt(c: Setting, ss: seq<State>, ts: seq<Step>, i: nat)
    requires |ss| == |ts| + 1 && i < |ts|
  {
    Next(c, ss[i], ts[i], ss[i + 1])
  }

  ghost predicate Reached(c: Setting, s: State) { exists ss, ts :: IsRun(c, ss, ts) && ss[|ts|] == s }

  lemma InvKept(c: Setting, s: State, t: Step, u: State)
    requires c.queue.maxDeliver > 0 && Inv(c, s) && Next(c, s, t, u)
    ensures Inv(c, u)
  {
    match t
    case QueueStep(t) => QueueKept(c, s, t, u);
    case HandleStep(token, fate) => HandledKept(c, s, token, fate);
    case DeadLetterStep(token, fate) => DeadLetteredKept(c, s, token, fate);
  }

  lemma {:induction false} RunInv(c: Setting, ss: seq<State>, ts: seq<Step>, i: nat)
    requires c.queue.maxDeliver > 0 && IsRun(c, ss, ts) && i <= |ts|
    ensures Inv(c, ss[i])
  {
    if i == 0 {
      Q.InitInv(c.queue, ss[0].q);
    } else {
      RunInv(c, ss, ts, i - 1);
      assert StepAt(c, ss, ts, i - 1);
      InvKept(c, ss[i - 1], ts[i - 1], ss[i]);
    }
  }

  lemma ReachedInv(c: Setting, s: State)
    requires c.queue.maxDeliver > 0 && Reached(c, s)
    ensures Inv(c, s)
  {
    var ss, ts :| IsRun(c, ss, ts) && ss[|ts|] == s;
    RunInv(c, ss, ts, |ts|);
  }

  lemma ReachedNext(c: Setting, s: State, t: Step, u: State)
    requires Reached(c, s) && Next(c, s, t, u)
    ensures Reached(c, u)
  {
    var ss, ts :| IsRun(c, ss, ts) && ss[|ts|] == s;
    var ss2, ts2 := ss + [u], ts + [t];
    forall i | 0 <= i < |ts2| ensures StepAt(c, ss2, ts2, i) {
      assert i < |ts| ==> StepAt(c, ss, ts, i);
    }
    assert IsRun(c, ss2, ts2) && ss2[|ts2|] == u;
  }

  /** A handler's writes commit at most once for an event, however often it is delivered, by however many workers at
      once, and whatever they learn of their commits. */
  lemma EffectOnce(c: Setting, s: State, e: nat)
    requires c.queue.maxDeliver > 0 && Reached(c, s)
    ensures Q.Count(s.effects, e) == if e in s.inbox then 1 else 0
  {
    ReachedInv(c, s);
  }

  /** A message is still to be settled, or its effect or a dead letter is there, or it is one of the three exceptions:
      taken by the retention, never settled on its last lease, or failed with a dead letter that was not written. */
  ghost predicate Accounted(c: Setting, s: State, n: nat) {
    var e := EventOf(s.q, n);
    || n in s.q.rows
    || Q.Count(s.effects, e) == 1
    || e in s.dead
    || n in s.q.h.purged
    || (n in s.q.h.removed && s.q.h.removed[n] == Q.GivenUp && Q.Count(s.q.h.claims, n) == c.queue.maxDeliver)
    || e in s.unrecorded
  }

  ghost predicate Passed(c: Setting, s: State, n: nat) {
    Q.Matching(c.queue, s.q, n) && !Q.Before(s.q.pos, Q.PlaceOf(n, s.q.h.ever[n]))
  }

  lemma PassedAccounted(c: Setting, s: State, n: nat)
    requires c.ownMax <= c.queue.maxDeliver && Inv(c, s) && Passed(c, s, n)
    ensures Accounted(c, s, n)
  {
    if n in s.q.h.removed { assert EndOk(c, s, n); }
  }

  // ----- a consumer that expects more deliveries than the queue makes -----

  lemma Begun(c: Setting, subject: string) returns (s: State)
    ensures Reached(c, s) && s == State(s.q, {}, map[], {}, map[], {})
    ensures var m := Q.Message(1, 1, subject);
      s.q == QueueSafety.Start().(nextXid := 2, messages := map[1 := m],
                                          h := QueueSafety.Start().h.(ever := map[1 := m]))
  {
    var s0 := State(QueueSafety.Start(), {}, map[], {}, map[], {});
    var none: seq<Step> := [];
    assert IsRun(c, [s0], none) && [s0][|none|] == s0;
    var s1 := s0.(q := Q.Begin(s0.q));
    ReachedNext(c, s0, QueueStep(Q.BeginStep), s1);
    var s2 := s1.(q := Q.Insert(s1.q, 1, 1, 1, subject));
    ReachedNext(c, s1, QueueStep(Q.InsertStep(1, 1, 1, subject)), s2);
    s := s2.(q := Q.Commit(s2.q, 1));
    ReachedNext(c, s2, QueueStep(Q.CommitStep(1)), s);
    assert s.q.messages == map[1 := Q.Message(1, 1, subject)];
    assert s.q.pending == map[] && s.q.open == {};
  }

  /** The message is queued, and has failed k times without a trace. */
  ghost predicate Failing(c: Setting, s: State, subject: string, k: nat) {
    && Reached(c, s) && s.inbox == {} && s.effects == map[] && s.dead == {} && s.unrecorded == {} && s.q.h.purged == {}
    && s.q.messages == map[1 := Q.Message(1, 1, subject)] && s.q.h.ever == s.q.messages && s.q.pos == Q.Place(1, 1)
    && s.q.rows == map[1 := Q.Delivery(k, false, 0, 0, 0)] && s.q.h.removed == map[]
    && (forall t :: t in s.q.workers || t in s.phases ==> t < k)
  }

  lemma Queued(c: Setting, subject: string) returns (s: State)
    requires c.queue.matches(subject)
    ensures Failing(c, s, subject, 0)
  {
    var s0 := Begun(c, subject);
    var m := Q.Message(1, 1, subject);
    var items := [Q.Item(1, m)];
    assert Q.Item(1, m) in items;
    var s1 := s0.(q := Q.Read(s0.q, 2, items));
    ReachedNext(c, s0, QueueStep(Q.ReadStep(2, items)), s1);
    s := s1.(q := Q.QueueBatch(c.queue, s1.q, 0));
    assert items[0].num in Q.Wanted(c.queue, items);
    assert s.q.rows == map[1 := Q.Delivery(0, false, 0, 0, 0)];
    ReachedNext(c, s1, QueueStep(Q.QueueStep(0)), s);
  }

  lemma ClaimedAgain(c: Setting, s: State, subject: string, k: nat) returns (u: State)
    requires Failing(c, s, subject, k)
    ensures Reached(c, u) && u == s.(q := Q.Claim(s.q, 1, k, 0))
  {
    u := s.(q := Q.Claim(s.q, 1, k, 0));
    assert Q.Claims(c.queue, s.q, 0, {}, 1);
    ReachedNext(c, s, QueueStep(Q.ClaimStep(1, 0, {}, k, 0)), u);
  }

  lemma FailedOnce(c: Setting, s: State, subject: string, k: nat) returns (u: State)
    requires Failing(c, s, subject, k) && k + 1 < c.ownMax
    ensures k + 1 < c.queue.maxDeliver ==> Failing(c, u, subject, k + 1)
    ensures k + 1 >= c.queue.maxDeliver ==>
      Reached(c, u) && Passed(c, u, 1) == Passed(c, s, 1) && !Accounted(c, u, 1)
  {
    var s1 := ClaimedAgain(c, s, subject, k);
    var s2 := Handled(c, s1, k, Failed);
    ReachedNext(c, s1, HandleStep(k, Failed), s2);
    u := s2.(q := Q.Settle(c.queue, s2.q, k, Q.NAK, 0));
    ReachedNext(c, s2, QueueStep(Q.SettleStep(k, Q.NAK, 0)), u);
    if k + 1 < c.queue.maxDeliver {
      assert u.q.rows == map[1 := Q.Delivery(k + 1, false, 0, 0, 0)];
    }
  }

  lemma {:induction false} FailsSilently(c: Setting, s: State, subject: string, k: nat) returns (u: State)
    requires Failing(c, s, subject, k) && k < c.queue.maxDeliver < c.ownMax && c.queue.matches(subject)
    ensures Reached(c, u) && Passed(c, u, 1) && !Accounted(c, u, 1)
    decreases c.queue.maxDeliver - k
  {
    u := FailedOnce(c, s, subject, k);
    if k + 1 < c.queue.maxDeliver { u := FailsSilently(c, u, subject, k + 1); }
  }

  /** A message that the position has passed is always accounted for exactly when the consumer expects no more
      deliveries than the queue's stored setting makes; otherwise the queue deletes a delivery whose failure the
      consumer still expects to see again. */
  lemma AccountedExactly(c: Setting, subject: string)
    requires c.queue.maxDeliver > 0 && c.queue.matches(subject)
    ensures (forall s, n :: Reached(c, s) && Passed(c, s, n) ==> Accounted(c, s, n)) <==> c.ownMax <= c.queue.maxDeliver
  {
    if c.ownMax <= c.queue.maxDeliver {
      forall s, n | Reached(c, s) && Passed(c, s, n) ensures Accounted(c, s, n) {
        ReachedInv(c, s);
        PassedAccounted(c, s, n);
      }
    } else {
      var s := Queued(c, subject);
      var u := FailsSilently(c, s, subject, 0);
      assert Reached(c, u) && Passed(c, u, 1) && !Accounted(c, u, 1);
    }
  }
}
