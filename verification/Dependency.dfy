/** One call of a dependency (besdk/calls/client.py, Dependency.do and _attempts) and a chain of such calls. */
module Dependency {
  import opened Wrappers
  import opened Calls
  import Breaker
  import Budget

  const OUTBOUND_LIMIT := 64
  const MAX_ATTEMPTS := 3
  const MAX_ATTEMPT_TIMEOUT := 3.0
  const DEADLINE_RESERVE := 0.05

  // ----- the numbers (besdk/calls/policy.py) -----

  /** None: the attempt is not sent. */
  function AttemptTimeout(remaining: Option<real>): (t: Option<real>)
    ensures t.Some? <==> remaining.Some? && remaining.value >= 0.05
    ensures t.Some? ==> 0.0 <= t.value <= 3.0 && t.value <= remaining.value - 0.05
    ensures t.Some? ==> t.value == 3.0 || t.value == remaining.value - 0.05
  {
    if remaining.None? || remaining.value < DEADLINE_RESERVE then None
    else if remaining.value - DEADLINE_RESERVE < MAX_ATTEMPT_TIMEOUT then Some(remaining.value - DEADLINE_RESERVE)
    else Some(MAX_ATTEMPT_TIMEOUT)
  }

  predicate ShouldRetry(idempotent: bool, c: Class, made: nat, allowed: bool, after: Option<real>) {
    idempotent && Retryable(c) && made < MAX_ATTEMPTS && allowed && AttemptTimeout(after).Some?
  }

  /** What the environment brings to one turn of the loop: clock readings, the attempt's result, the backoff drawn. */
  datatype Shot = Shot(remaining: Option<real>, now: real, result: AttemptResult, ended: real,
                        left: Option<real>, backoff: real)

  function AfterBackoff(s: Shot): Option<real> { if s.left.None? then None else Some(s.left.value - s.backoff) }

  datatype Answer = Fine | Refused(e: Error)

  /** What the budget and the breaker are to count of the first n attempts, each by its own result. */
  function Costs(shots: seq<Shot>, n: nat): seq<Budget.Outcome>
    requires n <= |shots|
  {
    if n == 0 then [] else Costs(shots, n - 1) + [Cost(shots[n - 1].result)]
  }

  function AllCounts(shots: seq<Shot>, n: nat): seq<bool>
    requires n <= |shots|
  {
    if n == 0 then [] else AllCounts(shots, n - 1) + Counts(shots[n - 1].result)
  }

  /** A closed breaker that counts one more attempt: open when there are then too many failures, closed otherwise. */
  predicate CountsOne(before: Breaker.Spec, r: AttemptResult, ended: real, after: Breaker.Spec)
    requires before.Closed?
  {
    var more := before.counted + Counts(r);
    after == if Breaker.TooMany(more) then Breaker.Open(1, ended) else Breaker.Closed(more)
  }

  /** A breaker closed before n attempts has counted each of them, unless there were too many failures on the way. */
  ghost predicate CountsAll(before: Breaker.Spec, shots: seq<Shot>, n: nat, after: Breaker.Spec)
    requires before.Closed? && n <= |shots|
  {
    || after == Breaker.Closed(before.counted + AllCounts(shots, n))
    || exists k :: 0 < k <= n && Breaker.TooMany(before.counted + AllCounts(shots, k))
  }

  lemma CountsStep(before: Breaker.Spec, shots: seq<Shot>, n: nat, mid: Breaker.Spec, after: Breaker.Spec)
    requires before.Closed? && n < |shots| && CountsAll(before, shots, n, mid)
    requires mid.Closed? ==> CountsOne(mid, shots[n].result, shots[n].ended, after)
    ensures CountsAll(before, shots, n + 1, after)
  {
    if mid == Breaker.Closed(before.counted + AllCounts(shots, n)) {
      assert mid.counted + Counts(shots[n].result) == before.counted + AllCounts(shots, n + 1);
    } else {
      var k :| 0 < k <= n && Breaker.TooMany(before.counted + AllCounts(shots, k));
    }
  }

  /** One more attempt, recorded as its cost. */
  lemma CostsStep(run: seq<Budget.Outcome>, shots: seq<Shot>, n: nat)
    requires n < |shots|
    ensures (run + Costs(shots, n)) + [Cost(shots[n].result)] == run + Costs(shots, n + 1)
    ensures Budget.Retries(run + Costs(shots, n + 1)) == Budget.Retries(run + Costs(shots, n))
      + if Down(shots[n].result) && Budget.Allows(Budget.Tokens(run + Costs(shots, n + 1))) then 1 else 0
  {
    var more := run + Costs(shots, n + 1);
    assert more == (run + Costs(shots, n)) + [Cost(shots[n].result)];
    assert more[..|more| - 1] == run + Costs(shots, n);
  }

  /** After n attempts: the budget has recorded their costs and permitted the retries among them, again of them counting
      one to follow, and the breaker has counted them. */
  ghost predicate Progress(run: seq<Budget.Outcome>, before: Breaker.Spec, viaBreaker: bool, shots: seq<Shot>, n: nat,
      again: nat, now: seq<Budget.Outcome>, after: Breaker.Spec)
    requires n <= |shots|
  {
    && now == run + Costs(shots, n) && Budget.Retries(now) >= Budget.Retries(run) + again
    && (if !viaBreaker then after == before else before.Closed? ==> CountsAll(before, shots, n, after))
  }

  /** The attempts that another one followed. */
  function Before(sent: nat): nat { if sent == 0 then 0 else sent - 1 }

  lemma NoProgress(run: seq<Budget.Outcome>, before: Breaker.Spec, viaBreaker: bool, shots: seq<Shot>)
    ensures Progress(run, before, viaBreaker, shots, 0, 0, run, before)
  {
    assert Costs(shots, 0) == [] && run + [] == run;
    if before.Closed? { assert before.counted + [] == before.counted; }
  }

  lemma OneMore(run: seq<Budget.Outcome>, before: Breaker.Spec, viaBreaker: bool, shots: seq<Shot>, n: nat, again: nat,
      mid: seq<Budget.Outcome>, spec: Breaker.Spec, now: seq<Budget.Outcome>, after: Breaker.Spec)
    requires n < |shots| && Progress(run, before, viaBreaker, shots, n, again, mid, spec)
    requires now == mid + [Cost(shots[n].result)]
    requires if !viaBreaker then after == spec
             else spec.Closed? ==> CountsOne(spec, shots[n].result, shots[n].ended, after)
    ensures Progress(run, before, viaBreaker, shots, n + 1, again, now, after)
    ensures Down(shots[n].result) && Budget.Allows(Budget.Tokens(now)) ==>
      Progress(run, before, viaBreaker, shots, n + 1, again + 1, now, after)
  {
    CostsStep(run, shots, n);
    if viaBreaker && before.Closed? { CountsStep(before, shots, n, spec, after); }
  }

  /** Another attempt is worth its while: the call may be repeated, the dependency could not be reached, and there is
      time for another attempt after the backoff. */
  predicate WorthAnother(idempotent: bool, shot: Shot) {
    idempotent && Down(shot.result) && shot.left.Some? && shot.left.value - shot.backoff >= 0.05
  }

  /** What the attempts sent obey: each had time left, and each but the last one was an idempotent call's attempt at an
      unavailable dependency, with time for another. */
  ghost predicate Sent(idempotent: bool, shots: seq<Shot>, sent: nat)
    requires sent <= |shots|
  {
    && (forall k :: 0 <= k < sent ==> AttemptTimeout(shots[k].remaining).Some?)
    && (forall k :: 0 <= k < sent - 1 ==> WorthAnother(idempotent, shots[k]))
  }

  lemma SentMore(idempotent: bool, shots: seq<Shot>, sent: nat)
    requires sent < |shots| && Sent(idempotent, shots, sent) && AttemptTimeout(shots[sent].remaining).Some?
    requires sent > 0 ==> WorthAnother(idempotent, shots[sent - 1])
    ensures Sent(idempotent, shots, sent + 1)
  {}

  /** No attempt was made: nothing is counted. */
  lemma HeldBack(run: seq<Budget.Outcome>, before: Breaker.Spec, viaBreaker: bool, shots: seq<Shot>, n: nat,
      now: seq<Budget.Outcome>, spec: Breaker.Spec, after: Breaker.Spec)
    requires n <= |shots| && Progress(run, before, viaBreaker, shots, n, n, now, spec)
    requires if viaBreaker then spec.Closed? ==> after == spec else after == spec
    ensures Progress(run, before, viaBreaker, shots, n, Before(n), now, after)
  {}

  /** An attempt was made: it is counted, and as followed by another when that is due. */
  lemma MadeOne(run: seq<Budget.Outcome>, before: Breaker.Spec, viaBreaker: bool, shots: seq<Shot>, n: nat,
      mid: seq<Budget.Outcome>, spec: Breaker.Spec, now: seq<Budget.Outcome>, after: Breaker.Spec)
    requires n < |shots| && Progress(run, before, viaBreaker, shots, n, n, mid, spec)
    requires now == mid + [Cost(shots[n].result)]
    requires if !viaBreaker then after == spec
             else spec.Closed? ==> CountsOne(spec, shots[n].result, shots[n].ended, after)
    ensures Progress(run, before, viaBreaker, shots, n + 1, Before(n + 1), now, after)
    ensures Down(shots[n].result) && Budget.Allows(Budget.Tokens(now)) ==>
      Progress(run, before, viaBreaker, shots, n + 1, n + 1, now, after)
  {
    OneMore(run, before, viaBreaker, shots, n, n, mid, spec, now, after);
  }

  class Store {
    const others: map<string, Entry>
    const breaker: Breaker.Store
    const budget: Budget.Store
    var inFlight: nat

    ghost predicate Valid()
      reads this, breaker, budget
    {
      breaker.Valid() && budget.Valid()
    }

    constructor (others: map<string, Entry>)
      ensures Valid() && inFlight == 0 && fresh(breaker) && fresh(budget)
    {
      this.others, inFlight := others, 0;
      breaker := new Breaker.Store();
      budget := new Budget.Store();
    }

    /** do: one call, refused inside a transaction and past the limit of calls in progress. */
    method Do(inTx: bool, idempotent: bool, viaBreaker: bool, shots: seq<Shot>) returns (a: Answer, sent: nat)
      requires Valid() && |shots| >= MAX_ATTEMPTS && forall k :: 0 <= k < |shots| ==> ResultOk(others, shots[k].result)
      modifies this, breaker, budget
      ensures Valid() && inFlight == old(inFlight) && sent <= MAX_ATTEMPTS
      ensures sent <= 3
      ensures inTx || old(inFlight) >= 64 ==>
        sent == 0 && a == Refused(New(others, if inTx then Internal else OutboundLimit))
      ensures a.Refused? ==> Settled(others, a.e)
      ensures Sent(idempotent, shots, sent) && Outcome(idempotent, shots, sent, a)
      ensures Progress(old(budget.run), old(breaker.spec), viaBreaker, shots, sent, Before(sent),
                       budget.run, breaker.spec)
      ensures !inTx && old(inFlight) < 64 && Going(idempotent, shots, sent) ==> Held(viaBreaker, shots, sent)
    {
      NoProgress(budget.run, breaker.spec, viaBreaker, shots);
      if inTx || inFlight >= OUTBOUND_LIMIT {
        a := Local(if inTx then Internal else OutboundLimit);
        return a, 0;
      }
      inFlight := inFlight + 1;
      a, sent := Attempts(idempotent, viaBreaker, shots);
      inFlight := inFlight - 1;
    }

    /** An error raised without an attempt. */
    method Local(why: Reason) returns (a: Answer)
      requires why == Internal || why == OutboundLimit || Relays(why)
      ensures a == Refused(New(others, why)) && Settled(others, a.e)
    {
      LocalSettled(others, why);
      a := Refused(New(others, why));
    }

    /** What the call comes to: fine exactly when its last attempt succeeded, otherwise the answer for that attempt, and
        a refusal of its own when none was sent. */
    ghost predicate Outcome(idempotent: bool, shots: seq<Shot>, sent: nat, a: Answer)
      requires sent <= |shots|
    {
      if sent == 0 then a.Refused?
      else if Succeeded(shots[sent - 1].result) then a == Fine
      else a.Refused? && Answers(others, idempotent, shots[sent - 1].result, a.e)
    }

    /** Another attempt is due: none was sent yet, or the last one is worth another and attempts and tokens are left. */
    predicate Going(idempotent: bool, shots: seq<Shot>, sent: nat)
      requires sent <= |shots|
      reads budget
    {
      sent == 0 || (sent < 3 && WorthAnother(idempotent, shots[sent - 1]) && budget.tokens > 5000)
    }

    /** An attempt that is due is held back: no time is left for it, or the breaker is not closed. */
    ghost predicate Held(viaBreaker: bool, shots: seq<Shot>, sent: nat)
      requires sent < |shots|
      reads breaker
    {
      AttemptTimeout(shots[sent].remaining).None? || (viaBreaker && !breaker.spec.Closed?)
    }

    /** A permit of the breaker; without via_breaker the breaker neither holds nor counts the call. */
    method Admit(viaBreaker: bool, now: real) returns (admitted: bool, permit: Option<nat>)
      requires Valid()
      modifies breaker
      ensures Valid() && (permit.Some? ==> permit.value > 0)
      ensures admitted <==> !viaBreaker || permit.Some?
      ensures !viaBreaker ==> permit.None? && breaker.spec == old(breaker.spec)
      ensures old(breaker.spec).Closed? ==> admitted && breaker.spec == old(breaker.spec)
      ensures !admitted ==> !breaker.spec.Closed?
    {
      if !viaBreaker { return true, None; }
      permit := breaker.Start(now);
      admitted := permit.Some?;
    }

    /** The attempt is counted by the budget, and by the breaker when it held a permit. */
    method CountAttempt(permit: Option<nat>, r: AttemptResult, ended: real)
      requires Valid() && (permit.Some? ==> permit.value > 0)
      modifies breaker, budget
      ensures Valid() && budget.run == old(budget.run) + [Cost(r)]
      ensures permit.None? ==> breaker.spec == old(breaker.spec)
      ensures permit.Some? && old(breaker.spec).Closed? ==> CountsOne(old(breaker.spec), r, ended, breaker.spec)
    {
      CountedExactly(r);
      var c := Classify(r, false);
      if breaker.spec.Closed? && permit.Some? {
        Breaker.CountedOnce(breaker.spec.counted, permit.value, ended, ForBreaker(c));
      }
      if permit.Some? { breaker.End(permit.value, ended, ForBreaker(c)); }
      budget.Record(ForBudget(c));
    }

    /** _attempts: at most three, each counted. */
    method Attempts(idempotent: bool, viaBreaker: bool, shots: seq<Shot>) returns (a: Answer, sent: nat)
      requires Valid() && |shots| >= MAX_ATTEMPTS && forall k :: 0 <= k < |shots| ==> ResultOk(others, shots[k].result)
      modifies breaker, budget
      ensures Valid() && sent <= MAX_ATTEMPTS && Sent(idempotent, shots, sent) && Outcome(idempotent, shots, sent, a)
      ensures a.Refused? ==> Settled(others, a.e)
      ensures Progress(old(budget.run), old(breaker.spec), viaBreaker, shots, sent, Before(sent),
                       budget.run, breaker.spec)
      ensures Going(idempotent, shots, sent) ==> Held(viaBreaker, shots, sent)
    {
      sent := 0;
      NoProgress(budget.run, breaker.spec, viaBreaker, shots);
      while true
        invariant Valid() && sent < MAX_ATTEMPTS && Sent(idempotent, shots, sent)
        invariant sent > 0 ==> WorthAnother(idempotent, shots[sent - 1]) && budget.tokens > 5000
        invariant Progress(old(budget.run), old(breaker.spec), viaBreaker, shots, sent, sent, budget.run, breaker.spec)
        decreases MAX_ATTEMPTS - sent
      {
        var answer, made := CountedTurn(idempotent, viaBreaker, shots, sent, old(budget.run), old(breaker.spec));
        if answer.Some? { return answer.value, made; }
        sent := made;
      }
    }

    /** One turn, as it counts in the whole call. */
    method CountedTurn(idempotent: bool, viaBreaker: bool, shots: seq<Shot>, sent: nat, ghost run: seq<Budget.Outcome>,
        ghost before: Breaker.Spec) returns (a: Option<Answer>, made: nat)
      requires Valid() && sent < MAX_ATTEMPTS <= |shots| && Sent(idempotent, shots, sent)
      requires forall k :: 0 <= k < |shots| ==> ResultOk(others, shots[k].result)
      requires sent > 0 ==> WorthAnother(idempotent, shots[sent - 1])
      requires Progress(run, before, viaBreaker, shots, sent, sent, budget.run, breaker.spec)
      modifies breaker, budget
      ensures Valid() && sent <= made <= sent + 1 && Sent(idempotent, shots, made)
      ensures a.None? ==> 0 < made < MAX_ATTEMPTS && WorthAnother(idempotent, shots[made - 1]) && budget.tokens > 5000
      ensures a.None? ==>
        made == sent + 1 && Progress(run, before, viaBreaker, shots, made, made, budget.run, breaker.spec)
      ensures Progress(run, before, viaBreaker, shots, made, Before(made), budget.run, breaker.spec)
      ensures a.Some? ==> Outcome(idempotent, shots, made, a.value)
      ensures a.Some? && a.value.Refused? ==> Settled(others, a.value.e)
      ensures a.Some? && Going(idempotent, shots, made) ==> Held(viaBreaker, shots, made)
    {
      ghost var mid, spec := budget.run, breaker.spec;
      a, made := Turn(idempotent, viaBreaker, shots, sent);
      if made > sent {
        SentMore(idempotent, shots, sent);
        MadeOne(run, before, viaBreaker, shots, sent, mid, spec, budget.run, breaker.spec);
      } else {
        HeldBack(run, before, viaBreaker, shots, sent, mid, spec, breaker.spec);
      }
    }

    /** One turn of the loop: an answer, or one more attempt made and another to follow. */
    method Turn(idempotent: bool, viaBreaker: bool, shots: seq<Shot>, sent: nat) returns (a: Option<Answer>, made: nat)
      requires Valid() && sent < MAX_ATTEMPTS <= |shots| && ResultOk(others, shots[sent].result)
      requires sent > 0 ==> WorthAnother(idempotent, shots[sent - 1]) && ResultOk(others, shots[sent - 1].result)
      modifies breaker, budget
      ensures Valid() && sent <= made <= sent + 1
      ensures made == sent ==> budget.run == old(budget.run) && a.Some? && Held(viaBreaker, shots, sent)
      ensures made > sent ==> budget.run == old(budget.run) + [Cost(shots[sent].result)]
      ensures made > sent ==> AttemptTimeout(shots[sent].remaining).Some?
      ensures made > sent ==>
        (a.None? <==> made < MAX_ATTEMPTS && WorthAnother(idempotent, shots[sent]) && budget.tokens > 5000)
      ensures !viaBreaker ==> breaker.spec == old(breaker.spec)
      ensures viaBreaker && old(breaker.spec).Closed? ==>
        if made == sent then breaker.spec == old(breaker.spec)
        else CountsOne(old(breaker.spec), shots[sent].result, shots[sent].ended, breaker.spec)
      ensures a.Some? ==> Outcome(idempotent, shots, made, a.value)
      ensures a.Some? && a.value.Refused? ==> Settled(others, a.value.e)
    {
      made := sent;
      var why := Try(viaBreaker, shots[sent]);
      if why.Some? {
        var stop := StopAnswer(idempotent, shots, sent, why.value);
        return Some(stop), made;
      }
      made := made + 1;
      a := Judge(idempotent, shots, made);
    }

    /** One attempt when there is time left and the breaker admits it, otherwise the reason why it is not sent. */
    method Try(viaBreaker: bool, shot: Shot) returns (why: Option<Reason>)
      requires Valid()
      modifies breaker, budget
      ensures Valid() && (why.Some? ==> why.value == DeadlineBudgetExhausted || why.value == CircuitOpen)
      ensures budget.run == if why.None? then old(budget.run) + [Cost(shot.result)] else old(budget.run)
      ensures why.None? ==> AttemptTimeout(shot.remaining).Some?
      ensures why.Some? ==> AttemptTimeout(shot.remaining).None? || (viaBreaker && !breaker.spec.Closed?)
      ensures !viaBreaker ==> breaker.spec == old(breaker.spec)
      ensures viaBreaker && old(breaker.spec).Closed? ==>
        if why.Some? then breaker.spec == old(breaker.spec)
        else CountsOne(old(breaker.spec), shot.result, shot.ended, breaker.spec)
    {
      if AttemptTimeout(shot.remaining).None? { return Some(DeadlineBudgetExhausted); }
      var admitted := Send(viaBreaker, shot);
      why := if admitted then None else Some(CircuitOpen);
    }

    /** An attempt under the breaker's permit, counted when it ends. */
    method Send(viaBreaker: bool, shot: Shot) returns (admitted: bool)
      requires Valid()
      modifies breaker, budget
      ensures Valid() && budget.run == if admitted then old(budget.run) + [Cost(shot.result)] else old(budget.run)
      ensures !viaBreaker ==> admitted && breaker.spec == old(breaker.spec)
      ensures !admitted ==> !breaker.spec.Closed? && !old(breaker.spec).Closed?
      ensures viaBreaker && old(breaker.spec).Closed? ==>
        CountsOne(old(breaker.spec), shot.result, shot.ended, breaker.spec)
    {
      var permit;
      admitted, permit := Admit(viaBreaker, shot.now);
      if admitted { CountAttempt(permit, shot.result, shot.ended); }
    }

    /** After an attempt: the call's answer, or none when another attempt follows. */
    method Judge(idempotent: bool, shots: seq<Shot>, made: nat) returns (a: Option<Answer>)
      requires Valid() && 0 < made <= |shots| && ResultOk(others, shots[made - 1].result)
      ensures a.None? <==> made < MAX_ATTEMPTS && WorthAnother(idempotent, shots[made - 1]) && budget.tokens > 5000
      ensures a.Some? ==> Outcome(idempotent, shots, made, a.value)
      ensures a.Some? && a.value.Refused? ==> Settled(others, a.value.e)
    {
      var shot := shots[made - 1];
      var c := Classify(shot.result, false);
      CountedExactly(shot.result);
      if c == SUCCESS { return Some(Fine); }
      var allowed := budget.AllowsRetry();
      if !ShouldRetry(idempotent, c, made, allowed, AfterBackoff(shot)) {
        var final := FinalAnswer(idempotent, shot.result);
        return Some(final);
      }
      a := None;
    }

    /** The answer when no further attempt is sent: the last attempt's, or a refusal when none was sent. */
    method StopAnswer(idempotent: bool, shots: seq<Shot>, sent: nat, why: Reason) returns (a: Answer)
      requires sent <= |shots|
        && (sent > 0 ==> WorthAnother(idempotent, shots[sent - 1]) && ResultOk(others, shots[sent - 1].result))
      requires why == DeadlineBudgetExhausted || why == CircuitOpen
      ensures a.Refused? && Settled(others, a.e) && Outcome(idempotent, shots, sent, a)
      ensures sent == 0 ==> a.e == New(others, why)
    {
      if sent == 0 { a := Local(why); } else { a := FinalAnswer(idempotent, shots[sent - 1].result); }
    }

    method FinalAnswer(idempotent: bool, r: AttemptResult) returns (a: Answer)
      requires ResultOk(others, r) && !Succeeded(r)
      ensures a.Refused? && Settled(others, a.e) && Answers(others, idempotent, r, a.e)
    {
      CountedExactly(r);
      AnswersExactly(others, r, idempotent);
      OneLayerRetries(others, r, false, idempotent);
      a := Refused(Upward(others, Classify(r, false), r, idempotent).value);
    }
  }

  // ----- many calls of one dependency -----

  datatype Asked = Asked(inTx: bool, idempotent: bool, viaBreaker: bool, shots: seq<Shot>)

  predicate AskedOk(others: map<string, Entry>, c: Asked) {
    |c.shots| >= MAX_ATTEMPTS && forall k :: 0 <= k < |c.shots| ==> ResultOk(others, c.shots[k].result)
  }

  /** The attempts without an error among the first n. */
  function FineIn(shots: seq<Shot>, n: nat): nat
    requires n <= |shots|
  {
    if n == 0 then 0 else FineIn(shots, n - 1) + if shots[n - 1].result.err.None? then 1 else 0
  }

  /** The attempts made after a call's first one. */
  function Repeated(made: seq<nat>): nat {
    if made == [] then 0 else Repeated(made[..|made| - 1]) + Before(made[|made| - 1])
  }

  function FineOf(calls: seq<Asked>, made: seq<nat>): nat
    requires |made| <= |calls| && forall i :: 0 <= i < |made| ==> made[i] <= |calls[i].shots|
  {
    if made == [] then 0
    else FineOf(calls, made[..|made| - 1]) + FineIn(calls[|made| - 1].shots, made[|made| - 1])
  }

  lemma CostSucceeds(others: map<string, Entry>, r: AttemptResult)
    requires ResultOk(others, r)
    ensures Cost(r) == Budget.Success <==> r.err.None?
  {}

  lemma SuccessStep(run: seq<Budget.Outcome>, costs: seq<Budget.Outcome>, o: Budget.Outcome)
    ensures Budget.Successes(run + (costs + [o])) ==
      Budget.Successes(run + costs) + if o == Budget.Success then 1 else 0
  {
    assert run + (costs + [o]) == (run + costs) + [o];
    Budget.SuccessesSnoc(run + costs, o);
  }

  lemma {:induction false} CostsSucceed(others: map<string, Entry>, run: seq<Budget.Outcome>, shots: seq<Shot>, n: nat)
    requires n <= |shots| && forall k :: 0 <= k < |shots| ==> ResultOk(others, shots[k].result)
    ensures Budget.Successes(run + Costs(shots, n)) == Budget.Successes(run) + FineIn(shots, n)
  {
    if n == 0 {
      assert run + [] == run;
    } else {
      CostsSucceed(others, run, shots, n - 1);
      CostSucceeds(others, shots[n - 1].result);
      SuccessStep(run, Costs(shots, n - 1), Cost(shots[n - 1].result));
    }
  }

  /** No retry storm, counted by what was sent: over any calls of one dependency, a thousand times the attempts made
      after a first one is at most 4900 and a hundred times the attempts without an error. */
  method DoAll(store: Store, calls: seq<Asked>) returns (answers: seq<Answer>, made: seq<nat>)
    requires store.Valid() && store.budget.run == []
    requires forall i :: 0 <= i < |calls| ==> AskedOk(store.others, calls[i])
    modifies store, store.breaker, store.budget
    ensures |answers| == |made| == |calls| && forall i :: 0 <= i < |made| ==> made[i] <= |calls[i].shots|
    ensures 1000 * Repeated(made) <= 4900 + 100 * FineOf(calls, made)
  {
    answers, made := [], [];
    for i := 0 to |calls|
      invariant store.Valid() && |answers| == |made| == i && forall k :: 0 <= k < i ==> made[k] <= |calls[k].shots|
      invariant Repeated(made) <= Budget.Retries(store.budget.run)
      invariant Budget.Successes(store.budget.run) == FineOf(calls, made)
    {
      var c := calls[i];
      ghost var run := store.budget.run;
      var a, sent := store.Do(c.inTx, c.idempotent, c.viaBreaker, c.shots);
      CostsSucceed(store.others, run, c.shots, sent);
      assert (made + [sent])[..i] == made;
      answers, made := answers + [a], made + [sent];
    }
    Budget.RetriesBounded(store.budget.run);
  }

  // ----- a chain of calls -----

  /** What happens at one turn of a layer's loop besides its attempt: a refusal before it, the attempt's own timeout,
      and whether budget and deadline allow another. */
  datatype Gate = Gate(refused: bool, timedOut: bool, again: bool)

  /** The leaf's results in the order of its attempts; the gates by layer, turn and leaf attempts so far. */
  datatype World = World(others: map<string, Entry>, wire: nat -> Wire, idempotent: nat -> bool,
                           leaf: nat -> AttemptResult,
                         gate: (nat, nat, nat) -> Gate)

  function TimedOut(): AttemptResult { AttemptResult(Some(Timeout), DEADLINE_EXCEEDED, None, false) }

  /** A layer calls the one below, the lowest calls the leaf, and each passes the answer of the one below upward.
      However deep the chain, the leaf gets at most three attempts, and what comes up is not retried further up. */
  method Call(w: World, depth: nat, at: nat) returns (a: Answer, used: nat)
    requires forall i: nat :: ResultOk(w.others, w.leaf(i))
    ensures used <= MAX_ATTEMPTS
    ensures a.Refused? ==> Settled(w.others, a.e)
    decreases depth
  {
    var n, last := 0, TimedOut();
    used := 0;
    while true
      invariant n < MAX_ATTEMPTS && used <= n && (n > 0 ==> depth == 0)
      invariant ResultOk(w.others, last) && Classify(last, false) != SUCCESS
      decreases MAX_ATTEMPTS - n
    {
      var gate := w.gate(depth, n, at + used);
      if gate.refused {
        if n > 0 {
          OneLayerRetries(w.others, last, false, w.idempotent(depth));
          return Refused(Upward(w.others, Classify(last, false), last, w.idempotent(depth)).value), used;
        }
        LocalSettled(w.others, CircuitOpen);
        return Refused(New(w.others, CircuitOpen)), used;
      }
      var r;
      if depth == 0 {
        r := w.leaf(at + used);
        used := used + 1;
      } else {
        var below, more := Call(w, depth - 1, at + used);
        used := used + more;
        r := if below.Fine? then AttemptResult(None, OK, None, false) else Received(w.others, w.wire(depth), below.e);
      }
      if gate.timedOut { r := TimedOut(); }
      n := n + 1;
      var c := Classify(r, false);
      if c == SUCCESS { return Fine, used; }
      OneLayerRetries(w.others, r, false, w.idempotent(depth));
      if !(w.idempotent(depth) && Retryable(c) && n < MAX_ATTEMPTS && gate.again) {
        return Refused(Upward(w.others, c, r, w.idempotent(depth)).value), used;
      }
      last := r;
    }
  }
}
