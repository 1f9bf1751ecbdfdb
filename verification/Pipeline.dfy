/** A consumer on its queue (besdk/events/consumer.py): the inbox and the business write in one transaction, the dead
    letter of a last failure, and what the queue does with the outcome. */
module Pipeline {
  import Q = Queue

  /** What a handler's run came to: an outcome to report, or a last failure still to be recorded. */
  datatype Phase = Reporting(out: Q.Outcome) | Failing

  /** A transaction commits and the caller sees it, or fails, or commits although the caller sees a failure. */
  datatype Fate = Committed | Failed | Unseen

  /** The consumer's settings are its own, the queue's are those stored when the durable was created. */
  datatype Setting = Setting(queue: Q.Durable, ownMax: nat)

  /** unrecorded: events whose last failure could not be recorded, as the consumer saw it. */
  datatype State = State(q: Q.State, inbox: set<nat>, effects: map<nat, nat>, dead: set<nat>, phases: map<nat, Phase>,
                         unrecorded: set<nat>)

  function EventOf(q: Q.State, num: nat): nat { if num in q.h.ever then q.h.ever[num].id else 0 }

  function TokenEvent(s: State, token: nat): nat
    requires token in s.q.workers
  {
    EventOf(s.q, s.q.workers[token].num)
  }

  /** One transaction: the inbox row, and the handler's writes unless the row was there. */
  function Applied(s: State, e: nat): State {
    if e in s.inbox then s
    else s.(inbox := s.inbox + {e}, effects := s.effects[e := Q.Count(s.effects, e) + 1])
  }

  function Handled(c: Setting, s: State, token: nat, fate: Fate): State
    requires token in s.q.workers
  {
    var t := if fate == Failed then s else Applied(s, TokenEvent(s, token));
    var phase :=
      if fate == Committed then Reporting(Q.ACK)
      else if s.q.workers[token].attempt < c.ownMax then Reporting(Q.NAK)
      else Failing;
    t.(phases := s.phases[token := phase])
  }

  function DeadLettered(s: State, token: nat, fate: Fate): State
    requires token in s.q.workers
  {
    var e := TokenEvent(s, token);
    s.(dead := if fate == Failed then s.dead else s.dead + {e},
       unrecorded := if fate == Committed then s.unrecorded else s.unrecorded + {e},
       phases := s.phases[token := Reporting(if fate == Committed then Q.TERM else Q.NAK)])
  }

  datatype Step =
    | QueueStep(t: Q.Step)
    | HandleStep(token: nat, fate: Fate)
    | DeadLetterStep(token: nat, fate: Fate)

  /** A worker reports what the handler came to; it may also be gone without reporting anything. */
  ghost predicate Enabled(c: Setting, s: State, t: Step) {
    match t
    case QueueStep(t) =>
      && Q.Enabled(c.queue, s.q, t)
      && (t.SettleStep? ==> t.token in s.phases && s.phases[t.token] == Reporting(t.out))
    case HandleStep(token, _) => token in s.q.workers && !s.q.workers[token].gone && token !in s.phases
    case DeadLetterStep(token, _) => token in s.q.workers && token in s.phases && s.phases[token].Failing?
  }

  ghost function After(c: Setting, s: State, t: Step): State
    requires Enabled(c, s, t)
  {
    match t
    case QueueStep(t) => s.(q := Q.After(c.queue, s.q, t))
    case HandleStep(token, fate) => Handled(c, s, token, fate)
    case DeadLetterStep(token, fate) => DeadLettered(s, token, fate)
  }

  ghost predicate Next(c: Setting, s: State, t: Step, u: State) { Enabled(c, s, t) && u == After(c, s, t) }

  ghost predicate Init(s: State) { s == State(s.q, {}, map[], {}, map[], {}) && Q.Init(s.q) }

  // ----- the invariant -----

  ghost predicate Effects(s: State) { forall e :: Q.Count(s.effects, e) == if e in s.inbox then 1 else 0 }

  ghost predicate PhaseOk(c: Setting, s: State, token: nat)
    requires token in s.phases
  {
    && token in s.q.workers && !s.q.workers[token].gone
    && match s.phases[token]
       case Failing => s.q.workers[token].attempt >= c.ownMax
       case Reporting(ACK) => TokenEvent(s, token) in s.inbox
       case Reporting(TERM) => TokenEvent(s, token) in s.dead
       case Reporting(NAK) => s.q.workers[token].attempt < c.ownMax || TokenEvent(s, token) in s.unrecorded
  }

  ghost predicate Phases(c: Setting, s: State) { forall token :: token in s.phases ==> PhaseOk(c, s, token) }

  /** A worker's message was committed once, and a worker without a message has lost it to the retention. */
  ghost predicate Workers(s: Q.State) {
    forall token :: token in s.workers ==>
      s.workers[token].num in s.h.ever && (s.workers[token].gone ==> s.workers[token].num in s.h.purged)
  }

  /** What has happened when message n leaves the queue for a reason. */
  ghost predicate Explains(c: Setting, s: State, n: nat, why: Q.Reason) {
    var e := EventOf(s.q, n);
    match why
    case Settled(ACK, _) => e in s.inbox
    case Settled(TERM, _) => e in s.dead
    case Settled(NAK, attempt) => attempt >= c.queue.maxDeliver && (attempt < c.ownMax || e in s.unrecorded)
    case GivenUp => Q.Count(s.q.h.claims, n) == c.queue.maxDeliver
    case _ => n in s.q.h.purged
  }

  ghost predicate EndOk(c: Setting, s: State, n: nat)
    requires n in s.q.h.removed
  {
    Explains(c, s, n, s.q.h.removed[n])
  }

  ghost predicate Ends(c: Setting, s: State) { forall n :: n in s.q.h.removed ==> n in s.q.h.ever && EndOk(c, s, n) }

  ghost predicate Inv(c: Setting, s: State) {
    Q.Inv(c.queue, s.q) && Effects(s) && Workers(s.q) && Phases(c, s) && Ends(c, s)
  }

  // ----- the consumer's steps -----

  /** Inbox, dead letters and failures to record only grow. */
  ghost predicate Keeps(s: State, u: State) {
    && u.q == s.q && s.inbox <= u.inbox && s.dead <= u.dead && s.unrecorded <= u.unrecorded
  }

  lemma EndsKept(c: Setting, s: State, u: State)
    requires Ends(c, s) && Keeps(s, u)
    ensures Ends(c, u)
  {
    forall n | n in u.q.h.removed ensures n in u.q.h.ever && EndOk(c, u, n) { assert EndOk(c, s, n); }
  }

  lemma PhasesKept(c: Setting, s: State, u: State, token: nat)
    requires Phases(c, s) && Keeps(s, u) && token in u.phases && PhaseOk(c, u, token)
    requires u.phases == s.phases[token := u.phases[token]]
    ensures Phases(c, u)
  {
    forall t | t in u.phases ensures PhaseOk(c, u, t) {
      if t != token { assert PhaseOk(c, s, t); }
    }
  }

  lemma AppliedOnce(s: State, e: nat)
    requires Effects(s)
    ensures Effects(Applied(s, e)) && e in Applied(s, e).inbox
  {}

  lemma HandledKept(c: Setting, s: State, token: nat, fate: Fate)
    requires Inv(c, s) && Enabled(c, s, HandleStep(token, fate))
    ensures Inv(c, Handled(c, s, token, fate))
  {
    var u := Handled(c, s, token, fate);
    EndsKept(c, s, u);
    AppliedOnce(s, TokenEvent(s, token));
    PhasesKept(c, s, u, token);
  }

  lemma DeadLetteredKept(c: Setting, s: State, token: nat, fate: Fate)
    requires Inv(c, s) && Enabled(c, s, DeadLetterStep(token, fate))
    ensures Inv(c, DeadLettered(s, token, fate))
  {
    var u := DeadLettered(s, token, fate);
    assert PhaseOk(c, s, token);
    EndsKept(c, s, u);
    PhasesKept(c, s, u, token);
  }

  // ----- the queue's steps -----

  /** A step of the queue forgets no message and no worker, and a removal stands. */
  ghost predicate QueueGrows(s: Q.State, u: Q.State) {
    && (forall n :: n in s.h.ever ==> n in u.h.ever && u.h.ever[n] == s.h.ever[n])
    && (forall t :: t in s.workers ==> t in u.workers && u.workers[t] == s.workers[t])
    && s.h.purged <= u.h.purged
    && (forall n :: n in s.h.removed ==> n in u.h.removed && u.h.removed[n] == s.h.removed[n])
    && (forall n :: n in s.h.removed ==> Q.Count(u.h.claims, n) == Q.Count(s.h.claims, n))
  }

  lemma PublishingGrows(d: Q.Durable, s: Q.State, t: Q.Step, u: Q.State)
    requires Q.Messages(s) && Q.Next(d, s, t, u) && Q.Publishing(t)
    ensures QueueGrows(s, u) && u.h.removed == s.h.removed && u.workers == s.workers
  {}

  lemma AdvancingGrows(d: Q.Durable, s: Q.State, t: Q.Step, u: Q.State)
    requires Q.Next(d, s, t, u) && Q.Advancing(t)
    ensures QueueGrows(s, u)
  {}

  lemma WorkingGrows(d: Q.Durable, s: Q.State, t: Q.Step, u: Q.State)
    requires Q.Deliveries(d, s) && Q.Next(d, s, t, u) && Q.Working(t)
    ensures QueueGrows(s, u)
  {}

  lemma UpkeepGrows(d: Q.Durable, s: Q.State, t: Q.Step, u: Q.State)
    requires Q.Deliveries(d, s) && Q.Next(d, s, t, u) && Q.Upkeep(t)
    ensures QueueGrows(s, u)
  {}

  lemma StepGrows(d: Q.Durable, s: Q.State, t: Q.Step, u: Q.State)
    requires Q.Messages(s) && Q.Deliveries(d, s) && Q.Next(d, s, t, u)
    ensures QueueGrows(s, u)
  {
    if Q.Publishing(t) {
      PublishingGrows(d, s, t, u);
    } else if Q.Advancing(t) {
      AdvancingGrows(d, s, t, u);
    } else if Q.Working(t) {
      WorkingGrows(d, s, t, u);
    } else {
      UpkeepGrows(d, s, t, u);
    }
  }

  lemma WorkersKept(d: Q.Durable, s: Q.State, t: Q.Step, u: Q.State)
    requires Q.Inv(d, s) && Workers(s) && Q.Next(d, s, t, u) && QueueGrows(s, u)
    ensures Workers(u)
  {
    forall token | token in u.workers && token !in s.workers
      ensures u.workers[token].num in u.h.ever && (u.workers[token].gone ==> u.workers[token].num in u.h.purged)
    {
      assert t.ClaimStep? && u == Q.Claim(s, t.q, token, t.lease);
    }
  }

  lemma PhasesThrough(c: Setting, s: State, u: State)
    requires Phases(c, s) && Workers(s.q) && QueueGrows(s.q, u.q) && u == s.(q := u.q)
    ensures Phases(c, u)
  {
    forall t | t in u.phases ensures PhaseOk(c, u, t) { assert PhaseOk(c, s, t); }
  }

  lemma OldEnds(c: Setting, s: State, u: State, n: nat)
    requires Ends(c, s) && QueueGrows(s.q, u.q) && u == s.(q := u.q) && n in s.q.h.removed
    ensures n in u.q.h.ever && EndOk(c, u, n)
  {
    assert EndOk(c, s, n);
  }

  lemma SettledExplains(c: Setting, s: State, token: nat)
    requires Phases(c, s) && token in s.phases && s.phases[token].Reporting?
    requires s.phases[token].out == Q.NAK ==> s.q.workers[token].attempt >= c.queue.maxDeliver
    ensures token in s.q.workers && var w := s.q.workers[token];
      Explains(c, s, w.num, Q.Settled(s.phases[token].out, w.attempt))
  {
    assert PhaseOk(c, s, token);
  }

  lemma GivenUpExplains(c: Setting, s: State, n: nat)
    requires Q.Leases(c.queue, s.q) && n in s.q.rows && s.q.rows[n].attempts >= c.queue.maxDeliver
    ensures Explains(c, s, n, Q.GivenUp)
  {
    assert Q.LeaseOk(c.queue, s.q, n);
    assert Q.Count(s.q.h.claims, n) <= c.queue.maxDeliver;
  }

  lemma ExplainsThrough(c: Setting, s: State, u: State, n: nat, why: Q.Reason)
    requires Explains(c, s, n, why) && QueueGrows(s.q, u.q) && u == s.(q := u.q) && n in s.q.h.ever
    requires u.q.h.claims == s.q.h.claims
    ensures Explains(c, u, n, why)
  {}

  lemma RemovedRow(d: Q.Durable, s: Q.State, t: Q.Step, u: Q.State, n: nat)
    requires Q.Deliveries(d, s) && Q.Next(d, s, t, u) && n in u.h.removed && n !in s.h.removed
    ensures n in s.rows && n in s.h.ever && u.h.ever == s.h.ever && u.h.claims == s.h.claims
    ensures match t
      case SettleStep(token, out, _) =>
        s.workers[token].num == n && u.h.removed[n] == Q.Settled(out, s.workers[token].attempt)
        && (out == Q.NAK ==> s.workers[token].attempt >= d.maxDeliver)
      case DropStep(token) => s.workers[token].num == n && u.h.removed[n] == Q.Dropped
      case GiveUpStep(_) => u.h.removed[n] == Q.GivenUp && s.rows[n].attempts >= d.maxDeliver
      case PurgeStep(_) => u.h.removed[n] == Q.Purged && n in u.h.purged
      case _ => false
  {}

  /** A delivery leaves the queue by the outcome a worker reported, or for one of the queue's own reasons. */
  lemma NewEnd(c: Setting, s: State, t: Q.Step, u: State, n: nat)
    requires Inv(c, s) && Next(c, s, QueueStep(t), u) && QueueGrows(s.q, u.q)
    requires n in u.q.h.removed && n !in s.q.h.removed
    ensures n in u.q.h.ever && EndOk(c, u, n)
  {
    RemovedRow(c.queue, s.q, t, u.q, n);
    if t.SettleStep? {
      SettledExplains(c, s, t.token);
      ExplainsThrough(c, s, u, n, u.q.h.removed[n]);
    } else if t.GiveUpStep? {
      GivenUpExplains(c, s, n);
      ExplainsThrough(c, s, u, n, u.q.h.removed[n]);
    }
  }

  lemma QueueKept(c: Setting, s: State, t: Q.Step, u: State)
    requires c.queue.maxDeliver > 0 && Inv(c, s) && Next(c, s, QueueStep(t), u)
    ensures Inv(c, u)
  {
    Q.InvKept(c.queue, s.q, t, u.q);
    StepGrows(c.queue, s.q, t, u.q);
    WorkersKept(c.queue, s.q, t, u.q);
    PhasesThrough(c, s, u);
    forall n | n in u.q.h.removed ensures n in u.q.h.ever && EndOk(c, u, n) {
      if n in s.q.h.removed { OldEnds(c, s, u, n); } else { NewEnd(c, s, t, u, n); }
    }
  }
}
