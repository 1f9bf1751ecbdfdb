/** From the business transaction to the handler: an outbox partition, the queue and a consumer together. */
module EventFlow {
  import O = Outbox
  import OutboxRuns
  import P = Pipeline
  import PipelineRuns
  import Q = Queue

  datatype State = State(o: O.State, p: P.State)

  datatype Step = OutboxStep(o: O.Step) | PipelineStep(p: P.Step)

  /** The event ID of a numbered row. */
  type Events = O.Given -> nat

  ghost predicate InQueue(q: Q.State, id: nat) { exists n :: n in q.h.ever && q.h.ever[n].id == id }

  /** The insert's commit is the acknowledgement of a publication: the message is committed, or was there already. */
  ghost predicate Sends(events: Events, s: State, t: O.Step) {
    t.PublishStep? || t.LostAckStep? ==>
      t.f in s.o.forwarders &&
        var w := s.o.forwarders[t.f]; w.done < |w.batch| && InQueue(s.p.q, events(w.batch[w.done]))
  }

  ghost predicate Next(c: P.Setting, events: Events, s: State, t: Step, u: State) {
    match t
    case OutboxStep(t) => O.Next(s.o, t, u.o) && u.p == s.p && Sends(events, s, t)
    case PipelineStep(t) => P.Next(c, s.p, t, u.p) && u.o == s.o
  }

  ghost predicate Init(s: State) { O.Init(s.o) && P.Init(s.p) }

  ghost predicate IsRun(c: P.Setting, events: Events, ss: seq<State>, ts: seq<Step>) {
    |ss| == |ts| + 1 && Init(ss[0]) && forall i :: 0 <= i < |ts| ==> StepAt(c, events, ss, ts, i)
  }

  ghost predicate StepAt(c: P.Setting, events: Events, ss: seq<State>, ts: seq<Step>, i: nat)
    requires |ss| == |ts| + 1 && i < |ts|
  {
    Next(c, events, ss[i], ts[i], ss[i + 1])
  }

  ghost predicate Inv(c: P.Setting, events: Events, s: State) {
    OutboxRuns.Inv(s.o) && P.Inv(c, s.p) && forall g :: g in s.o.log ==> InQueue(s.p.q, events(g))
  }

  lemma StillInQueue(c: P.Setting, p: P.State, t: P.Step, u: P.State, id: nat)
    requires P.Inv(c, p) && P.Next(c, p, t, u) && InQueue(p.q, id)
    ensures InQueue(u.q, id)
  {
    var n :| n in p.q.h.ever && p.q.h.ever[n].id == id;
    if t.QueueStep? { P.StepGrows(c.queue, p.q, t.t, u.q); }
    assert u.q.h.ever[n].id == id;
  }

  /** The log grows only by what a forwarder sends. */
  lemma LogGrows(s: O.State, t: O.Step, u: O.State, g: O.Given)
    requires O.Next(s, t, u) && g in u.log && g !in s.log
    ensures (t.PublishStep? || t.LostAckStep?) && t.f in s.forwarders
    ensures s.forwarders[t.f].done < |s.forwarders[t.f].batch| && g == s.forwarders[t.f].batch[s.forwarders[t.f].done]
  {}

  lemma InvKept(c: P.Setting, events: Events, s: State, t: Step, u: State)
    requires c.queue.maxDeliver > 0 && Inv(c, events, s) && Next(c, events, s, t, u)
    ensures Inv(c, events, u)
  {
    match t
    case OutboxStep(t) =>
      OutboxRuns.InvKept(s.o, t, u.o);
      forall g | g in u.o.log ensures InQueue(u.p.q, events(g)) {
        if g !in s.o.log { LogGrows(s.o, t, u.o, g); }
      }
    case PipelineStep(t) =>
      PipelineRuns.InvKept(c, s.p, t, u.p);
      forall g | g in u.o.log ensures InQueue(u.p.q, events(g)) { StillInQueue(c, s.p, t, u.p, events(g)); }
  }

  lemma InitInv(c: P.Setting, events: Events, s: State)
    requires Init(s)
    ensures Inv(c, events, s)
  {
    Q.InitInv(c.queue, s.p.q);
  }

  lemma {:induction false} RunInv(c: P.Setting, events: Events, ss: seq<State>, ts: seq<Step>, i: nat)
    requires c.queue.maxDeliver > 0 && IsRun(c, events, ss, ts) && i <= |ts|
    ensures Inv(c, events, ss[i])
  {
    if i == 0 {
      InitInv(c, events, ss[0]);
    } else {
      RunInv(c, events, ss, ts, i - 1);
      assert StepAt(c, events, ss, ts, i - 1);
      InvKept(c, events, ss[i - 1], ts[i - 1], ss[i]);
    }
  }

  /** End to end, over every interleaving of emitters, forwarders, publishing transactions, queue workers, crashes,
      redeliveries, failovers and restores: an event's row leaves the outbox's duty (published or purged) only when its
      message is in the queue; and wherever the subscription's position has passed a matching message of it, the message
      waits for its settlement, or its effect is committed exactly once, or a dead letter records it, or it is one of
      the named exceptions. */
  lemma EndToEnd(c: P.Setting, events: Events, ss: seq<State>, ts: seq<Step>, g: O.Given)
    requires c.queue.maxDeliver > 0 && c.ownMax <= c.queue.maxDeliver && IsRun(c, events, ss, ts)
    requires g in ss[|ts|].o.db.lineage
    requires g.ord !in ss[|ts|].o.db.rows || ss[|ts|].o.db.rows[g.ord].published
    ensures var s := ss[|ts|];
      && InQueue(s.p.q, events(g)) && Q.Count(s.p.effects, events(g)) <= 1
      && forall n :: n in s.p.q.h.ever && s.p.q.h.ever[n].id == events(g) && PipelineRuns.Passed(c, s.p, n) ==>
        PipelineRuns.Accounted(c, s.p, n)
  {
    var s := ss[|ts|];
    RunInv(c, events, ss, ts, |ts|);
    forall n | PipelineRuns.Passed(c, s.p, n) ensures PipelineRuns.Accounted(c, s.p, n) {
      PipelineRuns.PassedAccounted(c, s.p, n);
    }
  }
}
