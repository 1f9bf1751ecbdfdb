/** Leases and delays of deliveries over every run of a durable, said on the stored rows. Instants are what the steps
    read from the database's clock. */
module QueueTime {
  import opened Wrappers
  import opened Queue
  import opened QueueSafety

  // ----- a lease -----

  /** Delivery q is in flight under the token until the lease runs out. */
  predicate Leased(s: State, q: nat, token: nat, lease: int) {
    && token in s.workers && s.workers[token].num == q && q in s.rows
    && s.rows[q].inFlight && s.rows[q].token == token && s.rows[q].leaseUntil == lease
  }

  /** The step is not the holder's own and not a purge of the message, and what it reads of the clock is not past the
      lease. */
  predicate Undisturbed(t: Step, q: nat, token: nat, lease: int) {
    match t
    case ClaimStep(_, now, _, _, _) => now <= lease
    case GiveUpStep(now) => now <= lease
    case SettleStep(who, _, _) => who != token
    case DropStep(who) => who != token
    case ProgressStep(who, _) => who != token
    case PurgeStep(aged) => q !in aged
    case _ => true
  }

  lemma LeaseKept(d: Durable, s: State, t: Step, u: State, q: nat, token: nat, lease: int)
    requires Next(d, s, t, u) && Leased(s, q, token, lease) && Undisturbed(t, q, token, lease)
    ensures Leased(u, q, token, lease) && u.rows[q] == s.rows[q]
    ensures t.ClaimStep? ==> t.q != q
  {}

  /** A claim of q, or a renewal by its holder, that sets the lease. */
  predicate SetsLease(s: State, t: Step, q: nat, token: nat, lease: int) {
    || (t.ClaimStep? && t.q == q && t.token == token && t.lease == lease)
    || (t.ProgressStep? && t.token == token && t.lease == lease && token in s.workers && s.workers[token].num == q
        && q in s.rows && s.rows[q].inFlight && s.rows[q].token == token)
  }

  lemma LeaseSet(d: Durable, s: State, t: Step, u: State, q: nat, token: nat, lease: int)
    requires Next(d, s, t, u) && SetsLease(s, t, q, token, lease)
    ensures Leased(u, q, token, lease)
  {}

  /** From a claim or a renewal with a lease on, and as long as no claim and no upkeep comes after the lease's end, the
      delivery stays with its holder, whatever all others do: nobody else claims it, its row does not change, and only
      the holder's own outcome, drop or renewal, or the retention, ends that. */
  lemma {:induction false} LeaseHolds(d: Durable, ss: seq<State>, ts: seq<Step>, i: nat, j: nat, q: nat, token: nat,
      lease: int)
    requires IsRun(d, ss, ts) && i < j <= |ts| && SetsLease(ss[i], ts[i], q, token, lease)
    requires forall k :: i < k < j ==> Undisturbed(ts[k], q, token, lease)
    ensures Leased(ss[j], q, token, lease) && q in ss[i + 1].rows && ss[j].rows[q] == ss[i + 1].rows[q]
    ensures j < |ts| && ts[j].ClaimStep? && ts[j].q == q ==> lease < ts[j].now
    ensures j < |ts| && ts[j].GiveUpStep? && q !in ss[j + 1].rows ==> lease < ts[j].now
    decreases j
  {
    if j == i + 1 {
      assert StepAt(d, ss, ts, i);
      LeaseSet(d, ss[i], ts[i], ss[j], q, token, lease);
    } else {
      LeaseHolds(d, ss, ts, i, j - 1, q, token, lease);
      assert StepAt(d, ss, ts, j - 1);
      LeaseKept(d, ss[j - 1], ts[j - 1], ss[j], q, token, lease);
    }
    if j < |ts| { assert StepAt(d, ss, ts, j); }
  }

  // ----- a delay -----

  /** Delivery q waits until an instant. */
  predicate Waits(s: State, q: nat, until: int) { q in s.rows && !s.rows[q].inFlight && s.rows[q].notBefore == until }

  /** The delivery is queued, or its holder's outcome puts it back for another attempt. */
  predicate SetsDelay(d: Durable, s: State, t: Step, q: nat, until: int) {
    || (t.QueueStep? && t.now == until && q !in s.rows && s.batch.Some?
        && exists i :: 0 <= i < |s.batch.value.items| && s.batch.value.items[i].num == q
                       && d.matches(s.batch.value.items[i].m.subject))
    || (t.SettleStep? && t.out == NAK && t.notBefore == until && t.token in s.workers && s.workers[t.token].num == q
        && s.workers[t.token].attempt < d.maxDeliver
        && q in s.rows && s.rows[q].inFlight && s.rows[q].token == t.token)
  }

  lemma DelaySet(d: Durable, s: State, t: Step, u: State, q: nat, until: int)
    requires Next(d, s, t, u) && SetsDelay(d, s, t, q, until)
    ensures Waits(u, q, until)
  {}

  lemma DelayKept(d: Durable, s: State, t: Step, u: State, q: nat, until: int)
    requires Next(d, s, t, u) && Waits(s, q, until)
    requires !(t.ClaimStep? && t.q == q) && !(t.PurgeStep? && q in t.aged)
    ensures Waits(u, q, until) && u.rows[q] == s.rows[q]
  {}

  /** A delivery that is queued, or put back after a failed attempt, waits for its time: until it is claimed, or taken
      by the retention, it stays as it is, and no claim of it comes before that time. */
  lemma {:induction false} DelayHolds(d: Durable, ss: seq<State>, ts: seq<Step>, i: nat, j: nat, q: nat, until: int)
    requires IsRun(d, ss, ts) && i < j <= |ts| && SetsDelay(d, ss[i], ts[i], q, until)
    requires forall k :: i < k < j ==> !(ts[k].ClaimStep? && ts[k].q == q) && !(ts[k].PurgeStep? && q in ts[k].aged)
    ensures Waits(ss[j], q, until)
    ensures j < |ts| && ts[j].ClaimStep? && ts[j].q == q ==> until <= ts[j].now
    decreases j
  {
    if j == i + 1 {
      assert StepAt(d, ss, ts, i);
      DelaySet(d, ss[i], ts[i], ss[j], q, until);
    } else {
      DelayHolds(d, ss, ts, i, j - 1, q, until);
      assert StepAt(d, ss, ts, j - 1);
      DelayKept(d, ss[j - 1], ts[j - 1], ss[j], q, until);
    }
    if j < |ts| { assert StepAt(d, ss, ts, j); }
  }

  // ----- the last attempt -----

  /** Upkeep gives a delivery up only after all its attempts: whatever it removes was claimed as often as allowed, and
      the last lease has run out. */
  lemma GivenUpAtLast(d: Durable, ss: seq<State>, ts: seq<Step>, i: nat, q: nat)
    requires d.maxDeliver > 0 && IsRun(d, ss, ts) && i < |ts| && ts[i].GiveUpStep?
    requires q in ss[i].rows && q !in ss[i + 1].rows
    ensures Count(ss[i].h.claims, q) == d.maxDeliver && ss[i].rows[q].inFlight && ss[i].rows[q].leaseUntil < ts[i].now
  {
    RunInv(d, ss, ts, i);
    assert StepAt(d, ss, ts, i);
    assert LeaseOk(d, ss[i], q);
  }

  // ----- what an advance reads -----

  /** A message that the position has not passed, written by a transaction below the snapshot's xmin. */
  predicate Pending(s: State, xmin: nat, q: nat) {
    && q in s.messages && s.messages[q].xid < xmin
    && (s.pos.xid < s.messages[q].xid || (s.pos.xid == s.messages[q].xid && s.pos.num < q))
  }

  /** By transaction, and by number within one. */
  predicate Earlier(i: Item, j: Item) { i.m.xid < j.m.xid || (i.m.xid == j.m.xid && i.num < j.num) }

  /** An advance reads exactly the first messages past the position and below xmin, in the order of their transactions,
      up to 500 and at least one. */
  lemma AdvanceExactly(s: State, xmin: nat, items: seq<Item>)
    ensures IsBatch(s, xmin, items) <==>
      && 1 <= |items| <= 500 && (forall i, j :: 0 <= i < j < |items| ==> Earlier(items[i], items[j]))
      && (forall x :: x in items ==> Pending(s, xmin, x.num) && x.m == s.messages[x.num])
      && forall q :: Pending(s, xmin, q) ==>
        Item(q, s.messages[q]) in items || (|items| == 500 && Earlier(items[499], Item(q, s.messages[q])))
  {
    forall q ensures Unread(s, xmin, q) <==> Pending(s, xmin, q) {}
    forall i, j | 0 <= i < j < |items| ensures Queue.Before(PlaceOf(items[i].num, items[i].m),
      PlaceOf(items[j].num, items[j].m)) <==> Earlier(items[i], items[j])
    {}
  }
}
