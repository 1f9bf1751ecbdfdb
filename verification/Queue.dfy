/** One durable subscription of the PostgreSQL queue (besdk/events/pgqueue.py) as steps over the publishing
    transactions, the messages, the read position and the deliveries. Every SQL transaction is one step, except that a
    read of the messages and the queueing of what it read are two, as others commit and purge between them. */
module Queue {
  import opened Wrappers

  /** A message's id is its event's. */
  datatype Message = Message(xid: nat, id: nat, subject: string)

  /** A place in the read order. */
  datatype Place = Place(xid: nat, num: nat)

  predicate Before(a: Place, b: Place) { a.xid < b.xid || (a.xid == b.xid && a.num < b.num) }

  datatype Delivery = Delivery(attempts: nat, inFlight: bool, notBefore: int, leaseUntil: int, token: nat)

  datatype Item = Item(num: nat, m: Message)

  /** What an advance has read and not queued yet, below a snapshot's xmin. */
  datatype Batch = Batch(xmin: nat, items: seq<Item>)

  /** What a worker holds under a token: a delivery's message, or only the duty to drop it when its message is gone. */
  datatype Held = Held(num: nat, attempt: nat, gone: bool)

  datatype Outcome = ACK | NAK | TERM

  datatype Reason = Settled(out: Outcome, attempt: nat) | GivenUp | Dropped | Purged

  /** What happened, for the properties: every message ever committed, and for each the decisions taken on it. */
  datatype History = History(ever: map<nat, Message>, purged: set<nat>, considered: set<nat>, queued: map<nat, nat>,
                             claims: map<nat, nat>, removed: map<nat, Reason>)

  datatype State = State(nextXid: nat, open: set<nat>, pending: map<nat, Message>, messages: map<nat, Message>,
                         pos: Place, batch: Option<Batch>, rows: map<nat, Delivery>, workers: map<nat, Held>,
                         h: History)

  /** The stored settings of the durable, and what its instances set. */
  datatype Durable = Durable(matches: string -> bool, maxDeliver: nat, ordered: bool)

  const ADVANCE_BATCH := 500

  function PlaceOf(num: nat, m: Message): Place { Place(m.xid, num) }

  function Count(m: map<nat, nat>, q: nat): nat { if q in m then m[q] else 0 }

  ghost predicate Init(s: State) {
    s == State(1, {}, map[], map[], Place(0, 0), None, map[], map[], History(map[], {}, {}, map[], map[], map[]))
  }

  // ----- publishing transactions -----

  function Begin(s: State): State { s.(open := s.open + {s.nextXid}, nextXid := s.nextXid + 1) }

  /** A repeated id is a no-op while its message is there. */
  predicate CanInsert(s: State, x: nat, num: nat, id: nat) {
    && x in s.open && num !in s.pending && num !in s.h.ever
    && (forall q :: q in s.pending ==> s.pending[q].id != id)
    && (forall q :: q in s.messages ==> s.messages[q].id != id)
  }

  /** The identity column gives any number not given before: transactions draw numbers in any order. */
  function Insert(s: State, x: nat, num: nat, id: nat, subject: string): State {
    s.(pending := s.pending[num := Message(x, id, subject)])
  }

  function Commit(s: State, x: nat): State {
    var mine := map q | q in s.pending && s.pending[q].xid == x :: s.pending[q];
    s.(open := s.open - {x}, pending := s.pending - mine.Keys, messages := s.messages + mine,
       h := s.h.(ever := s.h.ever + mine))
  }

  function Rollback(s: State, x: nat): State {
    s.(open := s.open - {x}, pending := map q | q in s.pending && s.pending[q].xid != x :: s.pending[q])
  }

  // ----- moving the read position (_advance) -----

  /** No transaction below the snapshot's xmin is still open, nor will one begin. */
  predicate IsXmin(s: State, xmin: nat) { xmin <= s.nextXid && forall x :: x in s.open ==> xmin <= x }

  predicate Unread(s: State, xmin: nat, q: nat) {
    q in s.messages && Before(s.pos, PlaceOf(q, s.messages[q])) && s.messages[q].xid < xmin
  }

  ghost predicate InOrder(items: seq<Item>) {
    forall i, j :: 0 <= i < j < |items| ==> Before(PlaceOf(items[i].num, items[i].m), PlaceOf(items[j].num, items[j].m))
  }

  /** The first unread messages below xmin in the read order, as many as a batch takes. */
  ghost predicate IsBatch(s: State, xmin: nat, items: seq<Item>) {
    && items != [] && |items| <= ADVANCE_BATCH && InOrder(items)
    && (forall i :: 0 <= i < |items| ==> Unread(s, xmin, items[i].num) && items[i].m == s.messages[items[i].num])
    && forall q :: Unread(s, xmin, q) ==>
      || Item(q, s.messages[q]) in items
      || (|items| == ADVANCE_BATCH && Before(Last(items), PlaceOf(q, s.messages[q])))
  }

  function Last(items: seq<Item>): Place
    requires items != []
  {
    PlaceOf(items[|items| - 1].num, items[|items| - 1].m)
  }

  function Read(s: State, xmin: nat, items: seq<Item>): State { s.(batch := Some(Batch(xmin, items))) }

  function Abandon(s: State): State { s.(batch := None) }

  function Seqs(items: seq<Item>): set<nat> { set i | 0 <= i < |items| :: items[i].num }

  function Wanted(d: Durable, items: seq<Item>): set<nat> {
    set i | 0 <= i < |items| && d.matches(items[i].m.subject) :: items[i].num
  }

  /** A delivery for every matching message read, none over an existing one, and the position on the last read. */
  function QueueBatch(d: Durable, s: State, now: int): State
    requires s.batch.Some? && s.batch.value.items != []
  {
    var items := s.batch.value.items;
    var added := Wanted(d, items) - s.rows.Keys;
    s.(rows := map q | q in s.rows.Keys + added :: if q in s.rows then s.rows[q] else Delivery(0, false, now, 0, 0),
       pos := Last(items), batch := None,
       h := s.h.(considered := s.h.considered + Seqs(items),
                 queued := map q | q in s.h.queued.Keys + added ::
                   Count(s.h.queued, q) + (if q in added then 1 else 0)))
  }

  // ----- claims -----

  predicate Due(d: Durable, r: Delivery, now: int) {
    if r.inFlight then r.leaseUntil < now && r.attempts < d.maxDeliver else r.notBefore <= now
  }

  /** The lowest due delivery that no other claim has locked; for an ordered durable the lowest of all, when due. */
  ghost predicate Claims(d: Durable, s: State, now: int, locked: set<nat>, q: nat) {
    && q in s.rows && Due(d, s.rows[q], now)
    && if d.ordered then forall p :: p in s.rows ==> q <= p
       else q !in locked && forall p :: p in s.rows && p !in locked && Due(d, s.rows[p], now) ==> q <= p
  }

  function Claim(s: State, q: nat, token: nat, lease: int): State
    requires q in s.rows
  {
    var r := s.rows[q];
    s.(rows := s.rows[q := r.(inFlight := true, attempts := r.attempts + 1, token := token, leaseUntil := lease)],
       workers := s.workers[token := Held(q, r.attempts + 1, q !in s.messages)],
       h := s.h.(claims := s.h.claims[q := Count(s.h.claims, q) + 1]))
  }

  // ----- what a worker does under its token -----

  predicate Current(s: State, token: nat) {
    token in s.workers && var q := s.workers[token].num; q in s.rows && s.rows[q].inFlight && s.rows[q].token == token
  }

  function Remove(s: State, qs: set<nat>, why: Reason): State {
    var gone := qs * s.rows.Keys;
    s.(rows := s.rows - gone,
       h := s.h.(removed := map q | q in s.h.removed.Keys + gone :: if q in gone then why else s.h.removed[q]))
  }

  /** The handler's outcome: the delivery ends, or waits for its next attempt. */
  function Settle(d: Durable, s: State, token: nat, out: Outcome, notBefore: int): State
    requires token in s.workers
  {
    var w := s.workers[token];
    if !Current(s, token) then s
    else if out != NAK || w.attempt >= d.maxDeliver then Remove(s, {w.num}, Settled(out, w.attempt))
    else s.(rows := s.rows[w.num := s.rows[w.num].(inFlight := false, token := 0, notBefore := notBefore)])
  }

  function DropGone(s: State, token: nat): State
    requires token in s.workers
  {
    if Current(s, token) then Remove(s, {s.workers[token].num}, Dropped) else s
  }

  function InProgress(s: State, token: nat, lease: int): State
    requires token in s.workers
  {
    if !Current(s, token) then s
    else var q := s.workers[token].num; s.(rows := s.rows[q := s.rows[q].(leaseUntil := lease)])
  }

  // ----- upkeep -----

  function Exhausted(d: Durable, s: State, now: int): set<nat> {
    set q | q in s.rows && s.rows[q].inFlight && s.rows[q].leaseUntil < now && s.rows[q].attempts >= d.maxDeliver
  }

  function GiveUp(d: Durable, s: State, now: int): State {
    Remove(s, Exhausted(d, s, now), GivenUp)
  }

  /** The retention takes messages, read or not, with their deliveries. */
  function Purge(s: State, aged: set<nat>): State {
    var gone := aged * s.messages.Keys;
    var t := Remove(s, gone, Purged);
    t.(messages := s.messages - gone, h := t.h.(purged := s.h.purged + gone))
  }

  // ----- runs -----

  datatype Step =
    | BeginStep
    | InsertStep(x: nat, num: nat, id: nat, subject: string)
    | CommitStep(x: nat)
    | RollbackStep(x: nat)
    | ReadStep(xmin: nat, items: seq<Item>)
    | AbandonStep
    | QueueStep(now: int)
    | ClaimStep(q: nat, now: int, locked: set<nat>, token: nat, lease: int)
    | DropStep(token: nat)
    | SettleStep(token: nat, out: Outcome, notBefore: int)
    | ProgressStep(token: nat, lease: int)
    | GiveUpStep(now: int)
    | PurgeStep(aged: set<nat>)

  ghost predicate Enabled(d: Durable, s: State, t: Step) {
    match t
    case InsertStep(x, num, id, _) => CanInsert(s, x, num, id)
    case CommitStep(x) => x in s.open
    case RollbackStep(x) => x in s.open
    case ReadStep(xmin, items) => s.batch.None? && IsXmin(s, xmin) && IsBatch(s, xmin, items)
    case QueueStep(_) => s.batch.Some? && s.batch.value.items != []
    case ClaimStep(q, now, locked, token, _) => token !in s.workers && Claims(d, s, now, locked, q)
    case DropStep(token) => token in s.workers && s.workers[token].gone
    case SettleStep(token, _, _) => token in s.workers && !s.workers[token].gone
    case ProgressStep(token, _) => token in s.workers && !s.workers[token].gone
    case _ => true
  }

  ghost function After(d: Durable, s: State, t: Step): State
    requires Enabled(d, s, t)
  {
    match t
    case BeginStep => Begin(s)
    case InsertStep(x, num, id, subject) => Insert(s, x, num, id, subject)
    case CommitStep(x) => Commit(s, x)
    case RollbackStep(x) => Rollback(s, x)
    case ReadStep(xmin, items) => Read(s, xmin, items)
    case AbandonStep => Abandon(s)
    case QueueStep(now) => QueueBatch(d, s, now)
    case ClaimStep(q, _, _, token, lease) => Claim(s, q, token, lease)
    case DropStep(token) => DropGone(s, token)
    case SettleStep(token, out, notBefore) => Settle(d, s, token, out, notBefore)
    case ProgressStep(token, lease) => InProgress(s, token, lease)
    case GiveUpStep(now) => GiveUp(d, s, now)
    case PurgeStep(aged) => Purge(s, aged)
  }

  ghost predicate Next(d: Durable, s: State, t: Step, u: State) { Enabled(d, s, t) && u == After(d, s, t) }

  // ----- the invariant -----

  /** Transactions, the messages they wrote, and what the retention took. */
  ghost predicate Messages(s: State) {
    && s.nextXid > 0
    && (forall x :: x in s.open ==> 0 < x < s.nextXid)
    && (forall q :: q in s.pending ==> s.pending[q].xid in s.open && q !in s.h.ever)
    && (forall q :: q in s.h.ever ==> 0 < s.h.ever[q].xid < s.nextXid && s.h.ever[q].xid !in s.open)
    && (forall q :: q in s.h.ever ==> (q in s.messages <==> q !in s.h.purged))
    && (forall q :: q in s.messages ==> q in s.h.ever && s.messages[q] == s.h.ever[q])
    && s.h.purged <= s.h.ever.Keys
  }

  ghost predicate ReadSoFar(s: State, to: Place, taken: set<nat>) {
    forall q :: q in s.h.ever && !Before(to, PlaceOf(q, s.h.ever[q])) ==> q in taken || q in s.h.purged
  }

  /** The position lies below every open transaction, and so does what a batch is about to move it to. */
  ghost predicate Position(s: State) {
    && s.pos.xid < s.nextXid && (forall x :: x in s.open ==> s.pos.xid < x)
    && ReadSoFar(s, s.pos, s.h.considered)
    && (forall q :: q in s.h.considered ==> q in s.h.ever && !Before(s.pos, PlaceOf(q, s.h.ever[q])))
  }

  ghost predicate Reading(s: State) {
    s.batch.Some? ==>
      var b := s.batch.value;
      && b.items != [] && IsXmin(s, b.xmin) && InOrder(b.items)
      && (forall i :: 0 <= i < |b.items| ==>
          && b.items[i].m.xid < b.xmin && b.items[i].num in s.h.ever && b.items[i].m == s.h.ever[b.items[i].num]
          && Before(s.pos, PlaceOf(b.items[i].num, b.items[i].m)))
      && ReadSoFar(s, Last(b.items), s.h.considered + Seqs(b.items))
  }

  ghost predicate Matching(d: Durable, s: State, q: nat) { q in s.h.ever && d.matches(s.h.ever[q].subject) }

  /** A considered message is queued once when it matches; its delivery is there or was removed for a reason. */
  ghost predicate Deliveries(d: Durable, s: State) {
    && (forall q :: Count(s.h.queued, q) == if q in s.h.considered && Matching(d, s, q) then 1 else 0)
    && (forall q :: q in s.rows || q in s.h.removed <==> q in s.h.considered && Matching(d, s, q))
    && (forall q :: !(q in s.rows && q in s.h.removed))
  }

  ghost predicate LeaseOk(d: Durable, s: State, q: nat)
    requires q in s.rows
  {
    var r := s.rows[q];
    && Count(s.h.claims, q) == r.attempts
    && (r.inFlight ==> r.attempts <= d.maxDeliver && r.token in s.workers && s.workers[r.token].num == q
                       && s.workers[r.token].attempt == r.attempts)
    && (!r.inFlight ==> r.attempts < d.maxDeliver)
  }

  /** Attempts are claims; a delivery in flight is held by the worker with its token. */
  ghost predicate Leases(d: Durable, s: State) {
    && (forall q :: q in s.rows ==> LeaseOk(d, s, q))
    && (forall q :: Count(s.h.claims, q) <= d.maxDeliver)
    && (forall q :: q !in s.h.considered ==> Count(s.h.claims, q) == 0)
  }

  ghost predicate Inv(d: Durable, s: State) {
    Messages(s) && Position(s) && Reading(s) && Deliveries(d, s) && Leases(d, s)
  }

  lemma InitInv(d: Durable, s: State)
    requires Init(s)
    ensures Inv(d, s)
  {}

  predicate Publishing(t: Step) { t.BeginStep? || t.InsertStep? || t.CommitStep? || t.RollbackStep? }

  predicate Advancing(t: Step) { t.ReadStep? || t.AbandonStep? || t.QueueStep? }

  predicate Upkeep(t: Step) { t.GiveUpStep? || t.PurgeStep? }

  predicate Working(t: Step) { t.ClaimStep? || t.DropStep? || t.SettleStep? || t.ProgressStep? }

  lemma MessagesWritten(d: Durable, s: State, t: Step, u: State)
    requires Messages(s) && Next(d, s, t, u) && (t.BeginStep? || t.InsertStep?)
    ensures Messages(u)
  {}

  lemma MessagesEnded(d: Durable, s: State, t: Step, u: State)
    requires Messages(s) && Next(d, s, t, u) && (t.CommitStep? || t.RollbackStep?)
    ensures Messages(u)
  {}

  lemma MessagesElse(d: Durable, s: State, t: Step, u: State)
    requires Messages(s) && Next(d, s, t, u) && !Publishing(t)
    ensures Messages(u)
  {
    if t.PurgeStep? {
      MessagesPurged(s, t.aged);
    } else {
      assert u.h.ever == s.h.ever && u.h.purged == s.h.purged && u.messages == s.messages && u.pending == s.pending;
    }
  }

  lemma MessagesPurged(s: State, aged: set<nat>)
    requires Messages(s)
    ensures Messages(Purge(s, aged))
  {}

  lemma PositionPublished(d: Durable, s: State, t: Step, u: State)
    requires Messages(s) && Position(s) && Next(d, s, t, u) && Publishing(t)
    ensures Position(u)
  {}

  lemma PositionAdvanced(d: Durable, s: State, t: Step, u: State)
    requires Messages(s) && Position(s) && Reading(s) && Next(d, s, t, u) && Advancing(t)
    ensures Position(u)
  {}

  lemma PositionElse(d: Durable, s: State, t: Step, u: State)
    requires Messages(s) && Position(s) && Next(d, s, t, u) && !Publishing(t) && !Advancing(t)
    ensures Position(u)
  {}

  lemma ReadingPublished(d: Durable, s: State, t: Step, u: State)
    requires Messages(s) && Position(s) && Reading(s) && Next(d, s, t, u) && Publishing(t)
    ensures Reading(u)
  {}

  lemma ReadingAdvanced(d: Durable, s: State, t: Step, u: State)
    requires Messages(s) && Position(s) && Reading(s) && Next(d, s, t, u) && Advancing(t)
    ensures Reading(u)
  {}

  lemma ReadingElse(d: Durable, s: State, t: Step, u: State)
    requires Messages(s) && Reading(s) && Next(d, s, t, u) && !Publishing(t) && !Advancing(t)
    ensures Reading(u)
  {}

  lemma DeliveriesPublished(d: Durable, s: State, t: Step, u: State)
    requires Messages(s) && Position(s) && Deliveries(d, s) && Next(d, s, t, u) && Publishing(t)
    ensures Deliveries(d, u)
  {}

  lemma DeliveriesAdvanced(d: Durable, s: State, t: Step, u: State)
    requires Position(s) && Reading(s) && Deliveries(d, s) && Next(d, s, t, u) && Advancing(t)
    ensures Deliveries(d, u)
  {}

  lemma DeliveriesWorked(d: Durable, s: State, t: Step, u: State)
    requires Deliveries(d, s) && Next(d, s, t, u) && Working(t)
    ensures Deliveries(d, u)
  {}

  lemma DeliveriesKept(d: Durable, s: State, t: Step, u: State)
    requires Deliveries(d, s) && Next(d, s, t, u) && Upkeep(t)
    ensures Deliveries(d, u)
  {}

  lemma LeasesClaimed(d: Durable, s: State, q: nat, now: int, locked: set<nat>, token: nat, lease: int)
    requires Deliveries(d, s) && Leases(d, s) && token !in s.workers && Claims(d, s, now, locked, q)
    ensures Leases(d, Claim(s, q, token, lease))
  {
    var u := Claim(s, q, token, lease);
    assert LeaseOk(d, s, q);
    forall p ensures Count(u.h.claims, p) <= d.maxDeliver {
      assert Count(s.h.claims, p) <= d.maxDeliver;
      assert p != q ==> Count(u.h.claims, p) == Count(s.h.claims, p);
    }
    forall p | p in u.rows ensures LeaseOk(d, u, p) {
      assert LeaseOk(d, s, p);
    }
  }

  lemma LeasesPublished(d: Durable, s: State, t: Step, u: State)
    requires Leases(d, s) && Next(d, s, t, u) && Publishing(t)
    ensures Leases(d, u)
  {
    forall p | p in u.rows ensures LeaseOk(d, u, p) {
      assert p in s.rows ==> LeaseOk(d, s, p);
    }
  }

  lemma LeasesAdvanced(d: Durable, s: State, t: Step, u: State)
    requires d.maxDeliver > 0 && Position(s) && Reading(s) && Deliveries(d, s) && Leases(d, s)
    requires Next(d, s, t, u) && Advancing(t)
    ensures Leases(d, u)
  {
    forall p | p in u.rows ensures LeaseOk(d, u, p) {
      assert p in s.rows ==> LeaseOk(d, s, p);
    }
  }

  lemma LeasesWorked(d: Durable, s: State, t: Step, u: State)
    requires Leases(d, s) && Next(d, s, t, u) && Working(t) && !t.ClaimStep?
    ensures Leases(d, u)
  {
    forall p | p in u.rows ensures LeaseOk(d, u, p) {
      assert LeaseOk(d, s, p);
    }
  }

  lemma LeasesKept(d: Durable, s: State, t: Step, u: State)
    requires Deliveries(d, s) && Leases(d, s) && Next(d, s, t, u) && Upkeep(t)
    ensures Leases(d, u)
  {
    forall p | p in u.rows ensures LeaseOk(d, u, p) {
      assert p in s.rows ==> LeaseOk(d, s, p);
    }
  }

  lemma InvPublished(d: Durable, s: State, t: Step, u: State)
    requires Inv(d, s) && Next(d, s, t, u) && Publishing(t)
    ensures Inv(d, u)
  {
    if t.BeginStep? || t.InsertStep? { MessagesWritten(d, s, t, u); } else { MessagesEnded(d, s, t, u); }
    PositionPublished(d, s, t, u);
    ReadingPublished(d, s, t, u);
    DeliveriesPublished(d, s, t, u);
    LeasesPublished(d, s, t, u);
  }

  lemma InvAdvanced(d: Durable, s: State, t: Step, u: State)
    requires d.maxDeliver > 0 && Inv(d, s) && Next(d, s, t, u) && Advancing(t)
    ensures Inv(d, u)
  {
    MessagesElse(d, s, t, u);
    PositionAdvanced(d, s, t, u);
    ReadingAdvanced(d, s, t, u);
    DeliveriesAdvanced(d, s, t, u);
    LeasesAdvanced(d, s, t, u);
  }

  lemma InvElse(d: Durable, s: State, t: Step, u: State)
    requires Inv(d, s) && Next(d, s, t, u) && !Publishing(t) && !Advancing(t)
    ensures Inv(d, u)
  {
    MessagesElse(d, s, t, u);
    PositionElse(d, s, t, u);
    ReadingElse(d, s, t, u);
    if Working(t) {
      DeliveriesWorked(d, s, t, u);
      match t
      case ClaimStep(q, now, locked, token, lease) => LeasesClaimed(d, s, q, now, locked, token, lease);
      case _ => LeasesWorked(d, s, t, u);
    } else {
      DeliveriesKept(d, s, t, u);
      LeasesKept(d, s, t, u);
    }
  }

  lemma InvKept(d: Durable, s: State, t: Step, u: State)
    requires d.maxDeliver > 0 && Inv(d, s) && Next(d, s, t, u)
    ensures Inv(d, u)
  {
    if Publishing(t) {
      InvPublished(d, s, t, u);
    } else if Advancing(t) {
      InvAdvanced(d, s, t, u);
    } else {
      InvElse(d, s, t, u);
    }
  }
}
