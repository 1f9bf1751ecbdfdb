/** The queue's operations on the stored rows of one durable (besdk/events/pgqueue.py): each method leaves the tables as
    the corresponding step of the model says. */
module QueueTables {
  import opened Wrappers
  import opened Queue

  /** The lowest number of a set, as ORDER BY seq LIMIT 1 finds it. */
  method Lowest(qs: set<nat>) returns (low: Option<nat>)
    ensures low.None? <==> qs == {}
    ensures low.Some? ==> low.value in qs && forall q :: q in qs ==> low.value <= q
  {
    low := None;
    var rest := qs;
    while rest != {}
      invariant rest <= qs
      invariant low.None? <==> rest == qs
      invariant low.Some? ==> low.value in qs && low.value !in rest
      invariant low.Some? ==> forall q :: q in qs && q !in rest ==> low.value <= q
      decreases |rest|
    {
      var q :| q in rest;
      if low.None? || q < low.value { low := Some(q); }
      rest := rest - {q};
    }
  }

  /** A delivery may be claimed: it waits and its time has come, or its lease has run out with attempts left. */
  predicate Claimable(maxDeliver: nat, r: Delivery, now: int) {
    (!r.inFlight && r.notBefore <= now) || (r.inFlight && r.leaseUntil < now && r.attempts < maxDeliver)
  }

  /** The lease of the last attempt ran out without an outcome. */
  predicate Lost(maxDeliver: nat, r: Delivery, now: int) {
    r.inFlight && r.leaseUntil < now && r.attempts >= maxDeliver
  }

  /** A delivery under a new lease. */
  function Leased(r: Delivery, token: nat, lease: int): Delivery {
    Delivery(r.attempts + 1, true, r.notBefore, lease, token)
  }

  class Tables {
    const durable: Durable
    var nextXid: nat
    var open: set<nat>
    var pending: map<nat, Message>
    var messages: map<nat, Message>
    var pos: Place
    var batch: Option<Batch>
    var rows: map<nat, Delivery>
    var workers: map<nat, Held>
    ghost var history: History

    ghost function Model(): State
      reads this
    {
      State(nextXid, open, pending, messages, pos, batch, rows, workers, history)
    }

    constructor (d: Durable)
      ensures durable == d && Init(Model())
    {
      durable, nextXid, open, pending, messages := d, 1, {}, map[], map[];
      pos, batch, rows, workers := Place(0, 0), None, map[], map[];
      history := History(map[], {}, {}, map[], map[], map[]);
    }

    /** The second half of _advance: a delivery for each matching message read, and the new position. */
    method QueueRead(now: int)
      requires batch.Some? && batch.value.items != []
      modifies this
      ensures Model() == QueueBatch(durable, old(Model()), now)
    {
      var items := batch.value.items;
      var wanted := {};
      for i := 0 to |items|
        modifies {}
        invariant wanted == Wanted(durable, items[..i])
      {
        assert items[..i + 1] == items[..i] + [items[i]];
        WantedSnoc(durable, items[..i], items[i]);
        if durable.matches(items[i].m.subject) { wanted := wanted + {items[i].num}; }
      }
      assert items[..|items|] == items;
      history := QueueBatch(durable, Model(), now).h;
      rows := map q | q in rows.Keys + wanted :: if q in rows then rows[q] else Delivery(0, false, now, 0, 0);
      pos, batch := Last(items), None;
    }

    /** _claim: the lowest ready delivery and the lowest expired one, and the lower of the two. */
    method ClaimAny(now: int, locked: set<nat>, token: nat, lease: int) returns (claimed: Option<nat>)
      requires !durable.ordered
      modifies this
      ensures claimed.None? <==>
        forall q :: q in old(rows) && q !in locked ==> !Claimable(durable.maxDeliver, old(rows)[q], now)
      ensures claimed.Some? ==>
        && claimed.value in old(rows) && claimed.value !in locked
        && Claimable(durable.maxDeliver, old(rows)[claimed.value], now)
        && (forall q :: q in old(rows) && q !in locked && q < claimed.value ==>
              !Claimable(durable.maxDeliver, old(rows)[q], now))
        && rows == old(rows)[claimed.value := Leased(old(rows)[claimed.value], token, lease)]
      ensures claimed.None? ==> Model() == old(Model()) && forall q :: !Claims(durable, Model(), now, locked, q)
      ensures claimed.Some? ==>
        Claims(durable, old(Model()), now, locked, claimed.value)
        && Model() == Claim(old(Model()), claimed.value, token, lease)
    {
      var waiting := set q | q in rows && !rows[q].inFlight && rows[q].notBefore <= now && q !in locked;
      var lapsed := set q | q in rows && rows[q].inFlight && rows[q].leaseUntil < now
                            && rows[q].attempts < durable.maxDeliver && q !in locked;
      assert forall q :: q in waiting || q in lapsed <==> q in rows && Due(durable, rows[q], now) && q !in locked;
      var ready := Lowest(waiting);
      var expired := Lowest(lapsed);
      if ready.None? && expired.None? { return None; }
      var q := if expired.None? || (ready.Some? && ready.value < expired.value) then ready.value else expired.value;
      Take(q, token, lease);
      return Some(q);
    }

    /** _claim_ordered: only the earliest delivery of all, and only when it is due. */
    method ClaimFirst(now: int, locked: set<nat>, token: nat, lease: int) returns (claimed: Option<nat>)
      requires durable.ordered
      modifies this
      ensures claimed.Some? <==>
        exists q :: q in old(rows) && Claimable(durable.maxDeliver, old(rows)[q], now)
                    && forall p :: p in old(rows) ==> q <= p
      ensures claimed.Some? ==>
        && claimed.value in old(rows) && (forall p :: p in old(rows) ==> claimed.value <= p)
        && rows == old(rows)[claimed.value := Leased(old(rows)[claimed.value], token, lease)]
      ensures claimed.None? ==> Model() == old(Model()) && forall q :: !Claims(durable, Model(), now, locked, q)
      ensures claimed.Some? ==>
        Claims(durable, old(Model()), now, locked, claimed.value)
        && Model() == Claim(old(Model()), claimed.value, token, lease)
    {
      var first := Lowest(rows.Keys);
      if first.None? || !Due(durable, rows[first.value], now) { return None; }
      Take(first.value, token, lease);
      return first;
    }

    method Take(q: nat, token: nat, lease: int)
      requires q in rows
      modifies this
      ensures Model() == Claim(old(Model()), q, token, lease)
    {
      var r := rows[q];
      history := history.(claims := history.claims[q := Count(history.claims, q) + 1]);
      workers := workers[token := Held(q, r.attempts + 1, q !in messages)];
      rows := rows[q := r.(inFlight := true, attempts := r.attempts + 1, token := token, leaseUntil := lease)];
    }

    /** _settle: under a replaced token nothing changes. */
    method SettleOutcome(token: nat, out: Outcome, notBefore: int)
      requires token in workers
      modifies this
      ensures Model() == Settle(durable, old(Model()), token, out, notBefore)
      ensures var q := old(workers)[token].num;
        rows ==
          if !(q in old(rows) && old(rows)[q].inFlight && old(rows)[q].token == token) then old(rows)
          else if out == NAK && old(workers)[token].attempt < durable.maxDeliver
          then old(rows)[q := Delivery(old(rows)[q].attempts, false, notBefore, old(rows)[q].leaseUntil, 0)]
          else old(rows) - {q}
    {
      var w := workers[token];
      if w.num !in rows || !rows[w.num].inFlight || rows[w.num].token != token { return; }
      if out == ACK || out == TERM || w.attempt >= durable.maxDeliver {
        Delete({w.num}, Settled(out, w.attempt));
      } else {
        rows := rows[w.num := rows[w.num].(inFlight := false, token := 0, notBefore := notBefore)];
      }
    }

    /** _give_up: exhausted deliveries whose lease ran out. */
    method DeleteExhausted(now: int)
      modifies this
      ensures Model() == GiveUp(durable, old(Model()), now)
      ensures forall q :: q in rows <==> q in old(rows) && !Lost(durable.maxDeliver, old(rows)[q], now)
      ensures forall q :: q in rows ==> rows[q] == old(rows)[q]
    {
      var exhausted := set q | q in rows && rows[q].inFlight && rows[q].leaseUntil < now
                              && rows[q].attempts >= durable.maxDeliver;
      Delete(exhausted, GivenUp);
    }

    /** purge: messages past the retention, and their deliveries. */
    method DeleteAged(aged: set<nat>)
      modifies this
      ensures Model() == Purge(old(Model()), aged)
      ensures messages == old(messages) - aged
      ensures forall q :: q in rows <==> q in old(rows) && !(q in aged && q in old(messages))
      ensures forall q :: q in rows ==> rows[q] == old(rows)[q]
    {
      var gone := aged * messages.Keys;
      Delete(gone, Purged);
      messages := messages - gone;
      history := history.(purged := history.purged + gone);
    }

    method Delete(qs: set<nat>, why: Reason)
      modifies this
      ensures Model() == Remove(old(Model()), qs, why)
    {
      history := Remove(Model(), qs, why).h;
      rows := rows - (qs * rows.Keys);
    }
  }

  lemma WantedSnoc(d: Durable, items: seq<Item>, item: Item)
    ensures Wanted(d, items + [item]) == Wanted(d, items) + if d.matches(item.m.subject) then {item.num} else {}
  {
    var more := items + [item];
    forall q ensures q in Wanted(d, more) <==>
      q in Wanted(d, items) || (d.matches(item.m.subject) && q == item.num)
    {
      if i :| 0 <= i < |items| && d.matches(items[i].m.subject) && items[i].num == q {
        assert more[i] == items[i];
      }
      assert more[|items|] == item;
    }
  }
}
