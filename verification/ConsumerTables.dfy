/** Consumer.handle on the consumer's own tables (besdk/events/consumer.py): ordered database effects, each of which may
    fail, or commit without the consumer learning of it. */
module ConsumerTables {
  import opened Pipeline
  import Q = Queue

  class Tables {
    const ownMax: nat
    var inbox: set<nat>
    var effects: map<nat, nat>
    var dead: set<nat>

    constructor (ownMax: nat)
      ensures this.ownMax == ownMax && inbox == {} && effects == map[] && dead == {}
    {
      this.ownMax, inbox, effects, dead := ownMax, {}, map[], {};
    }

    /** The inbox row and the handler's writes in one transaction. */
    method Process(e: nat, fate: Fate)
      modifies `inbox, `effects
      ensures fate == Failed || e in old(inbox) ==> inbox == old(inbox) && effects == old(effects)
      ensures fate != Failed && e !in old(inbox) ==>
        inbox == old(inbox) + {e} && effects == old(effects)[e := Q.Count(old(effects), e) + 1]
    {
      if fate != Failed && e !in inbox {
        inbox := inbox + {e};
        effects := effects[e := Q.Count(effects, e) + 1];
      }
    }

    /** handle: an outcome for the queue. ACK only with the effect there, TERM only with a dead letter there, and NAK on
        the last attempt only when neither could be confirmed. */
    method Handle(e: nat, attempt: nat, processed: Fate, recorded: Fate) returns (out: Q.Outcome)
      requires forall x :: Q.Count(effects, x) == if x in inbox then 1 else 0
      modifies `inbox, `effects, `dead
      ensures forall x :: Q.Count(effects, x) == if x in inbox then 1 else 0
      ensures inbox == if processed == Failed then old(inbox) else old(inbox) + {e}
      ensures out == Q.ACK <==> processed == Committed
      ensures out == Q.TERM <==> processed != Committed && attempt >= ownMax && recorded == Committed
      ensures dead ==
        if processed != Committed && attempt >= ownMax && recorded != Failed then old(dead) + {e} else old(dead)
    {
      Process(e, processed);
      if processed == Committed { return Q.ACK; }
      if attempt < ownMax { return Q.NAK; }
      if recorded != Failed { dead := dead + {e}; }
      return if recorded == Committed then Q.TERM else Q.NAK;
    }
  }
}
