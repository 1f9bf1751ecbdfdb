/** The outbox's transactions on the stored rows of one partition (besdk/events/outbox.py). */
module OutboxTables {
  import opened Wrappers
  import opened Outbox
  import QueueTables

  class Partition {
    var rows: map<nat, Row>
    var used: set<nat>
    var counter: Option<Epoch>
    var last: nat
    var forks: seq<Fork>
    ghost var lineage: seq<Given>

    ghost function Model(): Db
      reads this
    {
      Db(rows, used, counter, last, forks, lineage)
    }

    constructor ()
      ensures Model() == Db(map[], {}, None, 0, [], [])
    {
      rows, used, counter, last, forks, lineage := map[], {}, None, 0, [], [];
    }

    /** The first unnumbered rows in insertion order, at most size of them. */
    method Pick(size: nat) returns (picked: seq<nat>)
      ensures Picks(Model(), size, picked)
    {
      var rest := set o | o in rows && rows[o].place.None?;
      picked := [];
      while |picked| < size
        invariant |picked| <= size && rest <= rows.Keys
        invariant forall o :: o in rest || o in picked <==> Unnumbered(Model(), o)
        invariant forall o, p :: o in rest && p in picked ==> p < o
        invariant forall i, j :: 0 <= i < j < |picked| ==> picked[i] < picked[j]
        decreases size - |picked|
      {
        var low := QueueTables.Lowest(rest);
        if low.None? { break; }
        assert low.value in rest;
        forall i | 0 <= i < |picked| ensures picked[i] < low.value { assert picked[i] in picked; }
        picked, rest := picked + [low.value], rest - {low.value};
      }
    }

    /** number_in: under the counter's lock, a new epoch is recorded and starts again at 1, and the first unnumbered
        rows get the next positions. */
    method NumberIn(epoch: Epoch, size: nat) returns (picked: seq<nat>)
      modifies this
      ensures Picks(StartEpoch(old(Model()), epoch), size, picked)
      ensures Model() == NumberAll(StartEpoch(old(Model()), epoch), epoch, picked)
    {
      if counter != Some(epoch) {
        if counter.Some? { forks := forks + [Fork(counter.value, last, epoch)]; }
        counter, last := Some(epoch), 0;
      }
      ghost var start := Model();
      picked := Pick(size);
      for i := 0 to |picked|
        invariant Model() == NumberAll(start, epoch, picked[..i])
      {
        NumberSnoc(start, epoch, picked[..i], picked[i]);
        assert picked[..i + 1] == picked[..i] + [picked[i]];
        lineage := lineage + [Given(Place(epoch, last + 1), picked[i])];
        rows := rows[picked[i] := Row(Some(Place(epoch, last + 1)), false)];
        last := last + 1;
      }
      assert picked[..|picked|] == picked;
    }

    /** The end of _partition: the rows done are marked published, and no other. */
    method MarkPublished(done: seq<Given>)
      modifies this
      ensures Model() == Marked(old(Model()), done)
    {
      var ords := set i | 0 <= i < |done| :: done[i].ord;
      rows := map o | o in rows :: if o in ords then rows[o].(published := true) else rows[o];
    }
  }

  lemma {:induction false} NumberSnoc(db: Db, e: Epoch, picked: seq<nat>, o: nat)
    ensures NumberAll(db, e, picked + [o]) == NumberOne(NumberAll(db, e, picked), e, o)
    decreases picked
  {
    if picked == [] {
      assert ([] + [o])[1..] == [];
    } else {
      NumberSnoc(NumberOne(db, e, picked[0]), e, picked[1..], o);
      assert (picked + [o])[1..] == picked[1..] + [o];
    }
  }
}
