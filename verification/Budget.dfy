/** The retry budget of one dependency (besdk/calls/policy.py, Budget), in thousandths of a retry. */
module Budget {
  const MAX_TOKENS := 10000
  const PER_SUCCESS := 100
  const PER_FAILURE := 1000
  const THRESHOLD := 5000

  datatype Outcome = Success | Unavailable | Other

  function Recorded(tokens: int, o: Outcome): int {
    match o
    case Success => if tokens + PER_SUCCESS > MAX_TOKENS then MAX_TOKENS else tokens + PER_SUCCESS
    case Unavailable => if tokens - PER_FAILURE < 0 then 0 else tokens - PER_FAILURE
    case Other => tokens
  }

  predicate Allows(tokens: int) { tokens > THRESHOLD }

  /** The tokens after a run of recorded attempts. */
  function Tokens(run: seq<Outcome>): int {
    if run == [] then MAX_TOKENS else Recorded(Tokens(run[..|run| - 1]), run[|run| - 1])
  }

  /** A retry follows an attempt recorded as unavailable, when the budget allows it right after. */
  function Retries(run: seq<Outcome>): nat {
    if run == [] then 0
    else Retries(run[..|run| - 1]) + if run[|run| - 1] == Unavailable && Allows(Tokens(run)) then 1 else 0
  }

  function Successes(run: seq<Outcome>): nat {
    if run == [] then 0 else Successes(run[..|run| - 1]) + if run[|run| - 1] == Success then 1 else 0
  }

  lemma SuccessesSnoc(run: seq<Outcome>, o: Outcome)
    ensures Successes(run + [o]) == Successes(run) + if o == Success then 1 else 0
  {
    assert (run + [o])[..|run|] == run;
  }

  /** What is left of the budget pays for every retry: tokens and retries together never exceed what was put in. */
  lemma {:induction false} Paid(run: seq<Outcome>)
    ensures Tokens(run) + 1000 * Retries(run) <= MAX_TOKENS + 100 * Successes(run)
    ensures 0 <= Tokens(run) <= MAX_TOKENS && Tokens(run) % 100 == 0
  {
    if run != [] { Paid(run[..|run| - 1]); }
  }

  /** Over any run the permitted retries are at most 4.9 and a tenth of the successes: no retry storm. */
  lemma {:induction false} RetriesBounded(run: seq<Outcome>)
    ensures 1000 * Retries(run) <= 4900 + 100 * Successes(run)
  {
    if run != [] {
      RetriesBounded(run[..|run| - 1]);
      Paid(run);
    }
  }

  class Store {
    var tokens: int
    ghost var run: seq<Outcome>

    ghost predicate Valid()
      reads this
    {
      tokens == Tokens(run)
    }

    constructor ()
      ensures Valid() && run == []
    {
      tokens, run := MAX_TOKENS, [];
    }

    method Record(o: Outcome)
      requires Valid()
      modifies this
      ensures Valid() && run == old(run) + [o]
      ensures o == Success ==> tokens == if old(tokens) > 9900 then 10000 else old(tokens) + 100
      ensures o == Unavailable ==> tokens == if old(tokens) < 1000 then 0 else old(tokens) - 1000
      ensures o == Other ==> tokens == old(tokens)
    {
      if o == Success {
        tokens := if tokens + PER_SUCCESS > MAX_TOKENS then MAX_TOKENS else tokens + PER_SUCCESS;
      } else if o == Unavailable {
        tokens := if tokens - PER_FAILURE < 0 then 0 else tokens - PER_FAILURE;
      }
      run := run + [o];
      assert run[..|run| - 1] == old(run);
    }

    /** Right after an attempt recorded as unavailable: whether it may be tried again, and the bound that then holds. */
    method AllowsRetry() returns (ok: bool)
      requires Valid()
      ensures ok == Allows(Tokens(run)) == (tokens > 5000)
      ensures 1000 * Retries(run) <= 4900 + 100 * Successes(run)
    {
      RetriesBounded(run);
      ok := tokens > THRESHOLD;
    }
  }
}
