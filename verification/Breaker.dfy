/** The circuit breaker of one dependency (besdk/calls/policy.py, Breaker) against a specification in terms of what
    happened: the outcomes counted since closing, the open periods in a row, and the trials' results. */
module Breaker {
  import opened Wrappers

  const WINDOW := 20
  const OPEN_FIRST := 5.0
  const OPEN_MAX := 30.0
  const TRIALS_TO_CLOSE := 3

  datatype Outcome = Success | Failure | Ignored

  // ----- the specification -----

  /** counted: every outcome counted since the breaker closed, true for a failure. periods: open periods in a row.
      results: the trials' results since the breaker last opened. */
  datatype Spec =
    | Closed(counted: seq<bool>)
    | Open(periods: nat, since: real)
    | HalfOpen(periods: nat, trial: Option<nat>, results: seq<Outcome>)

  function Failures(s: seq<bool>): nat { if s == [] then 0 else Failures(s[..|s| - 1]) + if s[|s| - 1] then 1 else 0 }

  function Last(s: seq<bool>, n: nat): seq<bool> { if |s| <= n then s else s[|s| - n..] }

  /** More than half of the last 20 counted outcomes are failures. */
  predicate TooMany(counted: seq<bool>) { |counted| >= WINDOW && Failures(Last(counted, WINDOW)) > 10 }

  function Power(n: nat): real { if n == 0 then 1.0 else 2.0 * Power(n - 1) }

  /** The length of the k-th open period in a row: 5 * 2^(k-1) seconds, 30 at most. */
  function Period(k: nat): real
    requires k > 0
  {
    if 5.0 * Power(k - 1) > OPEN_MAX then OPEN_MAX else 5.0 * Power(k - 1)
  }

  function Successes(rs: seq<Outcome>): nat { multiset(rs)[Success] }

  /** At no time of the history were there too many failures. */
  predicate NeverMany(counted: seq<bool>) {
    counted == [] || (!TooMany(counted) && NeverMany(counted[..|counted| - 1]))
  }

  predicate Sane(s: Spec) {
    match s
    case Closed(counted) => NeverMany(counted)
    case Open(k, _) => k > 0
    case HalfOpen(k, _, results) => k > 0 && Failure !in results && Successes(results) < TRIALS_TO_CLOSE
  }

  /** A call asks for a permit numbered permit. */
  function Started(s: Spec, now: real, permit: nat): (Spec, bool)
    requires Sane(s)
  {
    match s
    case Closed(_) => (s, true)
    case Open(k, since) => if now - since < Period(k) then (s, false) else (HalfOpen(k, Some(permit), []), true)
    case HalfOpen(k, trial, results) => if trial.Some? then (s, false) else (HalfOpen(k, Some(permit), results), true)
  }

  function Ended(s: Spec, permit: nat, now: real, o: Outcome): Spec
    requires Sane(s)
  {
    match s
    case Closed(counted) =>
      if o == Ignored then s
      else if TooMany(counted + [o == Failure]) then Open(1, now)
      else Closed(counted + [o == Failure])
    case Open(_, _) => s
    case HalfOpen(k, trial, results) =>
      if trial != Some(permit) then s
      else if o == Failure then Open(k + 1, now)
      else if Successes(results + [o]) == TRIALS_TO_CLOSE then Closed([])
      else HalfOpen(k, None, results + [o])
  }

  lemma SnocSuccesses(rs: seq<Outcome>, o: Outcome)
    ensures Successes(rs + [o]) == Successes(rs) + if o == Success then 1 else 0
  {
    assert multiset(rs + [o]) == multiset(rs) + multiset{o};
  }

  lemma StartedSane(s: Spec, now: real, permit: nat)
    requires Sane(s)
    ensures Sane(Started(s, now, permit).0)
  {}

  lemma EndedSane(s: Spec, permit: nat, now: real, o: Outcome)
    requires Sane(s)
    ensures Sane(Ended(s, permit, now, o))
  {
    match s
    case Closed(counted) => assert (counted + [o == Failure])[..|counted|] == counted;
    case HalfOpen(_, _, results) => SnocSuccesses(results, o);
    case _ =>
  }

  /** A trial that did not fail closes the breaker when it was the last success needed, and frees the slot otherwise. */
  lemma TrialPassed(s: Spec, now: real, o: Outcome)
    requires Sane(s) && s.HalfOpen? && s.trial.Some? && o != Failure
    ensures Successes(s.results + [o]) == Successes(s.results) + if o == Success then 1 else 0
    ensures var n := HalfOpen(s.periods, None, s.results + [o]);
      Ended(s, s.trial.value, now, o) == if Successes(n.results) == TRIALS_TO_CLOSE then Closed([]) else n
    ensures Sane(Ended(s, s.trial.value, now, o))
  {
    SnocSuccesses(s.results, o);
    EndedSane(s, s.trial.value, now, o);
  }

  /** Twice the period, up to the maximum. */
  function Doubled(period: real): real { if 2.0 * period > OPEN_MAX then OPEN_MAX else 2.0 * period }

  lemma NextPeriod(k: nat)
    requires k > 0
    ensures Period(k + 1) == Doubled(Period(k))
  {}

  lemma FirstPeriod()
    ensures Period(1) == OPEN_FIRST
  {}

  /** The bounded window decides as the whole history does. */
  lemma WindowDecides(counted: seq<bool>, b: bool)
    ensures Last(Last(counted, WINDOW) + [b], WINDOW) == Last(counted + [b], WINDOW)
    ensures var w := Last(counted + [b], WINDOW); |w| == WINDOW && Failures(w) * 2 > WINDOW <==> TooMany(counted + [b])
  {}

  // ----- runs -----

  datatype Event = Start(now: real, permit: nat) | End(permit: nat, now: real, o: Outcome)

  function Happened(s: Spec, e: Event): Spec
    requires Sane(s)
  {
    match e
    case Start(now, permit) => Started(s, now, permit).0
    case End(permit, now, o) => Ended(s, permit, now, o)
  }

  /** The states a run passes, the first one s. */
  ghost predicate IsRun(ss: seq<Spec>, es: seq<Event>) {
    && |ss| == |es| + 1 && Sane(ss[0])
    && forall i :: 0 <= i < |es| ==> Sane(ss[i]) && ss[i + 1] == Happened(ss[i], es[i])
  }

  predicate Granted(s: Spec, e: Event)
    requires Sane(s)
  {
    e.Start? && Started(s, e.now, e.permit).1
  }

  /** The outcome an event counts, true for a failure. */
  function Outcomes(e: Event): seq<bool> { if e.End? && e.o != Ignored then [e.o == Failure] else [] }

  /** The outcomes of a run that count, in their order. */
  function Counted(es: seq<Event>): seq<bool> {
    if es == [] then [] else Counted(es[..|es| - 1]) + Outcomes(es[|es| - 1])
  }

  lemma CountedNext(es: seq<Event>, i: nat)
    requires 0 < i <= |es|
    ensures Counted(es[..i]) == Counted(es[..i - 1]) + Outcomes(es[i - 1])
  {
    assert es[..i][..i - 1] == es[..i - 1];
  }

  lemma ClosedNext(counted: seq<bool>, e: Event)
    requires Sane(Closed(counted))
    ensures var more := counted + Outcomes(e);
      && (TooMany(more) ==> e.End?)
      && Happened(Closed(counted), e) == if TooMany(more) then Open(1, e.now) else Closed(more)
  {
    if Outcomes(e) == [] { assert counted + [] == counted; }
  }

  /** At least 20 outcomes, and more than ten failures among the last 20. */
  predicate MostFailed(counted: seq<bool>) { |counted| >= 20 && multiset(counted[|counted| - 20..])[true] > 10 }

  lemma {:induction false} FailuresAre(s: seq<bool>)
    ensures Failures(s) == multiset(s)[true]
  {
    if s != [] {
      FailuresAre(s[..|s| - 1]);
      assert s == s[..|s| - 1] + [s[|s| - 1]];
    }
  }

  lemma ManyExactly(counted: seq<bool>)
    ensures TooMany(counted) <==> MostFailed(counted)
  {
    FailuresAre(Last(counted, WINDOW));
    if |counted| == 20 { assert counted[0..] == counted; }
  }

  ghost predicate NeverTooMany(es: seq<Event>, i: nat)
    requires i <= |es|
  {
    forall k :: 0 <= k <= i ==> !MostFailed(Counted(es[..k]))
  }

  ghost predicate StillClosed(ss: seq<Spec>, i: nat)
    requires i < |ss|
  {
    forall k :: 0 <= k <= i ==> ss[k].Closed?
  }

  lemma OpensNext(ss: seq<Spec>, es: seq<Event>, i: nat)
    requires IsRun(ss, es) && 0 < i <= |es| && ss[i - 1] == Closed(Counted(es[..i - 1]))
    ensures ss[i] == if MostFailed(Counted(es[..i])) then Open(1, es[i - 1].now) else Closed(Counted(es[..i]))
  {
    ManyExactly(Counted(es[..i]));
    CountedNext(es, i);
    ClosedNext(Counted(es[..i - 1]), es[i - 1]);
    assert ss[i - 1 + 1] == Happened(ss[i - 1], es[i - 1]);
  }

  /** What a closed breaker makes of one outcome. */
  lemma CountedOnce(counted: seq<bool>, permit: nat, now: real, o: Outcome)
    requires Sane(Closed(counted))
    ensures var more := counted + Outcomes(End(permit, now, o));
      Ended(Closed(counted), permit, now, o) == if TooMany(more) then Open(1, now) else Closed(more)
  {
    ClosedNext(counted, End(permit, now, o));
  }

  /** A closed breaker opens exactly when, for the first time, the last 20 outcomes counted have more than half
      failures: no earlier and no later, and whatever permits they belong to. */
  lemma {:induction false} OpensExactly(ss: seq<Spec>, es: seq<Event>, i: nat)
    requires IsRun(ss, es) && i <= |es| && ss[0] == Closed([])
    ensures StillClosed(ss, i) <==> NeverTooMany(es, i)
    ensures StillClosed(ss, i) ==> ss[i] == Closed(Counted(es[..i]))
    ensures i > 0 && NeverTooMany(es, i - 1) && MostFailed(Counted(es[..i])) ==> ss[i] == Open(1, es[i - 1].now)
  {
    if i > 0 {
      OpensExactly(ss, es, i - 1);
      if StillClosed(ss, i - 1) {
        OpensNext(ss, es, i);
        assert StillClosed(ss, i) <==> ss[i].Closed?;
        assert NeverTooMany(es, i) <==> !MostFailed(Counted(es[..i]));
      } else {
        assert !StillClosed(ss, i) && !NeverTooMany(es, i);
      }
    }
  }

  /** No permit inside an open period, whatever results of earlier calls come in meanwhile. */
  lemma {:induction false} NoPermitWhileOpen(ss: seq<Spec>, es: seq<Event>, i: nat)
    requires IsRun(ss, es) && i <= |es| && ss[0].Open?
    requires forall j :: 0 <= j < |es| && es[j].Start? ==> es[j].now - ss[0].since < Period(ss[0].periods)
    ensures ss[i] == ss[0] && (i < |es| ==> !Granted(ss[i], es[i]))
  {
    if i > 0 { NoPermitWhileOpen(ss, es, i - 1); }
  }

  /** While a trial is out nothing else is admitted and nothing else ends it: only that trial's result leaves half-open.
      A trial that is cancelled and so never ends holds the breaker for good. */
  lemma {:induction false} TrialHolds(ss: seq<Spec>, es: seq<Event>, i: nat)
    requires IsRun(ss, es) && i <= |es| && ss[0].HalfOpen? && ss[0].trial.Some?
    requires forall j :: 0 <= j < |es| ==> !(es[j].End? && Some(es[j].permit) == ss[0].trial)
    ensures ss[i] == ss[0] && (i < |es| ==> !Granted(ss[i], es[i]))
  {
    if i > 0 { TrialHolds(ss, es, i - 1); }
  }

  predicate TrialEnds(s: Spec, e: Event, o: Outcome) {
    s.HalfOpen? && e.End? && s.trial == Some(e.permit) && e.o == o
  }

  /** The trials won after one more event. */
  function WonBy(won: nat, s: Spec, e: Event): nat {
    if TrialEnds(s, e, Failure) then 0 else won + if TrialEnds(s, e, Success) then 1 else 0
  }

  /** The trials that succeeded in a run with no failed one since. */
  function Won(ss: seq<Spec>, es: seq<Event>, i: nat): nat
    requires |ss| == |es| + 1 && i <= |es|
  {
    if i == 0 then 0 else WonBy(Won(ss, es, i - 1), ss[i - 1], es[i - 1])
  }

  /** won is what a half-open breaker counts, nothing while it is open, and all that is needed once it has closed. */
  predicate Covered(won: nat, s: Spec) {
    match s
    case Closed(_) => won == 3
    case HalfOpen(_, _, results) => won == Successes(results) < 3
    case Open(_, _) => won == 0
  }

  lemma CoveredNext(won: nat, s: Spec, e: Event)
    requires Sane(s) && !s.Closed? && Covered(won, s)
    ensures Covered(WonBy(won, s, e), Happened(s, e))
  {
    if s.HalfOpen? && e.End? { SnocSuccesses(s.results, e.o); }
  }

  lemma {:induction false} WonCounts(ss: seq<Spec>, es: seq<Event>, i: nat)
    requires IsRun(ss, es) && i <= |es| && ss[0].Open? && forall j :: 0 <= j < i ==> !ss[j].Closed?
    ensures Covered(Won(ss, es, i), ss[i])
  {
    if i > 0 {
      WonCounts(ss, es, i - 1);
      assert ss[i - 1 + 1] == Happened(ss[i - 1], es[i - 1]);
      CoveredNext(Won(ss, es, i - 1), ss[i - 1], es[i - 1]);
    }
  }

  /** A breaker that opened closes again exactly when three trials have succeeded with no failed one between. */
  lemma ThreeTrialsToClose(ss: seq<Spec>, es: seq<Event>, i: nat)
    requires IsRun(ss, es) && i <= |es| && ss[0].Open? && forall j :: 0 <= j < i ==> !ss[j].Closed?
    ensures ss[i].Closed? <==> Won(ss, es, i) == 3
    ensures ss[i].Closed? ==> ss[i] == Closed([]) && i > 0 && TrialEnds(ss[i - 1], es[i - 1], Success)
  {
    WonCounts(ss, es, i);
    if i > 0 {
      WonCounts(ss, es, i - 1);
      assert ss[i - 1 + 1] == Happened(ss[i - 1], es[i - 1]);
    }
  }

  // ----- who is admitted -----

  /** The open periods in a row, in seconds. */
  function Pause(k: nat): real { if k <= 1 then 5.0 else if k == 2 then 10.0 else if k == 3 then 20.0 else 30.0 }

  lemma {:induction false} PauseIs(k: nat)
    requires k > 0
    ensures Period(k) == Pause(k)
  {
    if k == 1 {
      FirstPeriod();
    } else {
      PauseIs(k - 1);
      NextPeriod(k - 1);
    }
  }

  /** A closed breaker admits every call, an open one from the end of its pause on, and a half-open one when no trial is
      out; no other call is admitted. */
  lemma AdmitsExactly(s: Spec, now: real, permit: nat)
    requires Sane(s)
    ensures Started(s, now, permit).1 <==>
      match s
      case Closed(_) => true
      case Open(k, since) => since + Pause(k) <= now
      case HalfOpen(_, trial, _) => trial.None?
    ensures Started(s, now, permit).1 && !s.Closed? ==>
      Started(s, now, permit).0.HalfOpen? && Started(s, now, permit).0.trial == Some(permit)
  {
    if s.Open? { PauseIs(s.periods); }
  }

  /** The first call that asks after the pause is admitted as a trial. */
  lemma AdmitsAfterPause(ss: seq<Spec>, es: seq<Event>, i: nat)
    requires IsRun(ss, es) && i < |es| && ss[0].Open? && es[i].Start? && ss[0].since + Pause(ss[0].periods) <= es[i].now
    requires forall j :: 0 <= j < i && es[j].Start? ==> es[j].now < ss[0].since + Pause(ss[0].periods)
    ensures Granted(ss[i], es[i]) && ss[i + 1] == HalfOpen(ss[0].periods, Some(es[i].permit), [])
  {
    PauseIs(ss[0].periods);
    OpenUntil(ss, es, i);
    assert ss[i + 1] == Happened(ss[i], es[i]);
  }

  lemma {:induction false} OpenUntil(ss: seq<Spec>, es: seq<Event>, i: nat)
    requires IsRun(ss, es) && i <= |es| && ss[0].Open?
    requires forall j :: 0 <= j < i && es[j].Start? ==> es[j].now - ss[0].since < Period(ss[0].periods)
    ensures ss[i] == ss[0]
  {
    if i > 0 {
      OpenUntil(ss, es, i - 1);
      assert ss[i - 1 + 1] == Happened(ss[i - 1], es[i - 1]);
    }
  }

  /** A trial that fails at an instant opens the breaker for the next longer pause: nothing is admitted before its
      end. */
  lemma FailedTrialPauses(ss: seq<Spec>, es: seq<Event>, i: nat)
    requires IsRun(ss, es) && 0 < i < |es| && TrialEnds(ss[0], es[0], Failure)
    requires forall j :: 0 < j < |es| && es[j].Start? ==> es[j].now < es[0].now + Pause(ss[0].periods + 1)
    ensures ss[i] == Open(ss[0].periods + 1, es[0].now) && !Granted(ss[i], es[i])
  {
    PauseIs(ss[0].periods + 1);
    assert ss[0 + 1] == Happened(ss[0], es[0]);
    forall j | 0 <= j < |es[1..]| ensures Sane(ss[1..][j]) && ss[1..][j + 1] == Happened(ss[1..][j], es[1..][j]) {
      assert ss[j + 1 + 1] == Happened(ss[j + 1], es[j + 1]);
    }
    NoPermitWhileOpen(ss[1..], es[1..], i - 1);
  }

  // ----- the breaker -----

  datatype Mode = CLOSED | OPEN | HALF_OPEN

  /** A history as the fields of a breaker show it. */
  predicate Shows(s: Spec, mode: Mode, window: seq<bool>, openedAt: real, openFor: real, trial: nat, trialOk: nat) {
    match s
    case Closed(counted) => mode == CLOSED && window == Last(counted, WINDOW) && openFor == OPEN_FIRST
    case Open(k, since) => mode == OPEN && window == [] && k > 0 && openedAt == since && openFor == Period(k)
    case HalfOpen(k, t, results) =>
      && mode == HALF_OPEN && window == [] && k > 0 && openFor == Period(k) && trialOk == Successes(results)
      && (t.None? ==> trial == 0) && (t.Some? ==> trial == t.value > 0)
  }

  /** The fields after a trial that did not fail: closed after the last success needed, the slot free otherwise. */
  lemma PassedShows(s: Spec, openedAt: real, openFor: real, trial: nat, trialOk: nat, now: real, o: Outcome)
    requires Sane(s) && Shows(s, HALF_OPEN, [], openedAt, openFor, trial, trialOk) && trial > 0 && o != Failure
    ensures var e := Ended(s, trial, now, o); var ok := trialOk + if o == Success then 1 else 0;
      && Sane(e)
      && if o == Success && ok >= TRIALS_TO_CLOSE then Shows(e, CLOSED, [], openedAt, OPEN_FIRST, 0, ok)
         else Shows(e, HALF_OPEN, [], openedAt, openFor, 0, ok)
  {
    TrialPassed(s, now, o);
  }

  class Store {
    var mode: Mode
    var window: seq<bool>
    var openedAt: real
    var openFor: real
    var trial: nat
    var trialOk: nat
    var next: nat
    ghost var spec: Spec

    /** The fields say what the history says, in bounded space. */
    ghost predicate Valid()
      reads this
    {
      Sane(spec) && trial <= next && Shows(spec, mode, window, openedAt, openFor, trial, trialOk)
    }

    constructor ()
      ensures Valid() && spec == Closed([]) && next == 0
    {
      mode, window, openedAt, openFor, trial, trialOk, next := CLOSED, [], 0.0, OPEN_FIRST, 0, 0, 0;
      spec := Closed([]);
    }

    /** start: a fresh permit, or none. */
    method Start(now: real) returns (permit: Option<nat>)
      requires Valid()
      modifies this
      ensures Valid() && next == old(next) + 1
      ensures (spec, permit.Some?) == Started(old(spec), now, next)
      ensures permit.Some? ==> permit.value == next
    {
      next := next + 1;
      var p := next;
      spec := Started(spec, now, next).0;
      StartedSane(old(spec), now, next);
      if mode == OPEN {
        if now - openedAt < openFor { return None; }
        mode, trial, trialOk := HALF_OPEN, 0, 0;
      }
      if mode == HALF_OPEN {
        if trial != 0 { return None; }
        trial := p;
      }
      return Some(p);
    }

    /** end: the outcome of a permit. */
    method End(permit: nat, now: real, o: Outcome)
      requires Valid() && permit > 0
      modifies this
      ensures Valid() && next == old(next)
      ensures spec == Ended(old(spec), permit, now, o)
    {
      if mode == HALF_OPEN {
        if trial != permit { return; }
        EndTrial(now, o);
      } else if mode == CLOSED && o != Ignored {
        CountOutcome(permit, now, o == Failure);
      }
    }

    method EndTrial(now: real, o: Outcome)
      requires Valid() && mode == HALF_OPEN && trial > 0
      modifies this
      ensures Valid() && next == old(next)
      ensures spec == Ended(old(spec), old(trial), now, o)
    {
      if o == Failure { FailTrial(now); } else { PassTrial(now, o); }
    }

    /** A failed trial opens the breaker again, for longer. */
    method FailTrial(now: real)
      requires Valid() && mode == HALF_OPEN && trial > 0
      modifies this
      ensures Valid() && next == old(next)
      ensures spec == Ended(old(spec), old(trial), now, Failure)
    {
      NextPeriod(spec.periods);
      spec := Open(spec.periods + 1, now);
      trial, mode, openedAt, trialOk, openFor := 0, OPEN, now, 0, Doubled(openFor);
    }

    /** Another trial's end frees the slot, and the last success needed closes the breaker. */
    method PassTrial(now: real, o: Outcome)
      requires Valid() && mode == HALF_OPEN && trial > 0 && o != Failure
      modifies this
      ensures Valid() && next == old(next)
      ensures spec == Ended(old(spec), old(trial), now, o)
    {
      PassedShows(spec, openedAt, openFor, trial, trialOk, now, o);
      spec := Ended(spec, trial, now, o);
      trial := 0;
      if o == Success {
        trialOk := trialOk + 1;
        if trialOk >= TRIALS_TO_CLOSE { mode, window, openFor := CLOSED, [], OPEN_FIRST; }
      }
    }

    method CountOutcome(permit: nat, now: real, failed: bool)
      requires Valid() && mode == CLOSED
      modifies this
      ensures Valid() && next == old(next)
      ensures spec == Ended(old(spec), permit, now, if failed then Failure else Success)
    {
      var o := if failed then Failure else Success;
      EndedSane(spec, permit, now, o);
      WindowDecides(spec.counted, failed);
      spec := Ended(spec, permit, now, o);
      window := Last(window + [failed], WINDOW);
      if |window| == WINDOW && Failures(window) * 2 > WINDOW {
        mode, openedAt, window := OPEN, now, [];
        FirstPeriod();
      }
    }
  }
}
