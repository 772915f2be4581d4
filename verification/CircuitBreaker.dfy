/**
 * The in-process `CircuitBreaker`.  Admission and completion of a call are two separate locked
 * sections, so calls overlap and old calls complete in later states.  A run is any sequence of
 * admissions and completions under a clock that never goes back; the log keeps what happened.
 */
module CircuitBreakers {
  import opened Common

  datatype State = CLOSED | OPEN | HALF_OPEN

  datatype Policy = Policy(failureThreshold: int, successThreshold: int, timeout: real)

  datatype Breaker = Breaker(state: State, failures: int, successes: int, openedAt: Option<real>)

  const FRESH_BREAKER := Breaker(CLOSED, 0, 0, None)

  function MaybeHalfOpen(p: Policy, b: Breaker, now: real): Breaker
  {
    if b.state == OPEN && b.openedAt.Some? && now - b.openedAt.value >= p.timeout
    then b.(state := HALF_OPEN, successes := 0)
    else b
  }

  function OnSuccess(p: Policy, b: Breaker): Breaker
  {
    match b.state
    case HALF_OPEN =>
      var n := b.successes + 1;
      if n >= p.successThreshold then b.(state := CLOSED, failures := 0, successes := n) else b.(successes := n)
    case CLOSED => b.(failures := 0)
    case OPEN => b
  }

  predicate Opens(p: Policy, b: Breaker)
  {
    b.failures + 1 >= p.failureThreshold
  }

  function OnFailure(p: Policy, b: Breaker, now: real): Breaker
  {
    if Opens(p, b) then b.(state := OPEN, openedAt := Some(now), failures := 0)
    else b.(failures := b.failures + 1)
  }

  // ---------------------------------------------------------------- runs

  datatype Outcome = Success | Failure | Excluded

  /** What happened at one point of a run: `opens` marks a failure that set a new opening time. */
  datatype Entry =
    | Admitted(before: State, after: State, now: real)
    | Rejected(now: real)
    | Completed(outcome: Outcome, before: State, after: State, opens: bool, now: real)

  datatype System = System(b: Breaker, clock: real, inFlight: set<nat>, log: seq<Entry>)

  datatype Event =
    | Admit(c: nat, now: real)
    | Complete(c: nat, outcome: Outcome, now: real)

  /** One locked section; an event in the past, or of a call that is not in flight, changes nothing. */
  function Step(p: Policy, s: System, e: Event): System
  {
    if e.now < s.clock then s
    else
      match e
      case Admit(c, now) =>
        if c in s.inFlight then s
        else
          var b := MaybeHalfOpen(p, s.b, now);
          if b.state == OPEN then System(b, now, s.inFlight, s.log + [Rejected(now)])
          else System(b, now, s.inFlight + {c}, s.log + [Admitted(s.b.state, b.state, now)])
      case Complete(c, outcome, now) =>
        if c !in s.inFlight then s
        else
          var b := AfterCompletion(p, s.b, outcome, now);
          System(b, now, s.inFlight - {c},
                 s.log + [Completed(outcome, s.b.state, b.state, outcome == Failure && Opens(p, s.b), now)])
  }

  function AfterCompletion(p: Policy, b: Breaker, outcome: Outcome, now: real): Breaker
  {
    match outcome
    case Success => OnSuccess(p, b)
    case Failure => OnFailure(p, b, now)
    case Excluded => b
  }

  function Run(p: Policy, start: real, es: seq<Event>): System
  {
    if es == [] then System(FRESH_BREAKER, start, {}, [])
    else Step(p, Run(p, start, es[..|es| - 1]), es[|es| - 1])
  }

  ghost predicate Reachable(p: Policy, s: System)
  {
    exists start, es :: Run(p, start, es) == s
  }

  lemma StepIsReachable(p: Policy, s: System, e: Event)
    requires Reachable(p, s)
    ensures Reachable(p, Step(p, s, e))
  {
    var start, es :| Run(p, start, es) == s;
    assert (es + [e])[..|es|] == es;
    assert Run(p, start, es + [e]) == Step(p, s, e);
  }

  // ---------------------------------------------------------------- what the log says

  predicate Counted(e: Entry, outcome: Outcome)
  {
    e.Completed? && e.outcome == outcome
  }

  /** The failures since the latest opening, closing, or success that completed while CLOSED. */
  function FailuresSince(log: seq<Entry>): nat
  {
    if log == [] then 0 else
      var n, e := FailuresSince(log[..|log| - 1]), log[|log| - 1];
      if (Counted(e, Failure) && e.opens) || (Counted(e, Success) && e.after == CLOSED) then 0
      else if Counted(e, Failure) then n + 1
      else n
  }

  /** How many of the latest counted completions, without a break, were failures completed while CLOSED. */
  function ClosedStreak(log: seq<Entry>): nat
  {
    if log == [] then 0 else
      var n, e := ClosedStreak(log[..|log| - 1]), log[|log| - 1];
      if Counted(e, Success) || (Counted(e, Failure) && e.before != CLOSED) then 0
      else if Counted(e, Failure) then n + 1
      else n
  }

  /** The successes completed in HALF_OPEN since the latest admission that entered it from OPEN. */
  function ProbeSuccesses(log: seq<Entry>): nat
  {
    if log == [] then 0 else
      var n, e := ProbeSuccesses(log[..|log| - 1]), log[|log| - 1];
      if e.Admitted? && e.before == OPEN then 0
      else if Counted(e, Success) && e.before == HALF_OPEN then n + 1
      else n
  }

  // ---------------------------------------------------------------- invariant

  /** A threshold below one acts like one. */
  function AtLeastOne(threshold: int): nat
  {
    if threshold < 1 then 1 else threshold
  }

  /** Both counters stay below their thresholds, so reaching one is an event of its own. */
  ghost predicate BelowThresholds(p: Policy, b: Breaker)
  {
    && 0 <= b.failures < AtLeastOne(p.failureThreshold)
    && (b.state == HALF_OPEN ==> 0 <= b.successes < AtLeastOne(p.successThreshold))
  }

  lemma StepKeepsBelow(p: Policy, s: System, e: Event)
    requires BelowThresholds(p, s.b)
    ensures BelowThresholds(p, Step(p, s, e).b)
  {
  }

  ghost predicate CountersMatch(s: System)
  {
    && s.b.failures == FailuresSince(s.log)
    && (s.b.state == CLOSED ==> s.b.failures == ClosedStreak(s.log))
    && (s.b.state == HALF_OPEN ==> s.b.successes == ProbeSuccesses(s.log))
  }

  lemma AdmitKeepsCounters(s: System, s': System, e: Entry)
    requires CountersMatch(s) && s'.log == s.log + [e] && !e.Completed? && s'.b.failures == s.b.failures
    requires if e.Admitted? && e.before == OPEN then s'.b.state == HALF_OPEN && s'.b.successes == 0
             else s'.b.state == s.b.state && s'.b.successes == s.b.successes
    ensures CountersMatch(s')
  {
    assert s'.log[..|s.log|] == s.log;
  }

  lemma CompleteKeepsCounters(p: Policy, s: System, s': System, outcome: Outcome, now: real)
    requires CountersMatch(s) && s'.b == AfterCompletion(p, s.b, outcome, now)
    requires s'.log == s.log + [Completed(outcome, s.b.state, s'.b.state, outcome == Failure && Opens(p, s.b), now)]
    ensures CountersMatch(s')
  {
    assert s'.log[..|s.log|] == s.log;
  }

  lemma StepKeepsCounters(p: Policy, s: System, e: Event)
    requires CountersMatch(s)
    ensures CountersMatch(Step(p, s, e))
  {
    var s' := Step(p, s, e);
    if s' != s {
      match e
      case Admit(_, _) => AdmitKeepsCounters(s, s', s'.log[|s.log|]);
      case Complete(_, outcome, now) => CompleteKeepsCounters(p, s, s', outcome, now);
    }
  }

  /** Every opening so far lies a full timeout back, unless the breaker is still OPEN since then. */
  ghost predicate Quiet(p: Policy, s: System)
  {
    && (s.b.state != CLOSED ==> s.b.openedAt.Some?)
    && (s.b.openedAt.Some? ==> s.b.openedAt.value <= s.clock)
    && (forall i | 0 <= i < |s.log| && s.log[i].Completed? && s.log[i].opens ::
          && s.b.openedAt.Some? && s.log[i].now <= s.b.openedAt.value
          && (s.b.state != OPEN ==> s.log[i].now + p.timeout <= s.clock))
    && (forall i, j | 0 <= i < j < |s.log| && s.log[i].Completed? && s.log[i].opens && s.log[j].Admitted? ::
          s.log[i].now + p.timeout <= s.log[j].now)
  }

  lemma StepKeepsQuiet(p: Policy, s: System, e: Event)
    requires Quiet(p, s)
    ensures Quiet(p, Step(p, s, e))
  {
  }

  lemma {:induction false} RunKeepsInv(p: Policy, start: real, es: seq<Event>)
    ensures CountersMatch(Run(p, start, es)) && Quiet(p, Run(p, start, es)) && BelowThresholds(p, Run(p, start, es).b)
  {
    if es != [] {
      var s, e := Run(p, start, es[..|es| - 1]), es[|es| - 1];
      RunKeepsInv(p, start, es[..|es| - 1]);
      StepKeepsCounters(p, s, e);
      StepKeepsQuiet(p, s, e);
      StepKeepsBelow(p, s, e);
    }
  }

  lemma ReachableInv(p: Policy, s: System)
    requires Reachable(p, s)
    ensures CountersMatch(s) && Quiet(p, s) && BelowThresholds(p, s.b)
  {
    var start, es :| Run(p, start, es) == s;
    RunKeepsInv(p, start, es);
  }

  // ---------------------------------------------------------------- theorems

  /**
   * A failure opens the breaker exactly when it is the failureThreshold-th counted since the latest
   * opening, closing or success while CLOSED; one that completes while CLOSED does so exactly when
   * it is the failureThreshold-th in a row completed while CLOSED.  The counts never get further.
   */
  lemma OpensExactlyAtThreshold(p: Policy, s: System, c: nat, now: real)
    requires Reachable(p, s) && c in s.inFlight && s.clock <= now
    ensures var s', limit := Step(p, s, Complete(c, Failure, now)), AtLeastOne(p.failureThreshold);
            && FailuresSince(s.log) < limit
            && (s'.log[|s.log|].opens <==> FailuresSince(s.log) + 1 == limit)
            && (s'.log[|s.log|].opens ==> s'.b.state == OPEN && s'.b.openedAt == Some(now))
            && (!s'.log[|s.log|].opens ==> s'.b.state == s.b.state && s'.b.openedAt == s.b.openedAt)
            && (s.b.state == CLOSED ==>
                  ClosedStreak(s.log) < limit && (s'.b.state == OPEN <==> ClosedStreak(s.log) + 1 == limit))
  {
    ReachableInv(p, s);
  }

  /** HALF_OPEN turns CLOSED exactly on the successThreshold-th success since it was entered. */
  lemma ClosesExactlyAtThreshold(p: Policy, s: System, c: nat, now: real)
    requires Reachable(p, s) && c in s.inFlight && s.clock <= now && s.b.state == HALF_OPEN
    ensures var s', limit := Step(p, s, Complete(c, Success, now)), AtLeastOne(p.successThreshold);
            && ProbeSuccesses(s.log) < limit
            && (s'.b.state == CLOSED <==> ProbeSuccesses(s.log) + 1 == limit)
            && (s'.b.state != CLOSED ==> s'.b.state == HALF_OPEN)
  {
    ReachableInv(p, s);
  }

  /** After an opening at T, by whatever call, no call is admitted before T + timeout. */
  lemma QuietPeriod(p: Policy, s: System, i: nat, j: nat)
    requires Reachable(p, s) && i < j < |s.log|
    requires s.log[i].Completed? && s.log[i].opens && s.log[j].Admitted?
    ensures s.log[i].now + p.timeout <= s.log[j].now
  {
    ReachableInv(p, s);
  }

  /** A call is rejected exactly while OPEN and before the timeout since the latest opening is over. */
  lemma RejectsExactlyWhileOpen(p: Policy, s: System, c: nat, now: real)
    requires Reachable(p, s) && c !in s.inFlight && s.clock <= now
    ensures var s' := Step(p, s, Admit(c, now));
            && (s.b.state == OPEN ==> s.b.openedAt.Some?)
            && (c !in s'.inFlight <==> s.b.state == OPEN && now < s.b.openedAt.value + p.timeout)
            && (s'.b.state == if c in s'.inFlight && s.b.state == OPEN then HALF_OPEN else s.b.state)
  {
    ReachableInv(p, s);
  }

  /** The steps that change the state: a failure at the threshold opens, a success at the threshold closes
      HALF_OPEN, an admission after the timeout makes OPEN HALF_OPEN; no other step does. */
  lemma ChangesStateExactly(p: Policy, s: System, e: Event)
    requires Reachable(p, s) && s.clock <= e.now && (e.Complete? <==> e.c in s.inFlight)
    ensures var b, b' := s.b, Step(p, s, e).b;
            && (b.state != OPEN ==> (b'.state == OPEN <==>
                  e.Complete? && e.outcome == Failure && FailuresSince(s.log) + 1 == AtLeastOne(p.failureThreshold)))
            && (b.state != CLOSED ==> (b'.state == CLOSED <==>
                  e.Complete? && e.outcome == Success && b.state == HALF_OPEN
                  && ProbeSuccesses(s.log) + 1 == AtLeastOne(p.successThreshold)))
            && (b.state != HALF_OPEN ==> (b'.state == HALF_OPEN <==>
                  e.Admit? && b.state == OPEN && b.openedAt.Some? && e.now - b.openedAt.value >= p.timeout))
  {
    ReachableInv(p, s);
  }

  /** An excluded exception leaves the breaker as it was. */
  lemma ExcludedChangesNothing(p: Policy, s: System, c: nat, now: real)
    ensures Step(p, s, Complete(c, Excluded, now)).b == s.b
  {
  }

  // ---------------------------------------------------------------- failures in HALF_OPEN

  lemma FailedCall(p: Policy, s: System) returns (s': System)
    requires Reachable(p, s) && s.b.state == CLOSED && s.inFlight == {}
    ensures Reachable(p, s') && s'.inFlight == {} && s'.clock == s.clock && s'.b == OnFailure(p, s.b, s.clock)
  {
    StepIsReachable(p, s, Admit(0, s.clock));
    var t := Step(p, s, Admit(0, s.clock));
    assert t.b == s.b && t.inFlight == {0};
    StepIsReachable(p, t, Complete(0, Failure, s.clock));
    s' := Step(p, t, Complete(0, Failure, s.clock));
  }

  lemma {:induction false} FailTimes(p: Policy, n: nat) returns (s: System)
    requires n < p.failureThreshold
    ensures Reachable(p, s) && s.inFlight == {} && s.b == Breaker(CLOSED, n, 0, None)
  {
    if n == 0 {
      s := System(FRESH_BREAKER, 0.0, {}, []);
      assert Run(p, 0.0, []) == s;
    } else {
      s := FailTimes(p, n - 1);
      s := FailedCall(p, s);
    }
  }

  /** HALF_OPEN right after the timeout, with a call in flight and no failure counted. */
  lemma JustHalfOpen(p: Policy) returns (s: System)
    requires p.failureThreshold >= 1
    ensures Reachable(p, s) && s.b.state == HALF_OPEN && s.b.failures == 0 && 0 in s.inFlight
  {
    s := FailTimes(p, p.failureThreshold - 1);
    s := FailedCall(p, s);
    var later := s.clock + if p.timeout < 0.0 then 0.0 else p.timeout;
    StepIsReachable(p, s, Admit(0, later));
    s := Step(p, s, Admit(0, later));
  }

  /** One failed probe does not always reopen the breaker: it does in every run exactly when a
      single failure would have opened it anyway. */
  lemma ProbeFailureReopensExactly(p: Policy)
    ensures p.failureThreshold <= 1 <==>
            forall s: System, now: real | Reachable(p, s) && s.b.state == HALF_OPEN :: OnFailure(p, s.b, now).state == OPEN
  {
    if p.failureThreshold <= 1 {
      forall s: System, now: real | Reachable(p, s) && s.b.state == HALF_OPEN ensures OnFailure(p, s.b, now).state == OPEN {
        ReachableInv(p, s);
      }
    } else {
      var s := JustHalfOpen(p);
      assert OnFailure(p, s.b, 0.0).state == HALF_OPEN;
    }
  }

  // ---------------------------------------------------------------- the class

  class CircuitBreaker {
    const policy: Policy
    var state: State
    var failureCount: int
    var successCount: int
    var openedAt: Option<real>

    function Value(): Breaker
      reads this
    {
      Breaker(state, failureCount, successCount, openedAt)
    }

    constructor (p: Policy)
      ensures policy == p && Value() == FRESH_BREAKER
    {
      policy := p;
      state, failureCount, successCount, openedAt := CLOSED, 0, 0, None;
    }

    /** The locked section at the start of `call`. */
    method Enter(now: real) returns (admitted: bool)
      modifies this
      ensures Value() == MaybeHalfOpen(policy, old(Value()), now)
      ensures admitted <==> state != OPEN
    {
      if state == OPEN && openedAt.Some? && now - openedAt.value >= policy.timeout {
        state := HALF_OPEN;
        successCount := 0;
      }
      admitted := state != OPEN;
    }

    method RecordSuccess()
      modifies this
      ensures Value() == OnSuccess(policy, old(Value()))
    {
      if state == HALF_OPEN {
        successCount := successCount + 1;
        if successCount >= policy.successThreshold {
          state := CLOSED;
          failureCount := 0;
        }
      } else if state == CLOSED {
        failureCount := 0;
      }
    }

    method RecordFailure(now: real)
      modifies this
      ensures Value() == OnFailure(policy, old(Value()), now)
    {
      failureCount := failureCount + 1;
      if failureCount >= policy.failureThreshold {
        state := OPEN;
        openedAt := Some(now);
        failureCount := 0;
      }
    }
  }
}
