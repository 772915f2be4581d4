/**
 * What moves the shared `RedisCircuitBreaker` between its states: the failures it has counted, in
 * every run of any number of clients, and exactly the steps that change state or probe lock.
 */
module RedisCounting {
  import opened Common
  import opened RedisBreakers

  /** The failures recorded in the run since the latest recorded success or reset. */
  function FailuresSince(p: Policy, es: seq<Event>): nat
  {
    if es == [] then 0
    else
      var init, e := es[..|es| - 1], es[|es| - 1];
      if e.Reset? || (e.Succeed? && IsRunning(Run(p, init), e.c)) then 0
      else FailuresSince(p, init) + if e.Fail? && IsRunning(Run(p, init), e.c) then 1 else 0
  }

  /** In every run, while CLOSED the counter is the number of failures since the latest success or reset. */
  lemma {:induction false} CountsFailuresSince(p: Policy, es: seq<Event>)
    ensures Current(Run(p, es).keys) == CLOSED ==> Count(Run(p, es).keys) == FailuresSince(p, es)
  {
    if es != [] {
      CountsFailuresSince(p, es[..|es| - 1]);
    }
  }

  /** A failure opens a CLOSED breaker exactly when it is the Limit(p)-th since the latest success or reset. */
  lemma OpensExactlyAtLimit(p: Policy, es: seq<Event>, c: nat, stamp: real)
    requires Current(Run(p, es).keys) == CLOSED && IsRunning(Run(p, es), c)
    ensures var s' := Step(p, Run(p, es), Fail(c, stamp));
            && FailuresSince(p, es) < Limit(p)
            && if FailuresSince(p, es) + 1 == Limit(p) then Current(s'.keys) == OPEN && s'.keys.openedAt == Some(stamp)
               else Current(s'.keys) == CLOSED
  {
    KeysAreConsistent(p, Run(p, es));
    CountsFailuresSince(p, es);
  }

  /** The keys after failures at these times, one after the other. */
  function Failures(p: Policy, k: Keys, stamps: seq<real>): Keys
  {
    if stamps == [] then k else LuaFailure(p, Failures(p, k, stamps[..|stamps| - 1]), stamps[|stamps| - 1])
  }

  /** A success while CLOSED forgives all failures before it: Limit(p) new ones open the breaker and no fewer. */
  lemma {:induction false} SuccessForgives(p: Policy, s: System, stamps: seq<real>)
    requires Reachable(p, s) && Current(s.keys) == CLOSED
    ensures var k := Failures(p, LuaSuccess(p, s.keys), stamps);
            Count(k) == |stamps| && Current(k) == if |stamps| < Limit(p) then CLOSED else OPEN
  {
    KeysAreConsistent(p, s);
    if stamps != [] {
      SuccessForgives(p, s, stamps[..|stamps| - 1]);
    }
  }

  /** The steps that change the state: a failure at the threshold opens, a success at the threshold closes
      HALF_OPEN, a reset closes, a promotion makes HALF_OPEN; nothing else does, whatever the state. */
  lemma ChangesStateExactly(p: Policy, s: System, e: Event)
    ensures var k, k' := s.keys, Step(p, s, e).keys;
            && (Current(k) != OPEN ==> (Current(k') == OPEN <==>
                  e.Fail? && IsRunning(s, e.c) && Count(k) + 1 >= p.failureThreshold))
            && (Current(k) != CLOSED ==> (Current(k') == CLOSED <==>
                  e.Reset? || (e.Succeed? && IsRunning(s, e.c) && Current(k) == HALF_OPEN && Count(k) + 1 >= p.successThreshold)))
            && (Current(k) != HALF_OPEN ==> (Current(k') == HALF_OPEN <==>
                  e.Promote? && At(s, e.c, Promoting) && k.state.Some?))
  {
  }

  /** An opening is dated by the failure that causes it, also while OPEN; only a closing or a reset erases it. */
  lemma DatesOpeningsExactly(p: Policy, s: System, e: Event)
    ensures var k, k' := s.keys, Step(p, s, e).keys;
            k'.openedAt ==
              if e.Fail? && IsRunning(s, e.c) && Count(k) + 1 >= p.failureThreshold then Some(e.stamp)
              else if e.Reset? || (Current(k) == HALF_OPEN && Current(k') == CLOSED) then None
              else k.openedAt
  {
  }

  /** Only taking it, a success, a reset or its own end change the probe lock; a failed probe keeps it. */
  lemma KeepsProbeLock(p: Policy, s: System, e: Event)
    requires !e.TakeProbe? && !e.Release? && !e.Reset? && !e.ExpireProbe?
    ensures Step(p, s, e).keys.probe == s.keys.probe
  {
  }

  /** The probe lock that a client takes ends, by itself, exactly when its ttl is over. */
  lemma ProbeLockEnds(p: Policy, s: System, c: nat, d: real)
    requires At(s, c, Probing) && s.keys.probe.None? && d >= 0.0
    ensures var held := Step(p, s, TakeProbe(c));
            && held.keys.probe.Some?
            && (Step(p, Step(p, held, Tick(d)), ExpireProbe).keys.probe.None? <==> d >= p.probeTtl)
  {
  }
}
