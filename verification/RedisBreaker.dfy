/**
 * `RedisCircuitBreaker`: four Redis keys shared by any number of clients.  Each Redis command
 * and each Lua script is one atomic step; between two of them any other client may run.
 */
module RedisBreakers {
  import opened Common

  datatype State = CLOSED | OPEN | HALF_OPEN

  datatype Policy = Policy(failureThreshold: int, successThreshold: int, timeout: real, probeTtl: real)

  /** The keys under one prefix; `failures` counts failures and, in HALF_OPEN, successes too.
      `probe` is the deadline of the probe lock. */
  datatype Keys = Keys(state: Option<State>, failures: Option<int>, openedAt: Option<real>, probe: Option<real>)

  const NO_KEYS := Keys(None, None, None, None)

  function Current(k: Keys): State
  {
    if k.state.None? then CLOSED else k.state.value
  }

  function Count(k: Keys): int
  {
    if k.failures.None? then 0 else k.failures.value
  }

  /** The script that records a failure. */
  function LuaFailure(p: Policy, k: Keys, stamp: real): Keys
  {
    var n := Count(k) + 1;
    if n >= p.failureThreshold then k.(failures := Some(n), state := Some(OPEN), openedAt := Some(stamp))
    else k.(failures := Some(n))
  }

  /** The script that records a success. */
  function LuaSuccess(p: Policy, k: Keys): Keys
  {
    match Current(k)
    case HALF_OPEN =>
      var n := Count(k) + 1;
      if n >= p.successThreshold then k.(state := Some(CLOSED), failures := Some(0), openedAt := None)
      else k.(failures := Some(n))
    case CLOSED => k.(failures := Some(0))
    case OPEN => k
  }

  /** SET state HALF_OPEN XX: only an existing key is overwritten, whatever its value. */
  function SetHalfOpen(k: Keys): Keys
  {
    if k.state.Some? then k.(state := Some(HALF_OPEN)) else k
  }

  /** The count that opens the breaker: a threshold below one acts like one. */
  function Limit(p: Policy): nat
  {
    if p.failureThreshold < 1 then 1 else p.failureThreshold
  }

  // ---------------------------------------------------------------- clients

  /** When the probe lock was taken, and how often it had been deleted until then. */
  datatype Probe = Probe(since: real, dels: nat)

  datatype Pc =
    | Start
    | SawOpen
    | SawStamp(stamp: real)
    | Promoting
    | Probing
    | Running(probe: Option<Probe>)
    | Releasing
    | Rejected
    | Done

  /** `dels` counts the deletions of the probe lock so far; `skewed` says that some client's clock was
      ahead when it recorded a failure. */
  datatype System = System(keys: Keys, now: real, dels: nat, clients: map<nat, Pc>, skewed: bool)

  datatype Event =
    | Call(c: nat)
    | ReadState(c: nat)
    | ReadOpenedAt(c: nat)
    | Decide(c: nat)
    | Promote(c: nat)
    | TakeProbe(c: nat)
    | Succeed(c: nat)
    | Fail(c: nat, stamp: real)
    | FailExcluded(c: nat)
    | Release(c: nat)
    | Reset
    | ExpireProbe
    | Tick(d: real)

  predicate At(s: System, c: nat, pc: Pc)
  {
    c in s.clients && s.clients[c] == pc
  }

  predicate IsRunning(s: System, c: nat)
  {
    c in s.clients && s.clients[c].Running?
  }

  function Go(s: System, c: nat, pc: Pc): System
  {
    s.(clients := s.clients[c := pc])
  }

  function AfterRead(st: State): Pc
  {
    match st
    case CLOSED => Running(None)
    case OPEN => SawOpen
    case HALF_OPEN => Probing
  }

  /** One atomic step; an event that is not enabled changes nothing. */
  function Step(p: Policy, s: System, e: Event): System
  {
    match e
    case Call(c) => if c in s.clients then s else Go(s, c, Start)
    case ReadState(c) => if !At(s, c, Start) then s else Go(s, c, AfterRead(Current(s.keys)))
    case ReadOpenedAt(c) =>
      if !At(s, c, SawOpen) then s
      else Go(s, c, if s.keys.openedAt.None? then Rejected else SawStamp(s.keys.openedAt.value))
    case Decide(c) =>
      if c !in s.clients || !s.clients[c].SawStamp? then s
      else Go(s, c, if s.now - s.clients[c].stamp >= p.timeout then Promoting else Rejected)
    case Promote(c) => if !At(s, c, Promoting) then s else Go(s, c, Probing).(keys := SetHalfOpen(s.keys))
    case TakeProbe(c) =>
      if !At(s, c, Probing) then s
      else if s.keys.probe.Some? then Go(s, c, Rejected)
      else Go(s, c, Running(Some(Probe(s.now, s.dels)))).(keys := s.keys.(probe := Some(s.now + p.probeTtl)))
    case Succeed(c) => if !IsRunning(s, c) then s else Go(s, c, Releasing).(keys := LuaSuccess(p, s.keys))
    case Fail(c, stamp) =>
      if !IsRunning(s, c) then s
      else Go(s, c, Done).(keys := LuaFailure(p, s.keys, stamp), skewed := s.skewed || stamp > s.now)
    case FailExcluded(c) => if !IsRunning(s, c) then s else Go(s, c, Done)
    case Release(c) =>
      if !At(s, c, Releasing) then s else Go(s, c, Done).(keys := s.keys.(probe := None), dels := s.dels + 1)
    case Reset => s.(keys := NO_KEYS, dels := s.dels + 1)
    case ExpireProbe =>
      if s.keys.probe.Some? && s.keys.probe.value <= s.now then s.(keys := s.keys.(probe := None)) else s
    case Tick(d) => if d < 0.0 then s else s.(now := s.now + d)
  }

  const INIT := System(NO_KEYS, 0.0, 0, map[], false)

  function Run(p: Policy, es: seq<Event>): System
  {
    if es == [] then INIT else Step(p, Run(p, es[..|es| - 1]), es[|es| - 1])
  }

  ghost predicate Reachable(p: Policy, s: System)
  {
    exists es :: Run(p, es) == s
  }

  lemma InitIsReachable(p: Policy)
    ensures Reachable(p, INIT)
  {
    assert Run(p, []) == INIT;
  }

  lemma StepIsReachable(p: Policy, s: System, e: Event)
    requires Reachable(p, s)
    ensures Reachable(p, Step(p, s, e))
  {
    var es :| Run(p, es) == s;
    assert (es + [e])[..|es|] == es;
    assert Run(p, es + [e]) == Step(p, s, e);
  }

  // ---------------------------------------------------------------- invariant

  ghost predicate KeysInv(p: Policy, k: Keys)
  {
    && Count(k) >= 0
    && (Current(k) == OPEN ==> k.openedAt.Some?)
    && (k.openedAt.Some? ==> Current(k) != CLOSED && Count(k) >= Limit(p))
    && (Current(k) == CLOSED ==> Count(k) < Limit(p))
  }

  lemma ScriptsKeepInv(p: Policy, k: Keys, stamp: real)
    requires KeysInv(p, k)
    ensures KeysInv(p, LuaFailure(p, k, stamp)) && KeysInv(p, LuaSuccess(p, k)) && KeysInv(p, SetHalfOpen(k))
  {
  }

  lemma StepKeepsKeys(p: Policy, s: System, e: Event)
    requires KeysInv(p, s.keys)
    ensures KeysInv(p, Step(p, s, e).keys)
  {
    ScriptsKeepInv(p, s.keys, if e.Fail? then e.stamp else 0.0);
  }

  /** A probe whose time is not up and since which nobody deleted the lock still has it. */
  ghost predicate ProbeInv(p: Policy, s: System, probe: Probe)
  {
    && probe.since <= s.now && probe.dels <= s.dels
    && (probe.dels == s.dels && s.now < probe.since + p.probeTtl ==> s.keys.probe == Some(probe.since + p.probeTtl))
  }

  /** The earlier of two overlapping probes had run out or its lock had been deleted. */
  ghost predicate Superseded(p: Policy, a: Probe, b: Probe)
  {
    a.since + p.probeTtl <= b.since || a.dels < b.dels
  }

  ghost predicate ProbesInv(p: Policy, s: System)
  {
    && (forall c | IsRunning(s, c) && s.clients[c].probe.Some? :: ProbeInv(p, s, s.clients[c].probe.value))
    && (forall c, d | c != d && IsRunning(s, c) && IsRunning(s, d) && s.clients[c].probe.Some? && s.clients[d].probe.Some? ::
          Superseded(p, s.clients[c].probe.value, s.clients[d].probe.value)
          || Superseded(p, s.clients[d].probe.value, s.clients[c].probe.value))
  }

  lemma TakeProbeKeepsInv(p: Policy, s: System, c: nat)
    requires ProbesInv(p, s)
    ensures ProbesInv(p, Step(p, s, TakeProbe(c)))
  {
    var s' := Step(p, s, TakeProbe(c));
    forall a, b | a != b && IsRunning(s', a) && IsRunning(s', b) && s'.clients[a].probe.Some? && s'.clients[b].probe.Some?
      ensures Superseded(p, s'.clients[a].probe.value, s'.clients[b].probe.value)
           || Superseded(p, s'.clients[b].probe.value, s'.clients[a].probe.value)
    {
      if At(s, c, Probing) && (a == c || b == c) {
        var other := if a == c then b else a;
        assert ProbeInv(p, s, s.clients[other].probe.value);
      }
    }
  }

  /** A step that starts no probe and touches the lock only by deleting or expiring it. */
  ghost predicate NoNewProbe(s: System, s': System)
  {
    && s.now <= s'.now && s.dels <= s'.dels
    && (forall c | IsRunning(s', c) && s'.clients[c].probe.Some? :: IsRunning(s, c) && s.clients[c] == s'.clients[c])
    && (s'.dels == s.dels ==>
          s'.keys.probe == s.keys.probe || (s.keys.probe.Some? && s.keys.probe.value <= s.now))
  }

  lemma NoNewProbeKeepsInv(p: Policy, s: System, s': System)
    requires ProbesInv(p, s) && NoNewProbe(s, s')
    ensures ProbesInv(p, s')
  {
    forall c | IsRunning(s', c) && s'.clients[c].probe.Some? ensures ProbeInv(p, s', s'.clients[c].probe.value) {
      assert ProbeInv(p, s, s.clients[c].probe.value);
    }
  }

  lemma StepKeepsProbes(p: Policy, s: System, e: Event)
    requires ProbesInv(p, s)
    ensures ProbesInv(p, Step(p, s, e))
  {
    if e.TakeProbe? {
      TakeProbeKeepsInv(p, s, e.c);
    } else {
      assert NoNewProbe(s, Step(p, s, e));
      NoNewProbeKeepsInv(p, s, Step(p, s, e));
    }
  }

  lemma {:induction false} RunKeepsInv(p: Policy, es: seq<Event>)
    ensures KeysInv(p, Run(p, es).keys) && ProbesInv(p, Run(p, es))
  {
    if es != [] {
      var s, e := Run(p, es[..|es| - 1]), es[|es| - 1];
      RunKeepsInv(p, es[..|es| - 1]);
      StepKeepsProbes(p, s, e);
      StepKeepsKeys(p, s, e);
    }
  }

  // ---------------------------------------------------------------- theorems

  /** Under all interleavings the keys agree with each other; OPEN is never without its timestamp. */
  lemma KeysAreConsistent(p: Policy, s: System)
    requires Reachable(p, s)
    ensures KeysInv(p, s.keys)
  {
    var es :| Run(p, es) == s;
    RunKeepsInv(p, es);
  }

  /** A failure in a HALF_OPEN that was reached from OPEN reopens the breaker in that same step. */
  lemma ProbeFailureReopens(p: Policy, s: System, stamp: real)
    requires Reachable(p, s)
    requires Current(s.keys) == HALF_OPEN && s.keys.openedAt.Some?
    ensures Current(LuaFailure(p, s.keys, stamp)) == OPEN && LuaFailure(p, s.keys, stamp).openedAt == Some(stamp)
  {
    KeysAreConsistent(p, s);
  }

  /** Two calls run as probes at once only if the earlier one's lock ran out or was deleted before
      the later one took it. */
  lemma OverlappingProbes(p: Policy, s: System, c: nat, d: nat)
    requires Reachable(p, s) && c != d && IsRunning(s, c) && IsRunning(s, d)
    requires s.clients[c].probe.Some? && s.clients[d].probe.Some?
    ensures Superseded(p, s.clients[c].probe.value, s.clients[d].probe.value)
         || Superseded(p, s.clients[d].probe.value, s.clients[c].probe.value)
  {
    var es :| Run(p, es) == s;
    RunKeepsInv(p, es);
  }

  // ---------------------------------------------------------------- constructing runs

  /** A call that reads CLOSED and fails. */
  function FailedCall(p: Policy, s: System, c: nat): System
  {
    Step(p, Step(p, Step(p, s, Call(c)), ReadState(c)), Fail(c, s.now))
  }

  lemma FailedCallEffect(p: Policy, s: System, c: nat)
    requires Reachable(p, s) && c !in s.clients && Current(s.keys) == CLOSED
    ensures FailedCall(p, s, c) == Go(s, c, Done).(keys := LuaFailure(p, s.keys, s.now))
    ensures Reachable(p, FailedCall(p, s, c))
  {
    var s1, s2 := Go(s, c, Start), Go(s, c, Running(None));
    StepIsReachable(p, s, Call(c));
    assert Step(p, s, Call(c)) == s1;
    StepIsReachable(p, s1, ReadState(c));
    assert Step(p, s1, ReadState(c)) == s2;
    StepIsReachable(p, s2, Fail(c, s.now));
  }

  /** After n failed calls, n < threshold, the breaker is still closed and has counted them. */
  lemma {:induction false} FailTimes(p: Policy, n: nat) returns (s: System)
    requires n < Limit(p)
    ensures Reachable(p, s) && s.keys == Keys(None, if n == 0 then None else Some(n), None, None)
    ensures s.now == 0.0 && !s.skewed && forall c | c in s.clients :: c < n
  {
    if n == 0 {
      InitIsReachable(p);
      s := INIT;
    } else {
      s := FailTimes(p, n - 1);
      FailedCallEffect(p, s, n - 1);
      s := FailedCall(p, s, n - 1);
    }
  }

  /** The breaker as the threshold's failure leaves it: OPEN with the counter at the threshold. */
  lemma JustOpened(p: Policy) returns (s: System, unused: nat)
    ensures Reachable(p, s) && s.keys == Keys(Some(OPEN), Some(Limit(p)), Some(0.0), None)
    ensures s.now == 0.0 && !s.skewed && forall c | c in s.clients :: c < unused
  {
    s := FailTimes(p, Limit(p) - 1);
    FailedCallEffect(p, s, Limit(p) - 1);
    s := FailedCall(p, s, Limit(p) - 1);
    unused := Limit(p);
  }

  /** A call that finds OPEN, waits for its decision until the timeout is over, and will promote. */
  function AboutToPromote(p: Policy, s: System, c: nat): System
  {
    Step(p, Step(p, Step(p, Step(p, s, Call(c)), ReadState(c)), ReadOpenedAt(c)), Decide(c))
  }

  lemma AboutToPromoteEffect(p: Policy, s: System, c: nat)
    requires Reachable(p, s) && c !in s.clients && Current(s.keys) == OPEN
    requires s.keys.openedAt.Some? && s.now - s.keys.openedAt.value >= p.timeout
    ensures AboutToPromote(p, s, c) == Go(s, c, Promoting) && Reachable(p, AboutToPromote(p, s, c))
  {
    var s1, s2, s3 := Go(s, c, Start), Go(s, c, SawOpen), Go(s, c, SawStamp(s.keys.openedAt.value));
    StepIsReachable(p, s, Call(c));
    assert Step(p, s, Call(c)) == s1;
    StepIsReachable(p, s1, ReadState(c));
    assert Step(p, s1, ReadState(c)) == s2;
    StepIsReachable(p, s2, ReadOpenedAt(c));
    assert Step(p, s2, ReadOpenedAt(c)) == s3;
    StepIsReachable(p, s3, Decide(c));
    assert Step(p, s3, Decide(c)) == Go(s, c, Promoting);
  }

  lemma PromotedBy(p: Policy, s: System, c: nat) returns (s': System)
    requires Reachable(p, s) && c !in s.clients && Current(s.keys) == OPEN
    requires s.keys.openedAt.Some? && s.now - s.keys.openedAt.value >= p.timeout
    ensures Reachable(p, s') && s' == Go(s, c, Probing).(keys := SetHalfOpen(s.keys))
    ensures s' == Step(p, AboutToPromote(p, s, c), Promote(c))
  {
    AboutToPromoteEffect(p, s, c);
    var t := Go(s, c, Promoting);
    StepIsReachable(p, t, Promote(c));
    s' := Step(p, t, Promote(c));
  }

  /** The steps of one call up to its admission or rejection, with nobody else running. */
  function Admission(p: Policy, s: System, c: nat): System
  {
    Step(p, Step(p, AboutToPromote(p, s, c), Promote(c)), TakeProbe(c))
  }

  /** The timeout since the recorded opening is over. */
  predicate TimedOut(p: Policy, s: System)
  {
    s.keys.openedAt.Some? && s.now - s.keys.openedAt.value >= p.timeout
  }

  function AfterTake(p: Policy, s: System, c: nat): System
  {
    if s.keys.probe.Some? then Go(s, c, Rejected)
    else Go(s, c, Running(Some(Probe(s.now, s.dels)))).(keys := s.keys.(probe := Some(s.now + p.probeTtl)))
  }

  lemma AdmissionWhenNotOpen(p: Policy, s: System, c: nat)
    requires c !in s.clients && Current(s.keys) != OPEN
    ensures Admission(p, s, c) == if Current(s.keys) == CLOSED then Go(s, c, Running(None)) else AfterTake(p, s, c)
  {
    var t := Go(s, c, AfterRead(Current(s.keys)));
    assert Step(p, s, Call(c)) == Go(s, c, Start);
    assert Step(p, Go(s, c, Start), ReadState(c)) == t;
    assert AboutToPromote(p, s, c) == t;
    assert Step(p, t, Promote(c)) == t;
  }

  lemma AdmissionTooEarly(p: Policy, s: System, c: nat)
    requires c !in s.clients && Current(s.keys) == OPEN && !TimedOut(p, s)
    ensures Admission(p, s, c) == Go(s, c, Rejected)
  {
    var t := Go(s, c, if s.keys.openedAt.None? then Rejected else SawStamp(s.keys.openedAt.value));
    assert Step(p, s, Call(c)) == Go(s, c, Start);
    assert Step(p, Go(s, c, Start), ReadState(c)) == Go(s, c, SawOpen);
    assert Step(p, Go(s, c, SawOpen), ReadOpenedAt(c)) == t;
    assert Step(p, t, Decide(c)) == Go(s, c, Rejected);
  }

  lemma AdmissionAfterTimeout(p: Policy, s: System, c: nat)
    requires Reachable(p, s) && c !in s.clients && Current(s.keys) == OPEN && TimedOut(p, s)
    ensures Admission(p, s, c) == AfterTake(p, s.(keys := SetHalfOpen(s.keys)), c)
  {
    var t := PromotedBy(p, s, c);
  }

  /**
   * From every reachable state, a call by itself runs exactly if the breaker is CLOSED, or if no
   * probe lock is there and the breaker is HALF_OPEN or the timeout is over.  In particular OPEN
   * is never stuck, and admits nobody before the timeout.
   */
  lemma AdmitsExactly(p: Policy, s: System, c: nat)
    requires Reachable(p, s) && c !in s.clients
    ensures var s', st := Admission(p, s, c), Current(s.keys);
            && c in s'.clients && (s'.clients[c].Running? || s'.clients[c] == Rejected)
            && (s'.clients[c].Running? <==>
                  st == CLOSED || (s.keys.probe.None? && (st == HALF_OPEN || TimedOut(p, s))))
            && Current(s'.keys) == (if st == OPEN && TimedOut(p, s) then HALF_OPEN else st)
            && (st == OPEN ==> s.keys.openedAt.Some?)
  {
    KeysAreConsistent(p, s);
    if Current(s.keys) != OPEN {
      AdmissionWhenNotOpen(p, s, c);
    } else if TimedOut(p, s) {
      AdmissionAfterTimeout(p, s, c);
    } else {
      AdmissionTooEarly(p, s, c);
    }
  }

  /** An excluded exception changes no key. */
  lemma ExcludedChangesNothing(p: Policy, s: System, c: nat)
    ensures Step(p, s, FailExcluded(c)).keys == s.keys
  {
  }

  /** OPEN for long enough, with nobody at work on it yet. */
  lemma TimeoutOver(p: Policy) returns (s: System, unused: nat)
    ensures Reachable(p, s) && s.keys == Keys(Some(OPEN), Some(Limit(p)), Some(0.0), None)
    ensures s.now >= p.timeout && !s.skewed && forall c | c in s.clients :: c < unused
  {
    s, unused := JustOpened(p);
    var d := if p.timeout < 0.0 then 0.0 else p.timeout;
    StepIsReachable(p, s, Tick(d));
    s := Step(p, s, Tick(d));
  }

  /** The breaker as soon as the first call after the timeout has promoted it. */
  lemma HalfOpenAfterTimeout(p: Policy) returns (s: System, unused: nat, stale: nat)
    ensures Reachable(p, s) && Current(s.keys) == HALF_OPEN && s.keys.openedAt.Some? && s.keys.probe.None?
    ensures Count(s.keys) == Limit(p) && !s.skewed
    ensures (forall c | c in s.clients :: c < unused) && stale < unused && At(s, stale, Promoting)
  {
    s, stale := TimeoutOver(p);
    AboutToPromoteEffect(p, s, stale);
    s := PromotedBy(p, Go(s, stale, Promoting), stale + 1);
    unused := stale + 2;
  }

  /** A call that finds HALF_OPEN, probes alone and succeeds. */
  function GoodProbe(p: Policy, s: System, c: nat): System
  {
    Step(p, Step(p, Step(p, Step(p, Step(p, s, Call(c)), ReadState(c)), TakeProbe(c)), Succeed(c)), Release(c))
  }

  lemma GoodProbeEffect(p: Policy, s: System, c: nat)
    requires Reachable(p, s) && c !in s.clients && Current(s.keys) == HALF_OPEN && s.keys.probe.None?
    ensures GoodProbe(p, s, c) == Go(s, c, Done).(keys := LuaSuccess(p, s.keys), dels := s.dels + 1)
    ensures Reachable(p, GoodProbe(p, s, c))
  {
    var s1, s2 := Go(s, c, Start), Go(s, c, Probing);
    StepIsReachable(p, s, Call(c));
    assert Step(p, s, Call(c)) == s1;
    StepIsReachable(p, s1, ReadState(c));
    assert Step(p, s1, ReadState(c)) == s2;
    var locked := s.keys.(probe := Some(s.now + p.probeTtl));
    var s3 := Go(s, c, Running(Some(Probe(s.now, s.dels)))).(keys := locked);
    StepIsReachable(p, s2, TakeProbe(c));
    assert Step(p, s2, TakeProbe(c)) == s3;
    ReleaseEffect(p, s, s3, c);
  }

  lemma ReleaseEffect(p: Policy, s: System, t: System, c: nat)
    requires Reachable(p, t) && s.keys.probe.None? && IsRunning(t, c)
    requires t == Go(s, c, t.clients[c]).(keys := s.keys.(probe := t.keys.probe))
    ensures Step(p, Step(p, t, Succeed(c)), Release(c)) == Go(s, c, Done).(keys := LuaSuccess(p, s.keys), dels := s.dels + 1)
    ensures Reachable(p, Step(p, Step(p, t, Succeed(c)), Release(c)))
  {
    StepIsReachable(p, t, Succeed(c));
    var u := Go(s, c, Releasing).(keys := LuaSuccess(p, t.keys));
    assert Step(p, t, Succeed(c)) == u;
    StepIsReachable(p, u, Release(c));
  }

  /** Probing successfully often enough closes the breaker, and disturbs no other client. */
  lemma {:induction false} CloseByProbes(p: Policy, s: System, unused: nat, other: nat) returns (s': System, unused': nat)
    requires Reachable(p, s) && Current(s.keys) == HALF_OPEN && s.keys.probe.None?
    requires (forall c | c in s.clients :: c < unused) && other in s.clients
    ensures Reachable(p, s') && s'.keys == Keys(Some(CLOSED), Some(0), None, None)
    ensures other in s'.clients && s'.clients[other] == s.clients[other] && s'.skewed == s.skewed
    ensures forall c | c in s'.clients :: c < unused'
    decreases p.successThreshold - Count(s.keys)
  {
    GoodProbeEffect(p, s, unused);
    s', unused' := GoodProbe(p, s, unused), unused + 1;
    if Count(s.keys) + 1 < p.successThreshold {
      s', unused' := CloseByProbes(p, s', unused + 1, other);
    }
  }

  /** A client that reads the state gets as far as that state lets it. */
  lemma EnterEffect(p: Policy, s: System, c: nat)
    requires Reachable(p, s) && c !in s.clients
    ensures Reachable(p, Go(s, c, AfterRead(Current(s.keys))))
  {
    StepIsReachable(p, s, Call(c));
    assert Step(p, s, Call(c)) == Go(s, c, Start);
    StepIsReachable(p, Go(s, c, Start), ReadState(c));
    assert Step(p, Go(s, c, Start), ReadState(c)) == Go(s, c, AfterRead(Current(s.keys)));
  }

  // ---------------------------------------------------------------- what the thresholds do not promise

  /**
   * The documented threshold of successes is not what closes the breaker: the counter still holds
   * the failures.  One success closes every HALF_OPEN reached from OPEN exactly when
   * successThreshold is at most one more than Limit(p), as with the defaults 2 and 5.
   */
  lemma OneSuccessClosesExactly(p: Policy)
    ensures p.successThreshold <= Limit(p) + 1 <==>
            forall s: System | Reachable(p, s) && Current(s.keys) == HALF_OPEN && s.keys.openedAt.Some? ::
              Current(LuaSuccess(p, s.keys)) == CLOSED
  {
    if p.successThreshold <= Limit(p) + 1 {
      forall s: System | Reachable(p, s) && Current(s.keys) == HALF_OPEN && s.keys.openedAt.Some?
        ensures Current(LuaSuccess(p, s.keys)) == CLOSED
      {
        KeysAreConsistent(p, s);
      }
    } else {
      var s, unused, stale := HalfOpenAfterTimeout(p);
      assert Current(LuaSuccess(p, s.keys)) == HALF_OPEN;
    }
  }

  /** The keys after n successes in a row. */
  function Successes(p: Policy, k: Keys, n: nat): Keys
  {
    if n == 0 then k else LuaSuccess(p, Successes(p, k, n - 1))
  }

  /** How many successes in a row close the breaker. */
  function Needed(p: Policy, k: Keys): int
  {
    if p.successThreshold - Count(k) < 1 then 1 else p.successThreshold - Count(k)
  }

  lemma {:induction false} ClosesAfterNeeded(p: Policy, k: Keys, n: nat)
    requires Current(k) == HALF_OPEN
    ensures n < Needed(p, k) ==> Current(Successes(p, k, n)) == HALF_OPEN && Count(Successes(p, k, n)) == Count(k) + n
    ensures n >= Needed(p, k) ==> Current(Successes(p, k, n)) == CLOSED
  {
    if n > 0 {
      ClosesAfterNeeded(p, k, n - 1);
    }
  }

  /** The n-th success in a row after a promotion closes the breaker and no earlier one does. */
  ghost predicate ClosesOn(p: Policy, k: Keys, n: int)
  {
    forall m: nat :: Current(Successes(p, SetHalfOpen(k), m)) == CLOSED <==> m >= n
  }

  /** The documented meaning of success_threshold, that many successes close a promoted breaker, holds
      from every reachable OPEN state exactly when the threshold is at most one. */
  lemma SuccessThresholdExactly(p: Policy)
    ensures p.successThreshold <= 1 <==>
            forall s: System | Reachable(p, s) && Current(s.keys) == OPEN ::
              ClosesOn(p, s.keys, if p.successThreshold < 1 then 1 else p.successThreshold)
  {
    if p.successThreshold <= 1 {
      forall s: System | Reachable(p, s) && Current(s.keys) == OPEN ensures ClosesOn(p, s.keys, 1) {
        KeysAreConsistent(p, s);
        forall m: nat ensures Current(Successes(p, SetHalfOpen(s.keys), m)) == CLOSED <==> m >= 1 {
          ClosesAfterNeeded(p, SetHalfOpen(s.keys), m);
        }
      }
    } else {
      var s, unused := JustOpened(p);
      ClosesAfterNeeded(p, SetHalfOpen(s.keys), p.successThreshold - 1);
      assert Current(Successes(p, SetHalfOpen(s.keys), p.successThreshold - 1)) == CLOSED;
    }
  }

  /** Others have closed the breaker while a client that decided to promote still has to do so. */
  lemma ClosedWithStaleClient(p: Policy) returns (s: System, unused: nat, stale: nat)
    ensures Reachable(p, s) && !s.skewed && s.keys == Keys(Some(CLOSED), Some(0), None, None)
    ensures (forall c | c in s.clients :: c < unused) && At(s, stale, Promoting)
  {
    s, unused, stale := HalfOpenAfterTimeout(p);
    s, unused := CloseByProbes(p, s, unused, stale);
  }

  /** That client turns the closed breaker into HALF_OPEN, without a timestamp and with counter 0. */
  lemma StalePromotion(p: Policy) returns (s: System)
    ensures Reachable(p, s) && s.keys == Keys(Some(HALF_OPEN), Some(0), None, None)
  {
    var unused, stale;
    s, unused, stale := ClosedWithStaleClient(p);
    StepIsReachable(p, s, Promote(stale));
    s := Step(p, s, Promote(stale));
  }

  /** Client c runs as a probe, client d waits to probe, and client u was admitted while CLOSED. */
  lemma ProbeAndBystanders(p: Policy) returns (s: System, c: nat, d: nat, u: nat)
    ensures Reachable(p, s) && c != d && u != c && u != d && IsRunning(s, u) && At(s, d, Probing)
    ensures At(s, c, Running(Some(Probe(s.now, s.dels))))
  {
    s, u, c := ClosedWithStaleClient(p);
    d := u + 1;
    EnterEffect(p, s, u);
    var s1 := Go(s, u, Running(None));
    StepIsReachable(p, s1, Promote(c));
    var s2 := Go(s1, c, Probing).(keys := Keys(Some(HALF_OPEN), Some(0), None, None));
    assert Step(p, s1, Promote(c)) == s2;
    EnterEffect(p, s2, d);
    var s3 := Go(s2, d, Probing);
    StepIsReachable(p, s3, TakeProbe(c));
    s := Step(p, s3, TakeProbe(c));
  }

  /** A call that was admitted while CLOSED succeeds and deletes the probe lock of a running probe;
      for every policy two probes can therefore run at once, before any lock time has passed. */
  lemma ProbesOverlap(p: Policy) returns (s: System, c: nat, d: nat)
    ensures Reachable(p, s) && c != d && IsRunning(s, c) && IsRunning(s, d)
    ensures s.clients[c].probe.Some? && s.clients[c].probe.value.since == s.now
    ensures s.clients[d].probe.Some? && s.clients[d].probe.value.since == s.now
  {
    var u;
    s, c, d, u := ProbeAndBystanders(p);
    s := SuccessFreesLock(p, s, u);
    StepIsReachable(p, s, TakeProbe(d));
    s := Step(p, s, TakeProbe(d));
  }

  lemma SuccessFreesLock(p: Policy, s: System, c: nat) returns (s': System)
    requires Reachable(p, s) && IsRunning(s, c)
    ensures Reachable(p, s') && s'.keys.probe.None? && s'.now == s.now && s'.clients == s.clients[c := Done]
  {
    StepIsReachable(p, s, Succeed(c));
    var t := Go(s, c, Releasing).(keys := LuaSuccess(p, s.keys));
    assert Step(p, s, Succeed(c)) == t;
    StepIsReachable(p, t, Release(c));
    s' := Step(p, t, Release(c));
  }

  /** Without the timestamp the guarantee fails: every failure in HALF_OPEN reopens exactly when
      a single failure would open a closed breaker as well. */
  lemma EveryProbeFailureReopensExactly(p: Policy)
    ensures p.failureThreshold <= 1 <==>
            forall s: System, stamp: real | Reachable(p, s) && Current(s.keys) == HALF_OPEN ::
              Current(LuaFailure(p, s.keys, stamp)) == OPEN
  {
    if p.failureThreshold <= 1 {
      forall s: System, stamp: real | Reachable(p, s) && Current(s.keys) == HALF_OPEN
        ensures Current(LuaFailure(p, s.keys, stamp)) == OPEN
      {
        KeysAreConsistent(p, s);
      }
    } else {
      var s := StalePromotion(p);
      assert Current(LuaFailure(p, s.keys, 0.0)) == HALF_OPEN;
    }
  }

  // ---------------------------------------------------------------- the keys in place

  class RedisKeys {
    var state: Option<State>
    var failures: Option<int>
    var openedAt: Option<real>
    var probe: Option<real>

    function Value(): Keys
      reads this
    {
      Keys(state, failures, openedAt, probe)
    }

    constructor ()
      ensures Value() == NO_KEYS
    {
      state, failures, openedAt, probe := None, None, None, None;
    }

    /** Returns whether the script answered 'OPEN'. */
    method RecordFailure(p: Policy, stamp: real) returns (saysOpen: bool)
      modifies this
      ensures Value() == LuaFailure(p, old(Value()), stamp)
      ensures saysOpen <==> Count(old(Value())) + 1 >= p.failureThreshold
      ensures KeysInv(p, old(Value())) ==> KeysInv(p, Value())
    {
      var n := (if failures.Some? then failures.value else 0) + 1;
      failures := Some(n);
      saysOpen := n >= p.failureThreshold;
      if saysOpen {
        state := Some(OPEN);
        openedAt := Some(stamp);
      }
    }

    /** Returns the state the script answers. */
    method RecordSuccess(p: Policy) returns (answer: State)
      modifies this
      ensures Value() == LuaSuccess(p, old(Value())) && answer == Current(Value())
      ensures KeysInv(p, old(Value())) ==> KeysInv(p, Value())
    {
      answer := if state.Some? then state.value else CLOSED;
      if answer == HALF_OPEN {
        var n := (if failures.Some? then failures.value else 0) + 1;
        failures := Some(n);
        if n >= p.successThreshold {
          state, failures, openedAt := Some(CLOSED), Some(0), None;
          answer := CLOSED;
        }
      } else if answer == CLOSED {
        failures := Some(0);
      }
    }

    method Reset()
      modifies this
      ensures Value() == NO_KEYS
    {
      state, failures, openedAt, probe := None, None, None, None;
    }
  }
}
