/**
 * The quiet period of `RedisCircuitBreaker`.  A call by itself is not admitted before the timeout
 * since the recorded opening is over.  Under interleaving a client may act on a decision it took
 * before the latest opening; this module shows a run in which it does, and that nothing else
 * breaks the quiet period.
 */
module RedisQuietPeriod {
  import opened Common
  import opened RedisBreakers

  /** The quiet period of the opening on record is not over. */
  predicate Early(p: Policy, s: System)
  {
    s.keys.openedAt.Some? && s.now - s.keys.openedAt.value < p.timeout
  }

  /** The step lets a client through. */
  predicate Admits(p: Policy, s: System, e: Event)
  {
    (e.ReadState? || e.TakeProbe?) && !IsRunning(s, e.c) && IsRunning(Step(p, s, e), e.c)
  }

  // ---------------------------------------------------------------- a decision that is too old

  /** Failing calls open a closed breaker, at once, and disturb no other client. */
  lemma {:induction false} FailUntilOpen(p: Policy, s: System, unused: nat, other: nat) returns (s': System)
    requires Reachable(p, s) && Current(s.keys) == CLOSED && s.keys.probe.None?
    requires (forall c | c in s.clients :: c < unused) && other in s.clients
    ensures Reachable(p, s') && Current(s'.keys) == OPEN && s'.keys.openedAt == Some(s'.now) && s'.keys.probe.None?
    ensures other in s'.clients && s'.clients[other] == s.clients[other] && s'.skewed == s.skewed
    decreases Limit(p) - Count(s.keys)
  {
    KeysAreConsistent(p, s);
    FailedCallEffect(p, s, unused);
    s' := FailedCall(p, s, unused);
    if Current(s'.keys) != OPEN {
      s' := FailUntilOpen(p, s', unused + 1, other);
    }
  }

  /** For every policy: a client that has decided to promote, and is then overtaken by a closing and a new
      opening, is let through at the very moment of that opening. */
  lemma AdmittedAsItReopens(p: Policy) returns (reopened: System, c: nat)
    ensures Reachable(p, reopened) && Current(reopened.keys) == OPEN && reopened.keys.openedAt == Some(reopened.now)
    ensures var s := Step(p, reopened, Promote(c));
            && Reachable(p, s) && Admits(p, s, TakeProbe(c))
            && !s.skewed && s.now == reopened.now && s.keys.openedAt == reopened.keys.openedAt
            && (Early(p, s) <==> p.timeout > 0.0)
  {
    var t, unused, stale := ClosedWithStaleClient(p);
    c := stale;
    reopened := FailUntilOpen(p, t, unused, c);
    StepIsReachable(p, reopened, Promote(c));
    var u := Go(reopened, c, Probing).(keys := SetHalfOpen(reopened.keys));
    assert Step(p, reopened, Promote(c)) == u;
  }

  // ---------------------------------------------------------------- runs without one

  /** The system with the number of openings so far, and for each client that number when it last read. */
  datatype Watched = Watched(s: System, openings: nat, eras: map<nat, nat>)

  predicate Opens(p: Policy, s: System, e: Event)
  {
    e.Fail? && IsRunning(s, e.c) && Count(s.keys) + 1 >= p.failureThreshold
  }

  predicate Reads(s: System, e: Event)
  {
    (e.ReadState? && At(s, e.c, Start)) || (e.ReadOpenedAt? && At(s, e.c, SawOpen))
  }

  function WatchedStep(p: Policy, w: Watched, e: Event): Watched
  {
    Watched(Step(p, w.s, e),
            if Opens(p, w.s, e) then w.openings + 1 else w.openings,
            if Reads(w.s, e) then w.eras[e.c := w.openings] else w.eras)
  }

  function WatchedRun(p: Policy, es: seq<Event>): Watched
  {
    if es == [] then Watched(INIT, 0, map[]) else WatchedStep(p, WatchedRun(p, es[..|es| - 1]), es[|es| - 1])
  }

  /** Watching changes nothing. */
  lemma {:induction false} WatchedIsRun(p: Policy, es: seq<Event>)
    ensures WatchedRun(p, es).s == Run(p, es)
  {
    if es != [] {
      WatchedIsRun(p, es[..|es| - 1]);
    }
  }

  /** The breaker has not opened since the client read what it acts on. */
  predicate UpToDate(w: Watched, c: nat)
  {
    c in w.eras && w.eras[c] == w.openings
  }

  /** The step does not promote or probe on a decision older than the latest opening. */
  predicate Prompt(w: Watched, e: Event)
  {
    (e.Promote? && At(w.s, e.c, Promoting)) || (e.TakeProbe? && At(w.s, e.c, Probing)) ==> UpToDate(w, e.c)
  }

  ghost predicate AllPrompt(p: Policy, es: seq<Event>)
  {
    forall i | 0 <= i < |es| :: Prompt(WatchedRun(p, es[..i]), es[i])
  }

  /** What an up-to-date client has decided fits the opening on record, and so does HALF_OPEN. */
  ghost predicate ClientInv(p: Policy, w: Watched, c: nat)
    requires c in w.s.clients
  {
    var pc := w.s.clients[c];
    UpToDate(w, c) && w.s.keys.openedAt.Some? ==>
      && (pc.SawStamp? ==> pc.stamp == w.s.keys.openedAt.value)
      && (pc == Promoting || pc == Probing ==> !Early(p, w.s))
  }

  ghost predicate QuietInv(p: Policy, w: Watched)
  {
    && (forall c | c in w.eras :: w.eras[c] <= w.openings)
    && (forall c | c in w.s.clients :: ClientInv(p, w, c))
    && (Current(w.s.keys) == HALF_OPEN ==> !Early(p, w.s))
  }

  lemma StepKeepsErasBounded(p: Policy, w: Watched, e: Event)
    requires forall c | c in w.eras :: w.eras[c] <= w.openings
    ensures var w' := WatchedStep(p, w, e); forall c | c in w'.eras :: w'.eras[c] <= w'.openings
  {
  }

  lemma StepKeepsHalfOpenQuiet(p: Policy, w: Watched, e: Event)
    requires QuietInv(p, w) && Prompt(w, e)
    ensures Current(WatchedStep(p, w, e).s.keys) == HALF_OPEN ==> !Early(p, WatchedStep(p, w, e).s)
  {
    if e.Promote? && At(w.s, e.c, Promoting) {
      assert ClientInv(p, w, e.c);
    }
  }

  lemma StepKeepsClient(p: Policy, w: Watched, e: Event, c: nat)
    requires QuietInv(p, w) && Prompt(w, e) && c in WatchedStep(p, w, e).s.clients
    ensures ClientInv(p, WatchedStep(p, w, e), c)
  {
    if c in w.s.clients {
      assert ClientInv(p, w, c);
    }
  }

  lemma {:induction false} RunKeepsQuiet(p: Policy, es: seq<Event>)
    requires AllPrompt(p, es)
    ensures QuietInv(p, WatchedRun(p, es))
  {
    if es != [] {
      var n := |es| - 1;
      var w, e := WatchedRun(p, es[..n]), es[n];
      assert forall i | 0 <= i < n :: es[..n][..i] == es[..i];
      RunKeepsQuiet(p, es[..n]);
      assert Prompt(w, e);
      StepKeepsErasBounded(p, w, e);
      StepKeepsHalfOpenQuiet(p, w, e);
      forall c | c in WatchedStep(p, w, e).s.clients ensures ClientInv(p, WatchedStep(p, w, e), c) {
        StepKeepsClient(p, w, e, c);
      }
    }
  }

  /** If no client of a run acts on a decision older than the latest opening, no admission is early. */
  lemma PromptRunsAreQuiet(p: Policy, es: seq<Event>, e: Event)
    requires AllPrompt(p, es + [e]) && Admits(p, Run(p, es), e)
    ensures !Early(p, Run(p, es))
  {
    var w := WatchedRun(p, es);
    WatchedIsRun(p, es);
    assert forall i | 0 <= i < |es| :: (es + [e])[..i] == es[..i];
    assert (es + [e])[..|es|] == es && (es + [e])[|es|] == e;
    assert Prompt(w, e);
    assert AllPrompt(p, es) by {
      forall i | 0 <= i < |es| ensures Prompt(WatchedRun(p, es[..i]), es[i]) {
        assert Prompt(WatchedRun(p, (es + [e])[..i]), (es + [e])[i]);
      }
    }
    RunKeepsQuiet(p, es);
    KeysAreConsistent(p, w.s);
    assert ClientInv(p, w, e.c);
  }

  // ---------------------------------------------------------------- the exact condition on the policy

  lemma {:induction false} RecordedInThePast(p: Policy, es: seq<Event>)
    ensures var s := Run(p, es); !s.skewed && s.keys.openedAt.Some? ==> s.keys.openedAt.value <= s.now
  {
    if es != [] {
      RecordedInThePast(p, es[..|es| - 1]);
    }
  }

  /** With no clock ahead of the others, no admission of any run is early exactly when there is no quiet
      period to keep. */
  lemma QuietExactly(p: Policy)
    ensures p.timeout <= 0.0 <==>
            forall s: System, e: Event | Reachable(p, s) && !s.skewed && Admits(p, s, e) :: !Early(p, s)
  {
    if p.timeout <= 0.0 {
      forall s: System, e: Event | Reachable(p, s) && !s.skewed && Admits(p, s, e) ensures !Early(p, s) {
        var es :| Run(p, es) == s;
        RecordedInThePast(p, es);
      }
    } else {
      var reopened, c := AdmittedAsItReopens(p);
      var s := Step(p, reopened, Promote(c));
      assert Admits(p, s, TakeProbe(c)) && Early(p, s);
    }
  }
}
