/**
 * `SagaOrchestrator.run`: actions forward, compensations of the completed steps backward, and a
 * record saved after every step.  Each action and each compensation is called at most once in a
 * run, so an arbitrary function of the context stands for it; the store may raise at any save.
 */
module Sagas {
  import opened Common

  type Context = map<string, string>

  /** The context a callback leaves, and whether it returned or raised. */
  datatype Attempt = Attempt(ctx: Context, ok: bool)

  datatype SagaStep = SagaStep(name: string, action: Context -> Attempt, compensate: Context -> Attempt)

  datatype SagaState = RUNNING | COMPLETED | COMPENSATING | COMPENSATION_FAILED | FAILED

  datatype Record = Record(state: SagaState, index: nat, ctx: Context)

  datatype Call = Action(step: nat) | Compensation(step: nat)

  /** `StoreRaised`: an exception of the store itself ends the run. */
  datatype Outcome =
    | Completed
    | SagaFailed(step: nat)
    | SagaCompensationFailed(step: nat, first: nat)
    | StoreRaised

  datatype SagaRun = SagaRun(out: Outcome, ctx: Context, calls: seq<Call>, trace: seq<Record>)

  /** Says of each save, by number, whether it succeeds. */
  type Store = Option<nat -> bool>

  predicate Saves(store: Store, n: nat)
  {
    store.None? || store.value(n)
  }

  // ---------------------------------------------------------------- what a run is

  /** The context after the first i actions. */
  function ContextAfter(steps: seq<SagaStep>, init: Context, i: nat): Context
    requires i <= |steps|
  {
    if i == 0 then init else steps[i - 1].action(ContextAfter(steps, init, i - 1)).ctx
  }

  predicate ActionOk(steps: seq<SagaStep>, init: Context, i: nat)
    requires i < |steps|
  {
    steps[i].action(ContextAfter(steps, init, i)).ok
  }

  /** Step i runs and its record, the save number i + 1, is stored. */
  predicate StepOk(steps: seq<SagaStep>, init: Context, store: Store, i: nat)
    requires i < |steps|
  {
    ActionOk(steps, init, i) && Saves(store, i + 1)
  }

  /** The context after compensating steps m-1, m-2, ..., 0. */
  function Undo(steps: seq<SagaStep>, ctx: Context, m: nat): Context
    requires m <= |steps|
    decreases m
  {
    if m == 0 then ctx else Undo(steps, steps[m - 1].compensate(ctx).ctx, m - 1)
  }

  /** The first of those compensations that raises. */
  function FirstBad(steps: seq<SagaStep>, ctx: Context, m: nat): Option<nat>
    requires m <= |steps|
    decreases m
  {
    if m == 0 then None
    else if !steps[m - 1].compensate(ctx).ok then Some(m - 1)
    else FirstBad(steps, steps[m - 1].compensate(ctx).ctx, m - 1)
  }

  function Actions(n: nat): (r: seq<Call>)
    ensures |r| == n
  {
    if n == 0 then [] else Actions(n - 1) + [Action(n - 1)]
  }

  /** The last completed step first. */
  function Compensations(m: nat): seq<Call>
  {
    seq(m, j requires 0 <= j < m => Compensation(m - 1 - j))
  }

  function Saved(store: Store, r: Record): seq<Record>
  {
    if store.None? then [] else [r]
  }

  function Runnings(steps: seq<SagaStep>, init: Context, store: Store, k: nat): seq<Record>
    requires k <= |steps|
  {
    var r := Saved(store, Record(RUNNING, k, ContextAfter(steps, init, k)));
    if k == 0 then r else Runnings(steps, init, store, k - 1) + r
  }

  /** How many steps had completed when step k stopped the run: its own action may have succeeded. */
  function Done(steps: seq<SagaStep>, init: Context, k: nat): nat
    requires k < |steps|
  {
    if ActionOk(steps, init, k) then k + 1 else k
  }

  /** The context when the run turns back at step k. */
  function TurningContext(steps: seq<SagaStep>, init: Context, k: nat): Context
    requires k < |steps|
  {
    ContextAfter(steps, init, k + 1)
  }

  /** Step k is the first that does not pass; k == |steps| when all do. */
  ghost predicate StopsAt(steps: seq<SagaStep>, init: Context, store: Store, k: nat)
  {
    && k <= |steps|
    && (forall i | 0 <= i < k :: StepOk(steps, init, store, i))
    && (k < |steps| ==> !StepOk(steps, init, store, k))
  }

  ghost predicate RanForward(steps: seq<SagaStep>, init: Context, store: Store, r: SagaRun)
  {
    var n := |steps|;
    && r.ctx == ContextAfter(steps, init, n) && r.calls == Actions(n)
    && r.out == (if Saves(store, n + 1) then Completed else StoreRaised)
    && r.trace == Runnings(steps, init, store, n)
                  + (if Saves(store, n + 1) then Saved(store, Record(COMPLETED, n, r.ctx)) else [])
  }

  ghost predicate TurnedBack(steps: seq<SagaStep>, init: Context, store: Store, k: nat, r: SagaRun)
    requires k < |steps|
  {
    var done, ctx := Done(steps, init, k), TurningContext(steps, init, k);
    var bad := FirstBad(steps, ctx, done);
    var running := Runnings(steps, init, store, k);
    var turned := running + Saved(store, Record(COMPENSATING, k, ctx));
    if !Saves(store, done + 1) then
      r == SagaRun(StoreRaised, ctx, Actions(k + 1), running)
    else
      && r.ctx == Undo(steps, ctx, done)
      && r.calls == Actions(k + 1) + Compensations(done)
      && if !Saves(store, done + 2) then r.out == StoreRaised && r.trace == turned
         else if bad.None? then r.out == SagaFailed(k) && r.trace == turned + Saved(store, Record(FAILED, k, r.ctx))
         else r.out == SagaCompensationFailed(k, bad.value)
              && r.trace == turned + Saved(store, Record(COMPENSATION_FAILED, k, r.ctx))
  }

  ghost predicate IsRun(steps: seq<SagaStep>, init: Context, store: Store, k: nat, r: SagaRun)
  {
    if !Saves(store, 0) then r == SagaRun(StoreRaised, init, [], [])
    else
      && StopsAt(steps, init, store, k)
      && if k == |steps| then RanForward(steps, init, store, r) else TurnedBack(steps, init, store, k, r)
  }

  // ---------------------------------------------------------------- theorems

  /** The description leaves no freedom: two runs of the same saga are equal. */
  lemma RunsAreDetermined(steps: seq<SagaStep>, init: Context, store: Store, k: nat, r: SagaRun, k': nat, r': SagaRun)
    requires IsRun(steps, init, store, k, r) && IsRun(steps, init, store, k', r')
    ensures r == r'
  {
    if Saves(store, 0) {
      StopIsUnique(steps, init, store, k, k');
    }
  }

  lemma StopIsUnique(steps: seq<SagaStep>, init: Context, store: Store, k: nat, k': nat)
    requires StopsAt(steps, init, store, k) && StopsAt(steps, init, store, k')
    ensures k == k'
  {
  }

  function Count(calls: seq<Call>, c: Call): nat
  {
    multiset(calls)[c]
  }

  lemma {:induction false} CountActions(n: nat, c: Call)
    ensures Count(Actions(n), c) == if c.Action? && c.step < n then 1 else 0
  {
    if n > 0 {
      CountActions(n - 1, c);
      assert Actions(n) == Actions(n - 1) + [Action(n - 1)];
    }
  }

  lemma {:induction false} CountCompensations(m: nat, c: Call)
    ensures Count(Compensations(m), c) == if c.Compensation? && c.step < m then 1 else 0
  {
    if m > 0 {
      CountCompensations(m - 1, c);
      assert Compensations(m) == [Compensation(m - 1)] + Compensations(m - 1);
    }
  }

  /** Behind the first k + 1 calls come the compensations of `undone` steps, last step first. */
  ghost predicate LastFirst(calls: seq<Call>, k: nat, undone: nat)
  {
    |calls| == k + 1 + undone && forall p | k < p < |calls| :: calls[p] == Compensation(k + undone - p)
  }

  lemma BackwardCalls(k: nat, done: nat, i: nat)
    ensures var calls := Actions(k + 1) + Compensations(done);
            && Count(calls, Action(i)) == (if i <= k then 1 else 0)
            && Count(calls, Compensation(i)) == (if i < done then 1 else 0)
            && LastFirst(calls, k, done)
  {
    CountActions(k + 1, Action(i));
    CountActions(k + 1, Compensation(i));
    CountCompensations(done, Action(i));
    CountCompensations(done, Compensation(i));
  }

  lemma CallsOfTurn(steps: seq<SagaStep>, init: Context, store: Store, k: nat, r: SagaRun)
    requires IsRun(steps, init, store, k, r) && Saves(store, 0) && k < |steps|
    ensures r.calls == Actions(k + 1)
                       + Compensations(if Saves(store, Done(steps, init, k) + 1) then Done(steps, init, k) else 0)
  {
  }

  /**
   * When step k stops the run, exactly the steps whose action returned are compensated, each once, last
   * first, whether or not compensations raise; the one exception is a store that cannot record
   * COMPENSATING, and then nothing is compensated at all.
   */
  lemma CompensatesExactlyTheCompleted(steps: seq<SagaStep>, init: Context, store: Store, k: nat, r: SagaRun, i: nat)
    requires IsRun(steps, init, store, k, r) && Saves(store, 0) && k < |steps|
    ensures var completed := if ActionOk(steps, init, k) then k + 1 else k;
            var undone := if Saves(store, completed + 1) then completed else 0;
            && Count(r.calls, Action(i)) == (if i <= k then 1 else 0)
            && Count(r.calls, Compensation(i)) == (if i < undone then 1 else 0)
            && LastFirst(r.calls, k, undone)
  {
    CallsOfTurn(steps, init, store, k, r);
    BackwardCalls(k, if Saves(store, Done(steps, init, k) + 1) then Done(steps, init, k) else 0, i);
  }

  /** Before the step that stops the run, every action returned and every record was saved; that one's was not. */
  lemma StopsAtTheFirstFailure(steps: seq<SagaStep>, init: Context, store: Store, k: nat, r: SagaRun, i: nat)
    requires IsRun(steps, init, store, k, r) && Saves(store, 0) && i < |steps| && i <= k
    ensures if i < k then ActionOk(steps, init, i) && Saves(store, i + 1) else !(ActionOk(steps, init, i) && Saves(store, i + 1))
  {
    assert i < k ==> StepOk(steps, init, store, i);
  }

  /** The saga reports a compensation failure exactly when some compensation raised. */
  lemma {:induction false} BadMeansRaised(steps: seq<SagaStep>, ctx: Context, m: nat)
    requires m <= |steps|
    ensures FirstBad(steps, ctx, m).None? <==> forall i: nat | i < m :: steps[i].compensate(BeforeUndo(steps, ctx, m, i)).ok
    decreases m
  {
    if m > 0 {
      var ctx' := steps[m - 1].compensate(ctx).ctx;
      BadMeansRaised(steps, ctx', m - 1);
      assert BeforeUndo(steps, ctx, m, m - 1) == ctx;
      assert forall i: nat | i < m - 1 :: BeforeUndo(steps, ctx, m, i) == BeforeUndo(steps, ctx', m - 1, i);
    }
  }

  /** The context that the compensation of step i gets when steps m-1..0 are compensated. */
  function BeforeUndo(steps: seq<SagaStep>, ctx: Context, m: nat, i: nat): Context
    requires i < m <= |steps|
    decreases m
  {
    if i == m - 1 then ctx else BeforeUndo(steps, steps[m - 1].compensate(ctx).ctx, m - 1, i)
  }

  // ---------------------------------------------------------------- the contexts of a run

  /** Each context is what the next action makes of the one before, whether it returns or raises. */
  ghost predicate ActionChain(steps: seq<SagaStep>, cs: seq<Context>)
  {
    1 <= |cs| <= |steps| + 1 && forall i | 0 < i < |cs| :: cs[i] == steps[i - 1].action(cs[i - 1]).ctx
  }

  /** Each context is what the next compensation, from step m-1 down, makes of the one before. */
  ghost predicate UndoChain(steps: seq<SagaStep>, ds: seq<Context>, m: nat)
  {
    |ds| == m + 1 && m <= |steps| && forall i | 0 < i < |ds| :: ds[i] == steps[m - i].compensate(ds[i - 1]).ctx
  }

  lemma {:induction false} ChainIsContextAfter(steps: seq<SagaStep>, cs: seq<Context>, i: nat)
    requires ActionChain(steps, cs) && i < |cs|
    ensures ContextAfter(steps, cs[0], i) == cs[i]
  {
    if i > 0 {
      ChainIsContextAfter(steps, cs, i - 1);
    }
  }

  lemma UndoChainTail(steps: seq<SagaStep>, ds: seq<Context>, m: nat)
    requires UndoChain(steps, ds, m) && m > 0
    ensures UndoChain(steps, ds[1..], m - 1) && ds[1] == steps[m - 1].compensate(ds[0]).ctx
  {
    forall i | 0 < i < |ds[1..]| ensures ds[1..][i] == steps[m - 1 - i].compensate(ds[1..][i - 1]).ctx {
      assert ds[i + 1] == steps[m - (i + 1)].compensate(ds[i]).ctx;
    }
  }

  /** The first compensation that raises: those called before it, of later steps, return. */
  ghost predicate RaisesFirst(steps: seq<SagaStep>, ds: seq<Context>, m: nat, i: nat)
    requires UndoChain(steps, ds, m)
  {
    i < m && !steps[i].compensate(ds[m - 1 - i]).ok && forall j | i < j < m :: steps[j].compensate(ds[m - 1 - j]).ok
  }

  lemma {:induction false} UndoFollowsChain(steps: seq<SagaStep>, ds: seq<Context>, m: nat)
    requires UndoChain(steps, ds, m)
    ensures Undo(steps, ds[0], m) == ds[m]
    ensures FirstBad(steps, ds[0], m).None? <==> forall j: nat | j < m :: steps[j].compensate(ds[m - 1 - j]).ok
    ensures FirstBad(steps, ds[0], m).Some? ==> RaisesFirst(steps, ds, m, FirstBad(steps, ds[0], m).value)
    decreases m
  {
    if m > 0 {
      UndoChainTail(steps, ds, m);
      var tail := ds[1..];
      UndoFollowsChain(steps, tail, m - 1);
      assert forall p | 0 <= p < |tail| :: tail[p] == ds[p + 1];
      if steps[m - 1].compensate(ds[0]).ok && FirstBad(steps, tail[0], m - 1).Some? {
        var i := FirstBad(steps, tail[0], m - 1).value;
        assert RaisesFirst(steps, tail, m - 1, i);
      }
    }
  }

  /** The contexts of a run that turns back at step k: forward to the failing action, then of all
      compensations of the completed steps. */
  ghost predicate ChainsOf(steps: seq<SagaStep>, k: nat, cs: seq<Context>, ds: seq<Context>)
  {
    && ActionChain(steps, cs) && |cs| == k + 2 && k < |steps|
    && |ds| == (if steps[k].action(cs[k]).ok then k + 2 else k + 1) && UndoChain(steps, ds, |ds| - 1) && ds[0] == cs[k + 1]
  }

  lemma ChainsGiveDone(steps: seq<SagaStep>, k: nat, cs: seq<Context>, ds: seq<Context>)
    requires ChainsOf(steps, k, cs, ds)
    ensures Done(steps, cs[0], k) == |ds| - 1 && TurningContext(steps, cs[0], k) == ds[0]
  {
    ChainIsContextAfter(steps, cs, k);
    ChainIsContextAfter(steps, cs, k + 1);
  }

  /** A failed run, told by the contexts its callbacks leave: it ends in the last of them, and reports the
      first compensation that raised, if one did. */
  lemma FailedRunTold(steps: seq<SagaStep>, store: Store, k: nat, r: SagaRun, cs: seq<Context>, ds: seq<Context>)
    requires ChainsOf(steps, k, cs, ds) && IsRun(steps, cs[0], store, k, r)
    requires Saves(store, 0) && Saves(store, |ds|) && Saves(store, |ds| + 1)
    ensures var m := |ds| - 1;
            && r.ctx == ds[m]
            && (r.out == SagaFailed(k) <==> forall j: nat | j < m :: steps[j].compensate(ds[m - 1 - j]).ok)
            && (r.out == SagaFailed(k) || (r.out.SagaCompensationFailed? && r.out.step == k && RaisesFirst(steps, ds, m, r.out.first)))
  {
    ChainsGiveDone(steps, k, cs, ds);
    OutcomeOfTurn(steps, cs[0], store, k, r);
    UndoFollowsChain(steps, ds, |ds| - 1);
  }

  lemma OutcomeOfTurn(steps: seq<SagaStep>, init: Context, store: Store, k: nat, r: SagaRun)
    requires IsRun(steps, init, store, k, r) && k < |steps| && Saves(store, 0)
    requires Saves(store, Done(steps, init, k) + 1) && Saves(store, Done(steps, init, k) + 2)
    ensures var ctx, done := TurningContext(steps, init, k), Done(steps, init, k);
            && r.ctx == Undo(steps, ctx, done)
            && r.out == match FirstBad(steps, ctx, done) case None => SagaFailed(k) case Some(i) => SagaCompensationFailed(k, i)
  {
  }

  /** And its records: RUNNING with the context after each step, COMPENSATING with that of the failing action,
      and the final one. */
  lemma FailedTraceTold(steps: seq<SagaStep>, store: Store, k: nat, r: SagaRun, cs: seq<Context>, ds: seq<Context>)
    requires ChainsOf(steps, k, cs, ds) && IsRun(steps, cs[0], store, k, r) && store.Some?
    requires Saves(store, 0) && Saves(store, |ds|) && Saves(store, |ds| + 1)
    ensures |r.trace| == k + 3 && (forall j | 0 <= j <= k :: r.trace[j] == Record(RUNNING, j, cs[j]))
    ensures r.trace[k + 1] == Record(COMPENSATING, k, cs[k + 1])
    ensures r.trace[k + 2] == Record(if r.out == SagaFailed(k) then FAILED else COMPENSATION_FAILED, k, r.ctx)
  {
    ChainsGiveDone(steps, k, cs, ds);
    RunningsTold(steps, store, cs, k);
    var running := Runnings(steps, cs[0], store, k);
    assert r.trace == running + [Record(COMPENSATING, k, cs[k + 1])]
                      + [Record(if r.out == SagaFailed(k) then FAILED else COMPENSATION_FAILED, k, r.ctx)];
  }

  /** A completed run likewise. */
  lemma CompletedRunTold(steps: seq<SagaStep>, store: Store, r: SagaRun, cs: seq<Context>)
    requires ActionChain(steps, cs) && |cs| == |steps| + 1
    requires IsRun(steps, cs[0], store, |steps|, r) && Saves(store, 0) && Saves(store, |steps| + 1)
    ensures r.out == Completed && r.ctx == cs[|steps|]
    ensures store.Some? ==>
              && |r.trace| == |steps| + 2
              && (forall j | 0 <= j <= |steps| :: r.trace[j] == Record(RUNNING, j, cs[j]))
              && r.trace[|steps| + 1] == Record(COMPLETED, |steps|, r.ctx)
  {
    ChainIsContextAfter(steps, cs, |steps|);
    if store.Some? {
      RunningsTold(steps, store, cs, |steps|);
    }
  }

  lemma {:induction false} RunningsTold(steps: seq<SagaStep>, store: Store, cs: seq<Context>, k: nat)
    requires ActionChain(steps, cs) && k < |cs| && k <= |steps| && store.Some?
    ensures var t := Runnings(steps, cs[0], store, k);
            |t| == k + 1 && forall j | 0 <= j <= k :: t[j] == Record(RUNNING, j, cs[j])
  {
    ChainIsContextAfter(steps, cs, k);
    if k > 0 {
      RunningsTold(steps, store, cs, k - 1);
    }
  }

  // ---------------------------------------------------------------- restoring the context

  /** Where a step's action succeeds, its compensation takes the context back. */
  ghost predicate Inverts(step: SagaStep)
  {
    forall c: Context | step.action(c).ok :: step.compensate(step.action(c).ctx).ctx == c
  }

  ghost predicate FailsCleanly(step: SagaStep)
  {
    forall c: Context | !step.action(c).ok :: step.action(c).ctx == c
  }

  lemma {:induction false} UndoInverts(steps: seq<SagaStep>, init: Context, m: nat)
    requires m <= |steps| && forall i: nat | i < m :: Inverts(steps[i]) && ActionOk(steps, init, i)
    ensures Undo(steps, ContextAfter(steps, init, m), m) == init
  {
    if m > 0 {
      assert Inverts(steps[m - 1]) && ActionOk(steps, init, m - 1);
      UndoInverts(steps, init, m - 1);
    }
  }

  /** If failing actions change nothing and compensations invert their actions, a failed saga
      ends in the context it started from. */
  lemma FailureRestoresContext(steps: seq<SagaStep>, init: Context, store: Store, k: nat, r: SagaRun)
    requires IsRun(steps, init, store, k, r) && Saves(store, 0) && k < |steps| && Saves(store, Done(steps, init, k) + 1)
    requires forall i: nat | i < |steps| :: Inverts(steps[i]) && FailsCleanly(steps[i])
    ensures r.ctx == init
  {
    var done := Done(steps, init, k);
    assert Inverts(steps[k]) && FailsCleanly(steps[k]);
    forall i: nat | i < done ensures ActionOk(steps, init, i) {
      if i < k {
        assert StepOk(steps, init, store, i);
      }
    }
    UndoInverts(steps, init, done);
  }

  /** RUNNING records 0..k; then COMPLETED, or COMPENSATING and a final state; indices never decrease. */
  ghost predicate WellShaped(trace: seq<Record>)
  {
    && (forall i, j | 0 <= i < j < |trace| :: trace[i].index <= trace[j].index)
    && (forall i | 0 <= i < |trace| - 1 :: Follows(trace[i].state, trace[i + 1].state))
    && (trace != [] ==> trace[0].state == RUNNING && trace[0].index == 0)
  }

  predicate Follows(a: SagaState, b: SagaState)
  {
    match a
    case RUNNING => b == RUNNING || b == COMPLETED || b == COMPENSATING
    case COMPENSATING => b == FAILED || b == COMPENSATION_FAILED
    case COMPLETED => false
    case COMPENSATION_FAILED => false
    case FAILED => false
  }

  ghost predicate EndsWith(trace: seq<Record>, state: SagaState, index: nat)
  {
    trace != [] && trace[|trace| - 1].state == state && trace[|trace| - 1].index == index
  }

  lemma ShapeExtends(trace: seq<Record>, last: SagaState, index: nat, r: Record)
    requires WellShaped(trace) && EndsWith(trace, last, index) && Follows(last, r.state) && index <= r.index
    ensures WellShaped(trace + [r]) && EndsWith(trace + [r], r.state, r.index)
  {
  }

  lemma {:induction false} RunningsShape(steps: seq<SagaStep>, init: Context, store: Store, k: nat)
    requires k <= |steps| && store.Some?
    ensures WellShaped(Runnings(steps, init, store, k)) && EndsWith(Runnings(steps, init, store, k), RUNNING, k)
  {
    if k > 0 {
      RunningsShape(steps, init, store, k - 1);
      ShapeExtends(Runnings(steps, init, store, k - 1), RUNNING, k - 1, Record(RUNNING, k, ContextAfter(steps, init, k)));
    }
  }

  lemma {:induction false} NoStoreNoTrace(steps: seq<SagaStep>, init: Context, k: nat)
    requires k <= |steps|
    ensures Runnings(steps, init, None, k) == []
  {
    if k > 0 {
      NoStoreNoTrace(steps, init, k - 1);
      assert Runnings(steps, init, None, k) == Runnings(steps, init, None, k - 1) + [];
    }
  }

  /** The final record for an outcome. */
  function Final(steps: seq<SagaStep>, out: Outcome): (SagaState, nat)
    requires out != StoreRaised
  {
    match out
    case Completed => (COMPLETED, |steps|)
    case SagaFailed(step) => (FAILED, step)
    case SagaCompensationFailed(step, _) => (COMPENSATION_FAILED, step)
  }

  ghost predicate TellsOutcome(steps: seq<SagaStep>, r: SagaRun)
  {
    && WellShaped(r.trace)
    && (r.out != StoreRaised ==>
          EndsWith(r.trace, Final(steps, r.out).0, Final(steps, r.out).1) && r.trace[|r.trace| - 1].ctx == r.ctx)
  }

  lemma ForwardTrace(steps: seq<SagaStep>, init: Context, store: Store, r: SagaRun)
    requires store.Some? && RanForward(steps, init, store, r)
    ensures TellsOutcome(steps, r)
  {
    RunningsShape(steps, init, store, |steps|);
    ShapeExtends(Runnings(steps, init, store, |steps|), RUNNING, |steps|, Record(COMPLETED, |steps|, r.ctx));
  }

  lemma BackwardTrace(steps: seq<SagaStep>, init: Context, store: Store, k: nat, r: SagaRun)
    requires store.Some? && k < |steps| && TurnedBack(steps, init, store, k, r)
    ensures TellsOutcome(steps, r)
  {
    RunningsShape(steps, init, store, k);
    var running, turn := Runnings(steps, init, store, k), Record(COMPENSATING, k, TurningContext(steps, init, k));
    ShapeExtends(running, RUNNING, k, turn);
    if r.out.SagaFailed? {
      ShapeExtends(running + [turn], COMPENSATING, k, Record(FAILED, k, r.ctx));
    } else if r.out.SagaCompensationFailed? {
      ShapeExtends(running + [turn], COMPENSATING, k, Record(COMPENSATION_FAILED, k, r.ctx));
    }
  }

  /** Every saved trace has that shape, and ends with the state, step and context that the outcome reports. */
  lemma TraceIsWellShaped(steps: seq<SagaStep>, init: Context, store: Store, k: nat, r: SagaRun)
    requires IsRun(steps, init, store, k, r)
    ensures if store.Some? then TellsOutcome(steps, r) else r.trace == [] && r.out != StoreRaised
  {
    if store.None? {
      NoStoreNoTrace(steps, init, k);
    } else if Saves(store, 0) {
      if k == |steps| { ForwardTrace(steps, init, store, r); } else { BackwardTrace(steps, init, store, k, r); }
    }
  }

  // ---------------------------------------------------------------- the orchestrator

  class SagaOrchestrator {
    const steps: seq<SagaStep>

    /** None is the ValueError for an empty list. */
    static method Create(steps: seq<SagaStep>) returns (r: Option<SagaOrchestrator>)
      ensures r.Some? <==> steps != []
      ensures r.Some? ==> fresh(r.value) && r.value.steps == steps
    {
      if steps == [] {
        return None;
      }
      var orchestrator := new SagaOrchestrator(steps);
      return Some(orchestrator);
    }

    constructor (steps: seq<SagaStep>)
      requires steps != []
      ensures this.steps == steps
    {
      this.steps := steps;
    }

    /** Compensate steps done-1..0; every one is called, the first error is reported. */
    method Compensate(start: Context, done: nat) returns (ctx: Context, calls: seq<Call>, first: Option<nat>)
      requires done <= |steps|
      ensures ctx == Undo(steps, start, done) && calls == Compensations(done) && first == FirstBad(steps, start, done)
    {
      ctx, calls, first := start, [], None;
      var m := done;
      while m > 0
        invariant 0 <= m <= done
        invariant Undo(steps, ctx, m) == Undo(steps, start, done)
        invariant |calls| == done - m && forall p | 0 <= p < |calls| :: calls[p] == Compensation(done - 1 - p)
        invariant FirstBad(steps, start, done) == if first.Some? then first else FirstBad(steps, ctx, m)
      {
        m := m - 1;
        var attempt := steps[m].compensate(ctx);
        calls := calls + [Compensation(m)];
        if !attempt.ok && first.None? {
          first := Some(m);
        }
        ctx := attempt.ctx;
      }
    }

    /** The forward pass up to step idx; `passed` says whether idx went past the last step. */
    method Forward(init: Context, store: Store)
      returns (idx: nat, passed: bool, done: nat, ctx: Context, calls: seq<Call>, trace: seq<Record>)
      ensures StopsAt(steps, init, store, idx) && (passed <==> idx == |steps|)
      ensures trace == Runnings(steps, init, store, idx)
      ensures passed ==> ctx == ContextAfter(steps, init, idx) && calls == Actions(idx)
      ensures !passed ==> ctx == TurningContext(steps, init, idx) && calls == Actions(idx + 1) && done == Done(steps, init, idx)
    {
      idx, done, ctx, calls, trace := 0, 0, init, [], Saved(store, Record(RUNNING, 0, init));
      while idx < |steps|
        invariant 0 <= idx <= |steps|
        invariant ctx == ContextAfter(steps, init, idx) && calls == Actions(idx)
        invariant trace == Runnings(steps, init, store, idx)
        invariant forall i | 0 <= i < idx :: StepOk(steps, init, store, i)
      {
        var attempt := steps[idx].action(ctx);
        ctx := attempt.ctx;
        calls := calls + [Action(idx)];
        if !attempt.ok || !Saves(store, idx + 1) {
          passed, done := false, if attempt.ok then idx + 1 else idx;
          return;
        }
        idx := idx + 1;
        assert Runnings(steps, init, store, idx)
            == Runnings(steps, init, store, idx - 1) + Saved(store, Record(RUNNING, idx, ContextAfter(steps, init, idx)));
        trace := trace + Saved(store, Record(RUNNING, idx, ctx));
      }
      passed := true;
    }

    /** `k` is the step that stopped the run. */
    method Run(init: Context, store: Store) returns (r: SagaRun, ghost k: nat)
      ensures IsRun(steps, init, store, k, r)
    {
      k := 0;
      if !Saves(store, 0) {
        return SagaRun(StoreRaised, init, [], []), k;
      }
      var idx, passed, done, ctx, calls, trace := Forward(init, store);
      k := idx;
      if !passed {
        r := TurnBack(init, store, idx, done, ctx, calls, trace);
      } else if !Saves(store, idx + 1) {
        r := SagaRun(StoreRaised, ctx, calls, trace);
      } else {
        r := SagaRun(Completed, ctx, calls, trace + Saved(store, Record(COMPLETED, idx, ctx)));
      }
    }

    /** The except branch of `run`, reached at step idx with the first `done` steps completed. */
    method TurnBack(ghost init: Context, store: Store, idx: nat, done: nat, ctx: Context, calls: seq<Call>,
                    trace: seq<Record>) returns (r: SagaRun)
      requires idx < |steps| && done == Done(steps, init, idx) && ctx == TurningContext(steps, init, idx) && calls == Actions(idx + 1)
      requires trace == Runnings(steps, init, store, idx)
      ensures TurnedBack(steps, init, store, idx, r)
    {
      if !Saves(store, done + 1) {
        return SagaRun(StoreRaised, ctx, calls, trace);
      }
      var turned := trace + Saved(store, Record(COMPENSATING, idx, ctx));
      var after, undone, first := Compensate(ctx, done);
      if !Saves(store, done + 2) {
        return SagaRun(StoreRaised, after, calls + undone, turned);
      }
      if first.Some? {
        return SagaRun(SagaCompensationFailed(idx, first.value), after, calls + undone,
                      turned + Saved(store, Record(COMPENSATION_FAILED, idx, after)));
      }
      return SagaRun(SagaFailed(idx), after, calls + undone, turned + Saved(store, Record(FAILED, idx, after)));
    }
  }
}
