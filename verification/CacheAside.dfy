/**
 * `CacheAsidePolicy.get_or_load`: double-checked locking with one lock per key.
 * A scheduling point stands at every await (cache read, lock, loader, cache write); callers
 * interleave freely between them.  The cache may drop an entry at any moment (its ttl has run
 * out, say); which results need a cache that does not is said where they are stated.
 */
module CacheAside {
  import opened Common

  type Key = string
  /** `None` is Python's None, which the policy takes for "not cached". */
  type Value = Option<string>

  datatype Pc = Begin | Waiting | Checking | Loading | Storing(value: Value) | Returned(result: Value) | Raised

  datatype Caller = Caller(key: Key, pc: Pc)

  /** `locks` maps a key to its lock's holder; `loads` records the results of completed loader calls. */
  datatype System = System(
    cache: map<Key, Value>,
    locks: map<Key, Option<nat>>,
    callers: map<nat, Caller>,
    loads: map<Key, seq<Value>>)

  datatype Event =
    | Call(c: nat, key: Key)
    | FirstGet(c: nat)
    | Acquire(c: nat)
    | SecondGet(c: nat)
    | LoadOk(c: nat, value: Value)
    | LoadRaises(c: nat)
    | Store(c: nat)
    | Evict(key: Key)

  function Cached(s: System, k: Key): Value
  {
    if k in s.cache then s.cache[k] else None
  }

  function Loads(s: System, k: Key): seq<Value>
  {
    if k in s.loads then s.loads[k] else []
  }

  function Move(s: System, c: nat, pc: Pc): System
    requires c in s.callers
  {
    s.(callers := s.callers[c := s.callers[c].(pc := pc)])
  }

  /** The caller leaves the `async with` block. */
  function Leave(s: System, c: nat, pc: Pc): System
    requires c in s.callers
  {
    Move(s, c, pc).(locks := s.locks[s.callers[c].key := None])
  }

  predicate At(s: System, c: nat, pc: Pc)
  {
    c in s.callers && s.callers[c].pc == pc
  }

  predicate LockFree(s: System, k: Key)
  {
    k in s.locks && s.locks[k].None?
  }

  /** One scheduling step; an event that is not enabled changes nothing. */
  function Step(s: System, e: Event): System
  {
    match e
    case Call(c, key) =>
      if c in s.callers then s else s.(callers := s.callers[c := Caller(key, Begin)])
    case FirstGet(c) =>
      if !At(s, c, Begin) then s
      else
        var k := s.callers[c].key;
        if Cached(s, k).Some? then Move(s, c, Returned(Cached(s, k)))
        else Move(s, c, Waiting).(locks := if k in s.locks then s.locks else s.locks[k := None])
    case Acquire(c) =>
      if !At(s, c, Waiting) || !LockFree(s, s.callers[c].key) then s
      else Move(s, c, Checking).(locks := s.locks[s.callers[c].key := Some(c)])
    case SecondGet(c) =>
      if !At(s, c, Checking) then s
      else
        var v := Cached(s, s.callers[c].key);
        if v.Some? then Leave(s, c, Returned(v)) else Move(s, c, Loading)
    case LoadOk(c, v) =>
      if !At(s, c, Loading) then s
      else
        var k := s.callers[c].key;
        Move(s, c, Storing(v)).(loads := s.loads[k := Loads(s, k) + [v]])
    case LoadRaises(c) =>
      if !At(s, c, Loading) then s else Leave(s, c, Raised)
    case Store(c) =>
      if c !in s.callers || !s.callers[c].pc.Storing? then s
      else
        var v := s.callers[c].pc.value;
        Leave(s, c, Returned(v)).(cache := s.cache[s.callers[c].key := v])
    case Evict(key) => s.(cache := s.cache - {key})
  }

  const EMPTY := System(map[], map[], map[], map[])

  function Run(es: seq<Event>): System
  {
    if es == [] then EMPTY else Step(Run(es[..|es| - 1]), es[|es| - 1])
  }

  /** With `noneToo` false the loaders of the run never return None; with `evicts` false the cache keeps
      its entries. */
  predicate Permitted(noneToo: bool, evicts: bool, e: Event)
  {
    (e.LoadOk? && e.value.None? ==> noneToo) && (e.Evict? ==> evicts)
  }

  ghost predicate Permits(noneToo: bool, evicts: bool, es: seq<Event>)
  {
    forall e | e in es :: Permitted(noneToo, evicts, e)
  }

  ghost predicate Reachable(noneToo: bool, evicts: bool, s: System)
  {
    exists es :: Permits(noneToo, evicts, es) && Run(es) == s
  }

  lemma StepIsReachable(noneToo: bool, evicts: bool, s: System, e: Event)
    requires Reachable(noneToo, evicts, s) && Permitted(noneToo, evicts, e)
    ensures Reachable(noneToo, evicts, Step(s, e))
  {
    var es :| Permits(noneToo, evicts, es) && Run(es) == s;
    assert (es + [e])[..|es|] == es;
    assert Run(es + [e]) == Step(s, e);
  }

  // ---------------------------------------------------------------- invariant

  predicate Inside(pc: Pc)
  {
    pc == Checking || pc == Loading || pc.Storing?
  }

  /** A lock is held exactly by the caller inside the locked block of its key. */
  ghost predicate Locking(s: System)
  {
    && (forall c | c in s.callers && Inside(s.callers[c].pc) ::
          s.callers[c].key in s.locks && s.locks[s.callers[c].key] == Some(c))
    && (forall c | c in s.callers && s.callers[c].pc == Waiting :: s.callers[c].key in s.locks)
    && (forall k | k in s.locks && s.locks[k].Some? ::
          s.locks[k].value in s.callers && s.callers[s.locks[k].value].key == k
          && Inside(s.callers[s.locks[k].value].pc))
  }

  /** No loader result before the last one is a value. */
  ghost predicate OnlyLastIsValue(loads: seq<Value>)
  {
    forall i | 0 <= i < |loads| - 1 :: loads[i].None?
  }

  ghost predicate LastIs(loads: seq<Value>, v: Value)
  {
    loads != [] && loads[|loads| - 1] == v
  }

  ghost predicate CallerInv(s: System, caller: Caller)
  {
    match caller.pc
    case Loading => Cached(s, caller.key).None? && forall v | v in Loads(s, caller.key) :: v.None?
    case Storing(v) => Cached(s, caller.key).None? && LastIs(Loads(s, caller.key), v)
    case Returned(v) => v.Some? ==> Cached(s, caller.key) == v
    case _ => true
  }

  /** A loaded value is in the cache, or its loader's caller is just about to write it. */
  ghost predicate Accounted(s: System, k: Key)
  {
    && OnlyLastIsValue(Loads(s, k))
    && (Cached(s, k).Some? ==> LastIs(Loads(s, k), Cached(s, k)))
    && (Cached(s, k).None? && Loads(s, k) != [] && Loads(s, k)[|Loads(s, k)| - 1].Some? ==>
          k in s.locks && s.locks[k].Some? && s.locks[k].value in s.callers
          && s.callers[s.locks[k].value].pc.Storing?)
  }

  ghost predicate Inv(s: System)
  {
    && Locking(s)
    && (forall c | c in s.callers :: CallerInv(s, s.callers[c]))
    && (forall k :: Accounted(s, k))
  }

  lemma MoveKeepsLocking(s: System, s': System, c: nat, pc: Pc)
    requires Locking(s) && c in s.callers && Inside(pc) == Inside(s.callers[c].pc)
    requires pc == Waiting ==> s.callers[c].key in s.locks
    requires s'.callers == Move(s, c, pc).callers && s'.locks == s.locks
    ensures Locking(s')
  {
  }

  lemma LeaveKeepsLocking(s: System, s': System, c: nat, pc: Pc)
    requires Locking(s) && c in s.callers && Inside(s.callers[c].pc) && Finished(pc)
    requires s'.callers == Leave(s, c, pc).callers && s'.locks == Leave(s, c, pc).locks
    ensures Locking(s')
  {
  }

  lemma StepKeepsLocking(s: System, e: Event)
    requires Locking(s)
    ensures Locking(Step(s, e))
  {
    var s' := Step(s, e);
    match e
    case Call(c, key) => CallKeepsLocking(s, c, key);
    case FirstGet(c) => FirstGetKeepsLocking(s, c);
    case Acquire(c) => AcquireKeepsLocking(s, c);
    case SecondGet(c) => SecondGetKeepsLocking(s, c);
    case Evict(_) =>
    case LoadOk(c, v) => if At(s, c, Loading) { MoveKeepsLocking(s, s', c, Storing(v)); }
    case LoadRaises(c) => if At(s, c, Loading) { LeaveKeepsLocking(s, s', c, Raised); }
    case Store(c) =>
      if c in s.callers && s.callers[c].pc.Storing? {
        LeaveKeepsLocking(s, s', c, s'.callers[c].pc);
      }
  }

  lemma CallKeepsLocking(s: System, c: nat, key: Key)
    requires Locking(s)
    ensures Locking(Step(s, Call(c, key)))
  {
  }

  lemma FirstGetKeepsLocking(s: System, c: nat)
    requires Locking(s)
    ensures Locking(Step(s, FirstGet(c)))
  {
    if At(s, c, Begin) {
      var s' := Step(s, FirstGet(c));
      MoveKeepsLocking(s.(locks := s'.locks), s', c, s'.callers[c].pc);
    }
  }

  lemma SecondGetKeepsLocking(s: System, c: nat)
    requires Locking(s)
    ensures Locking(Step(s, SecondGet(c)))
  {
    if At(s, c, Checking) {
      var s' := Step(s, SecondGet(c));
      if Cached(s, s.callers[c].key).Some? {
        LeaveKeepsLocking(s, s', c, s'.callers[c].pc);
      } else {
        MoveKeepsLocking(s, s', c, Loading);
      }
    }
  }

  lemma AcquireKeepsLocking(s: System, c: nat)
    requires Locking(s)
    ensures Locking(Step(s, Acquire(c)))
  {
  }

  lemma LoadKeepsCallers(s: System, e: Event, c: nat)
    requires Inv(s) && e.LoadOk? && c in Step(s, e).callers
    ensures CallerInv(Step(s, e), Step(s, e).callers[c])
  {
    assert CallerInv(s, s.callers[c]);
    if e.c in s.callers {
      assert CallerInv(s, s.callers[e.c]);
    }
  }

  lemma StoreKeepsCallers(s: System, e: Event, c: nat)
    requires Inv(s) && e.Store? && c in Step(s, e).callers
    ensures CallerInv(Step(s, e), Step(s, e).callers[c])
  {
    assert CallerInv(s, s.callers[c]);
    if e.c in s.callers {
      assert CallerInv(s, s.callers[e.c]);
    }
  }

  lemma OthersKeepCallers(s: System, e: Event, c: nat)
    requires Inv(s) && !e.LoadOk? && !e.Store? && !e.Evict? && c in Step(s, e).callers
    ensures CallerInv(Step(s, e), Step(s, e).callers[c])
  {
    var s' := Step(s, e);
    assert s'.cache == s.cache && s'.loads == s.loads;
    if c in s.callers && s'.callers[c] == s.callers[c] {
      assert CallerInv(s, s.callers[c]);
    } else if e.SecondGet? && s'.callers[c].pc == Loading {
      NothingLoadedYet(s, c);
    }
  }

  /** Inside the lock, an empty cache means that no loader has produced a value. */
  lemma NothingLoadedYet(s: System, c: nat)
    requires Inv(s) && At(s, c, Checking) && Cached(s, s.callers[c].key).None?
    ensures forall v | v in Loads(s, s.callers[c].key) :: v.None?
  {
    assert Accounted(s, s.callers[c].key);
  }

  lemma StepKeepsCallers(s: System, e: Event, c: nat)
    requires Inv(s) && !e.Evict? && c in Step(s, e).callers
    ensures CallerInv(Step(s, e), Step(s, e).callers[c])
  {
    match e
    case LoadOk(_, _) => LoadKeepsCallers(s, e, c);
    case Store(_) => StoreKeepsCallers(s, e, c);
    case _ => OthersKeepCallers(s, e, c);
  }

  lemma WritesKeepAccounts(s: System, e: Event, k: Key)
    requires Inv(s) && (e.LoadOk? || e.Store?)
    ensures Accounted(Step(s, e), k)
  {
    assert Accounted(s, k);
    if e.c in s.callers {
      assert CallerInv(s, s.callers[e.c]);
    }
  }

  lemma OthersKeepAccounts(s: System, e: Event, k: Key)
    requires Locking(s) && Accounted(s, k) && !e.LoadOk? && !e.Store? && !e.Evict?
    ensures Accounted(Step(s, e), k)
  {
    var s' := Step(s, e);
    assert s'.cache == s.cache && s'.loads == s.loads;
    if k in s.locks && s.locks[k].Some? && s.locks[k].value in s.callers && s.callers[s.locks[k].value].pc.Storing? {
      OthersKeepStoring(s, e, k);
    }
  }

  lemma OthersKeepStoring(s: System, e: Event, k: Key)
    requires Locking(s) && k in s.locks && s.locks[k].Some? && s.callers[s.locks[k].value].pc.Storing?
    requires !e.LoadOk? && !e.Store? && !e.Evict?
    ensures var s' := Step(s, e);
            && k in s'.locks && s'.locks[k] == s.locks[k] && s.locks[k].value in s'.callers
            && s'.callers[s.locks[k].value] == s.callers[s.locks[k].value]
  {
  }

  lemma StepKeepsAccounts(s: System, e: Event, k: Key)
    requires Inv(s) && !e.Evict?
    ensures Accounted(Step(s, e), k)
  {
    if e.LoadOk? || e.Store? { WritesKeepAccounts(s, e, k); } else { OthersKeepAccounts(s, e, k); }
  }

  /** Evictions included. */
  lemma {:induction false} RunKeepsLocking(es: seq<Event>)
    ensures Locking(Run(es))
  {
    if es != [] {
      RunKeepsLocking(es[..|es| - 1]);
      StepKeepsLocking(Run(es[..|es| - 1]), es[|es| - 1]);
    }
  }

  lemma {:induction false} RunKeepsInv(es: seq<Event>)
    requires Permits(true, false, es)
    ensures Inv(Run(es))
  {
    if es != [] {
      var s, e := Run(es[..|es| - 1]), es[|es| - 1];
      RunKeepsInv(es[..|es| - 1]);
      StepKeepsLocking(s, e);
      assert Permitted(true, false, e);
      forall c | c in Step(s, e).callers ensures CallerInv(Step(s, e), Step(s, e).callers[c]) {
        StepKeepsCallers(s, e, c);
      }
      forall k ensures Accounted(Step(s, e), k) {
        StepKeepsAccounts(s, e, k);
      }
    }
  }

  lemma ReachableInv(noneToo: bool, s: System)
    requires Reachable(noneToo, false, s)
    ensures Inv(s)
  {
    var es :| Permits(noneToo, false, es) && Run(es) == s;
    RunKeepsInv(es);
  }

  lemma ReachableLocking(s: System)
    requires Reachable(true, true, s)
    ensures Locking(s)
  {
    var es :| Permits(true, true, es) && Run(es) == s;
    RunKeepsLocking(es);
  }

  // ---------------------------------------------------------------- theorems

  /** At most one coroutine per key is inside the loader, whatever loaders return and the cache drops. */
  lemma OneLoaderPerKey(s: System, c: nat, d: nat)
    requires Reachable(true, true, s) && At(s, c, Loading) && At(s, d, Loading) && s.callers[c].key == s.callers[d].key
    ensures c == d
  {
    ReachableLocking(s);
  }

  /** At most one loader call per key ever produces a value; after it no loader runs for that key. */
  lemma OneValuePerKey(s: System, k: Key)
    requires Reachable(true, false, s)
    ensures OnlyLastIsValue(Loads(s, k))
    ensures forall c, v | c in s.callers && s.callers[c].key == k && v in Loads(s, k) && v.Some? ::
              s.callers[c].pc != Loading
  {
    ReachableInv(true, s);
    assert Accounted(s, k);
    forall c, v | c in s.callers && s.callers[c].key == k && v in Loads(s, k) && v.Some?
      ensures s.callers[c].pc != Loading
    {
      assert CallerInv(s, s.callers[c]);
    }
  }

  /** Every caller that returns a value for a key returns the one value that was loaded for it. */
  lemma CallersAgree(s: System, c: nat)
    requires Reachable(true, false, s) && c in s.callers && s.callers[c].pc.Returned? && s.callers[c].pc.result.Some?
    ensures LastIs(Loads(s, s.callers[c].key), s.callers[c].pc.result)
    ensures Cached(s, s.callers[c].key) == s.callers[c].pc.result
  {
    ReachableInv(true, s);
    assert CallerInv(s, s.callers[c]);
    assert Accounted(s, s.callers[c].key);
  }

  lemma {:induction false} LoadsArePermitted(es: seq<Event>, k: Key, v: Value)
    requires Permits(false, false, es) && v in Loads(Run(es), k)
    ensures v.Some?
  {
    if es != [] {
      var init, e := es[..|es| - 1], es[|es| - 1];
      assert Permitted(false, false, e);
      LoadsGrow(Run(init), e, k, v);
      if v in Loads(Run(init), k) {
        LoadsArePermitted(init, k, v);
      }
    }
  }

  lemma LoadsGrow(s: System, e: Event, k: Key, v: Value)
    requires v in Loads(Step(s, e), k)
    ensures v in Loads(s, k) || (e.LoadOk? && e.value == v)
  {
  }

  /** In a run without None and evictions no key is loaded twice. */
  lemma LoadsOnce(s: System, k: Key)
    requires Reachable(false, false, s)
    ensures |Loads(s, k)| <= 1
  {
    ReachableInv(false, s);
    assert Accounted(s, k);
    if |Loads(s, k)| > 1 {
      var es :| Permits(false, false, es) && Run(es) == s;
      assert Loads(s, k)[0] in Loads(s, k) && Loads(s, k)[0].None?;
      LoadsArePermitted(es, k, Loads(s, k)[0]);
    }
  }

  /** A caller on its own that misses loads the key once more. */
  lemma LoadsAgain(noneToo: bool, evicts: bool, s: System, c: nat, k: Key, v: Value) returns (s': System)
    requires Reachable(noneToo, evicts, s) && (v.None? ==> noneToo)
    requires c !in s.callers && Cached(s, k).None? && (k in s.locks ==> s.locks[k].None?)
    ensures Reachable(noneToo, evicts, s') && Loads(s', k) == Loads(s, k) + [v] && Cached(s', k) == v
    ensures s'.callers.Keys == s.callers.Keys + {c} && (k in s'.locks ==> s'.locks[k].None?)
  {
    SoloIsReachable(noneToo, evicts, s, c, k, Some(v));
    SoloMiss(s, c, k, Some(v));
    s' := Solo(s, c, k, Some(v));
  }

  /** One caller after the other loads the same key: the first result was None, or was evicted. */
  lemma LoadsTwice(noneToo: bool, evicts: bool) returns (s: System)
    requires noneToo || evicts
    ensures Reachable(noneToo, evicts, s) && |Loads(s, "k")| == 2
  {
    var v: Value := if noneToo then None else Some("v");
    assert Run([]) == EMPTY && Permits(noneToo, evicts, []);
    s := LoadsAgain(noneToo, evicts, EMPTY, 0, "k", v);
    if !noneToo {
      StepIsReachable(noneToo, evicts, s, Evict("k"));
      s := Step(s, Evict("k"));
    }
    s := LoadsAgain(noneToo, evicts, s, 1, "k", v);
  }

  /** The loader succeeds at most once per key in every run, failed loads included, exactly when it
      never returns None and the cache keeps its entries. */
  lemma LoadsOnceExactly(noneToo: bool, evicts: bool)
    ensures !noneToo && !evicts <==> forall s: System, k: Key | Reachable(noneToo, evicts, s) :: |Loads(s, k)| <= 1
  {
    if noneToo || evicts {
      var s := LoadsTwice(noneToo, evicts);
    } else {
      forall s: System, k: Key | Reachable(noneToo, evicts, s) ensures |Loads(s, k)| <= 1 {
        LoadsOnce(s, k);
      }
    }
  }

  predicate Finished(pc: Pc)
  {
    pc.Returned? || pc == Raised
  }

  /** No deadlock: while a caller is unfinished, a caller of the same key can take a step. */
  lemma NobodyIsStuck(s: System, c: nat) returns (e: Event)
    requires Reachable(true, true, s) && c in s.callers && !Finished(s.callers[c].pc)
    ensures !e.Call? && !e.Evict? && e.c in s.callers && s.callers[e.c].key == s.callers[c].key
    ensures Step(s, e).callers[e.c].pc != s.callers[e.c].pc
  {
    ReachableLocking(s);
    var k := s.callers[c].key;
    var mover := if s.callers[c].pc == Waiting && s.locks[k].Some? then s.locks[k].value else c;
    match s.callers[mover].pc
    case Begin => e := FirstGet(mover);
    case Waiting => e := Acquire(mover);
    case Checking => e := SecondGet(mover);
    case Loading => e := LoadRaises(mover);
    case Storing(_) => e := Store(mover);
    case Returned(_) =>
    case Raised =>
  }

  // ---------------------------------------------------------------- one call on its own

  /** What a call returns and leaves in the cache; `loader` is None when the loader raises. */
  function Outcome(cache: map<Key, Value>, k: Key, loader: Option<Value>): (Option<Value>, map<Key, Value>)
  {
    if k in cache && cache[k].Some? then (Some(cache[k]), cache)
    else if loader.None? then (None, cache)
    else (loader, cache[k := loader.value])
  }

  function Checked(s: System, c: nat, k: Key): System
  {
    Step(Step(Step(Step(s, Call(c, k)), FirstGet(c)), Acquire(c)), SecondGet(c))
  }

  /** The steps of one caller with nobody else running. */
  function Solo(s: System, c: nat, k: Key, loader: Option<Value>): System
  {
    Step(Step(Checked(s, c, k), if loader.Some? then LoadOk(c, loader.value) else LoadRaises(c)), Store(c))
  }

  lemma SoloHit(s: System, c: nat, k: Key, loader: Option<Value>)
    requires c !in s.callers && Cached(s, k).Some?
    ensures Solo(s, c, k, loader) == s.(callers := s.callers[c := Caller(k, Returned(Cached(s, k)))])
  {
    var s1 := s.(callers := s.callers[c := Caller(k, Begin)]);
    var s2 := s.(callers := s.callers[c := Caller(k, Returned(Cached(s, k)))]);
    assert Step(s, Call(c, k)) == s1;
    assert Step(s1, FirstGet(c)) == s2;
    assert Step(s2, Acquire(c)) == s2;
  }

  lemma SoloMiss(s: System, c: nat, k: Key, loader: Option<Value>)
    requires c !in s.callers && Cached(s, k).None? && (k in s.locks ==> s.locks[k].None?)
    ensures Solo(s, c, k, loader) ==
            if loader.None? then s.(callers := s.callers[c := Caller(k, Raised)], locks := s.locks[k := None])
            else System(s.cache[k := loader.value], s.locks[k := None],
                        s.callers[c := Caller(k, Returned(loader.value))],
                        s.loads[k := Loads(s, k) + [loader.value]])
  {
    CheckedMiss(s, c, k);
    var t := s.(callers := s.callers[c := Caller(k, Loading)], locks := s.locks[k := Some(c)]);
    if loader.None? { FinishRaised(s, c, k, t); } else { FinishLoaded(s, c, k, t, loader.value); }
  }

  lemma FinishRaised(s: System, c: nat, k: Key, t: System)
    requires t == s.(callers := s.callers[c := Caller(k, Loading)], locks := s.locks[k := Some(c)])
    ensures Step(Step(t, LoadRaises(c)), Store(c))
            == s.(callers := s.callers[c := Caller(k, Raised)], locks := s.locks[k := None])
  {
    assert Step(t, LoadRaises(c)) == s.(callers := s.callers[c := Caller(k, Raised)], locks := s.locks[k := None]);
  }

  lemma FinishLoaded(s: System, c: nat, k: Key, t: System, v: Value)
    requires t == s.(callers := s.callers[c := Caller(k, Loading)], locks := s.locks[k := Some(c)])
    ensures Step(Step(t, LoadOk(c, v)), Store(c))
            == System(s.cache[k := v], s.locks[k := None],
                   s.callers[c := Caller(k, Returned(v))], s.loads[k := Loads(s, k) + [v]])
  {
    var mid := t.(callers := s.callers[c := Caller(k, Storing(v))], loads := s.loads[k := Loads(s, k) + [v]]);
    assert Step(t, LoadOk(c, v)) == mid;
  }

  lemma CheckedMiss(s: System, c: nat, k: Key)
    requires c !in s.callers && Cached(s, k).None? && (k in s.locks ==> s.locks[k].None?)
    ensures Checked(s, c, k) == s.(callers := s.callers[c := Caller(k, Loading)], locks := s.locks[k := Some(c)])
  {
    EnterMiss(s, c, k);
    LockedMiss(s, c, k, s.(callers := s.callers[c := Caller(k, Waiting)], locks := s.locks[k := None]));
  }

  lemma LockedMiss(s: System, c: nat, k: Key, t: System)
    requires Cached(s, k).None? && t == s.(callers := s.callers[c := Caller(k, Waiting)], locks := s.locks[k := None])
    ensures Step(Step(t, Acquire(c)), SecondGet(c))
            == s.(callers := s.callers[c := Caller(k, Loading)], locks := s.locks[k := Some(c)])
  {
    assert Step(t, Acquire(c)) == s.(callers := s.callers[c := Caller(k, Checking)], locks := s.locks[k := Some(c)]);
  }

  lemma EnterMiss(s: System, c: nat, k: Key)
    requires c !in s.callers && Cached(s, k).None? && (k in s.locks ==> s.locks[k].None?)
    ensures Step(Step(s, Call(c, k)), FirstGet(c)) == s.(callers := s.callers[c := Caller(k, Waiting)], locks := s.locks[k := None])
  {
    assert Step(s, Call(c, k)) == s.(callers := s.callers[c := Caller(k, Begin)]);
  }

  /** Undisturbed, the protocol's steps of one caller produce exactly that outcome and free the lock. */
  lemma SoloCall(s: System, c: nat, k: Key, loader: Option<Value>)
    requires c !in s.callers && (k in s.locks ==> s.locks[k].None?)
    ensures var (r, cache), end := Outcome(s.cache, k, loader), Solo(s, c, k, loader);
            && end.cache == cache
            && end.callers == s.callers[c := Caller(k, if r.Some? then Returned(r.value) else Raised)]
            && (k in end.locks ==> end.locks[k].None?)
            && Loads(end, k) == Loads(s, k) + (if Cached(s, k).None? && loader.Some? then [loader.value] else [])
  {
    if Cached(s, k).Some? {
      SoloHit(s, c, k, loader);
    } else {
      SoloMiss(s, c, k, loader);
    }
  }

  lemma SoloIsReachable(noneToo: bool, evicts: bool, s: System, c: nat, k: Key, loader: Option<Value>)
    requires Reachable(noneToo, evicts, s) && (loader == Some(None) ==> noneToo)
    ensures Reachable(noneToo, evicts, Solo(s, c, k, loader))
  {
    var s1 := Step(s, Call(c, k));
    StepIsReachable(noneToo, evicts, s, Call(c, k));
    var s2 := Step(s1, FirstGet(c));
    StepIsReachable(noneToo, evicts, s1, FirstGet(c));
    var s3 := Step(s2, Acquire(c));
    StepIsReachable(noneToo, evicts, s2, Acquire(c));
    var s4 := Step(s3, SecondGet(c));
    StepIsReachable(noneToo, evicts, s3, SecondGet(c));
    var load := if loader.Some? then LoadOk(c, loader.value) else LoadRaises(c);
    StepIsReachable(noneToo, evicts, s4, load);
    StepIsReachable(noneToo, evicts, Step(s4, load), Store(c));
  }

  class CacheAsidePolicy {
    var cache: map<Key, Value>
    /** The locks made so far; true is a held one. */
    var locks: map<Key, bool>

    constructor ()
      ensures cache == map[] && locks == map[]
    {
      cache, locks := map[], map[];
    }

    method CacheGet(key: Key) returns (v: Value)
      ensures v == if key in cache then cache[key] else None
    {
      v := if key in cache then cache[key] else None;
    }

    /** Up to the lock: the first lookup, and a new lock for a key that has none. */
    method Enter(key: Key) returns (cached: Value)
      modifies this`locks
      ensures cached == if key in cache then cache[key] else None
      ensures locks == if cached.Some? || key in old(locks) then old(locks) else old(locks)[key := false]
    {
      cached := CacheGet(key);
      if cached.None? && key !in locks {
        locks := locks[key := false];
      }
    }

    /** The locked block, entered when the lock is free; whatever others did to the cache meanwhile,
        its second lookup decides. */
    method Locked(key: Key, loader: Option<Value>) returns (r: Option<Value>)
      requires key in locks && !locks[key]
      modifies this
      ensures (r, cache) == Outcome(old(cache), key, loader) && locks == old(locks)
    {
      locks := locks[key := true];
      var cached := CacheGet(key);
      if cached.Some? {
        r := Some(cached);
      } else {
        r := loader;
        if loader.Some? {
          cache := cache[key := loader.value];
        }
      }
      locks := locks[key := false];
    }

    /** `granted` and `grantedLocks` are the cache and the locks at the moment this caller gets the lock,
        for which it may have waited while others ran; the lock is free then. */
    method GetOrLoad(key: Key, loader: Option<Value>, granted: map<Key, Value>, grantedLocks: map<Key, bool>)
      returns (r: Option<Value>)
      requires key in grantedLocks && !grantedLocks[key]
      modifies this
      ensures key in old(cache) && old(cache)[key].Some? ==>
                r == Some(old(cache)[key]) && cache == old(cache) && locks == old(locks)
      ensures key !in old(cache) || old(cache)[key].None? ==>
                (r, cache) == Outcome(granted, key, loader) && locks == grantedLocks
    {
      var cached := Enter(key);
      if cached.Some? {
        return Some(cached);
      }
      cache, locks := granted, grantedLocks;
      r := Locked(key, loader);
    }
  }
}
