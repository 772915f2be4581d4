/**
 * Where the values come from that callers of `CacheAsidePolicy.get_or_load` return: in every run,
 * with a cache that may drop entries at any moment, from a loader call for their own key.
 */
module CacheLoads {
  import opened Common
  import opened CacheAside

  /** Values in the cache, on their way to it, or returned all come from a completed loader call. */
  ghost predicate FromLoads(s: System)
  {
    && (forall k | Cached(s, k).Some? :: Cached(s, k) in Loads(s, k))
    && (forall c | c in s.callers :: CallerLoads(s, s.callers[c]))
  }

  lemma LoadsOnlyGrow(s: System, e: Event, k: Key)
    ensures Loads(s, k) <= Loads(Step(s, e), k)
  {
  }

  lemma CachedFromLoads(s: System, e: Event, k: Key)
    requires FromLoads(s) && Cached(Step(s, e), k).Some?
    ensures Cached(Step(s, e), k) in Loads(Step(s, e), k)
  {
    LoadsOnlyGrow(s, e, k);
    if Cached(s, k) == Cached(Step(s, e), k) {
      assert Cached(s, k) in Loads(s, k);
    }
  }

  /** What a caller stores or returns comes from its key's loads. */
  ghost predicate CallerLoads(s: System, caller: Caller)
  {
    && (caller.pc.Storing? ==> caller.pc.value in Loads(s, caller.key))
    && (caller.pc.Returned? ==> caller.pc.result in Loads(s, caller.key))
  }

  lemma StillFromLoads(s: System, e: Event, caller: Caller)
    requires CallerLoads(s, caller)
    ensures CallerLoads(Step(s, e), caller)
  {
    LoadsOnlyGrow(s, e, caller.key);
  }

  /** A caller that takes a step, from what it had and what the cache held. */
  lemma MoverFromLoads(s: System, e: Event, c: nat)
    requires !e.Call? && !e.Evict? && e.c == c && c in s.callers && CallerLoads(s, s.callers[c])
    requires Cached(s, s.callers[c].key).Some? ==> Cached(s, s.callers[c].key) in Loads(s, s.callers[c].key)
    ensures c in Step(s, e).callers && CallerLoads(Step(s, e), Step(s, e).callers[c])
  {
  }

  lemma CallerFromLoads(s: System, e: Event, c: nat)
    requires FromLoads(s) && c in Step(s, e).callers
    ensures CallerLoads(Step(s, e), Step(s, e).callers[c])
  {
    if c in s.callers {
      assert CallerLoads(s, s.callers[c]);
      StillFromLoads(s, e, s.callers[c]);
      if !e.Call? && !e.Evict? && e.c == c {
        MoverFromLoads(s, e, c);
      }
    }
  }

  lemma StepKeepsFromLoads(s: System, e: Event)
    requires FromLoads(s)
    ensures FromLoads(Step(s, e))
  {
    forall k | Cached(Step(s, e), k).Some? ensures Cached(Step(s, e), k) in Loads(Step(s, e), k) {
      CachedFromLoads(s, e, k);
    }
    forall c | c in Step(s, e).callers ensures CallerLoads(Step(s, e), Step(s, e).callers[c]) {
      CallerFromLoads(s, e, c);
    }
  }

  lemma {:induction false} RunKeepsFromLoads(es: seq<Event>)
    ensures FromLoads(Run(es))
  {
    if es != [] {
      RunKeepsFromLoads(es[..|es| - 1]);
      StepKeepsFromLoads(Run(es[..|es| - 1]), es[|es| - 1]);
    }
  }

  /** Evictions included, a caller returns only what a loader call for its key has returned. */
  lemma ReturnsWhatWasLoaded(s: System, c: nat)
    requires Reachable(true, true, s) && c in s.callers && s.callers[c].pc.Returned?
    ensures s.callers[c].pc.result in Loads(s, s.callers[c].key)
  {
    var es :| Permits(true, true, es) && Run(es) == s;
    RunKeepsFromLoads(es);
    assert CallerLoads(s, s.callers[c]);
  }

  /** The caller whose loader returns gets that very value, and leaves it in the cache and the lock free. */
  lemma LoaderGetsItsValue(s: System, c: nat, v: Value)
    requires At(s, c, Loading)
    ensures var s', k := Step(Step(s, LoadOk(c, v)), Store(c)), s.callers[c].key;
            && At(s', c, Returned(v)) && Cached(s', k) == v && LockFree(s', k) && Loads(s', k) == Loads(s, k) + [v]
  {
    var k := s.callers[c].key;
    var t := Move(s, c, Storing(v)).(loads := s.loads[k := Loads(s, k) + [v]]);
    assert Step(s, LoadOk(c, v)) == t;
  }
}
