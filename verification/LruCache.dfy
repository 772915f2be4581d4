/**
 * `AsyncLRUCache`: an ordered dictionary with per-entry expiry and hit/miss counters.
 * Each method body runs under one lock, so a run of the cache is a sequence of operations,
 * each with the clock reading it used.  No order among the readings is assumed.
 */
module LruCaches {
  import opened Common

  type Key = string
  /** `None` is Python's None, which may be stored like any other value. */
  type Value = Option<string>

  /** A key with its value and with what decides about its expiry. */
  datatype Slot<T> = Slot(key: Key, value: Value, expiry: T)

  /** The cache stores the time at which the entry expires, if it does. */
  type Entry = Slot<Option<real>>

  /** Entries run from least to most recently used. */
  datatype Cache = Cache(entries: seq<Entry>, hits: nat, misses: nat)

  datatype Config = Config(maxsize: int, ttl: Option<real>)

  datatype Op =
    | Get(key: Key, now: real)
    | Set(key: Key, value: Value, ttl: Option<real>, now: real)
    | Delete(key: Key)
    | Clear

  // ---------------------------------------------------------------- ordered dictionary

  function Find<T>(es: seq<Slot<T>>, k: Key): Option<Slot<T>>
  {
    if es == [] then None else if es[0].key == k then Some(es[0]) else Find(es[1..], k)
  }

  function Without<T>(es: seq<Slot<T>>, k: Key): seq<Slot<T>>
  {
    if es == [] then [] else if es[0].key == k then Without(es[1..], k) else [es[0]] + Without(es[1..], k)
  }

  ghost predicate DistinctKeys(es: seq<Entry>)
  {
    forall i, j | 0 <= i < j < |es| :: es[i].key != es[j].key
  }

  ghost predicate HasKey(es: seq<Entry>, k: Key)
  {
    exists i | 0 <= i < |es| :: es[i].key == k
  }

  lemma {:induction false} FindFacts(es: seq<Entry>, k: Key)
    ensures Find(es, k).Some? <==> HasKey(es, k)
    ensures Find(es, k).Some? ==> Find(es, k).value in es && Find(es, k).value.key == k
    ensures DistinctKeys(es) ==> forall e | e in es && e.key == k :: Find(es, k) == Some(e)
  {
    if es != [] {
      FindFacts(es[1..], k);
      assert es == [es[0]] + es[1..];
      if HasKey(es, k) && es[0].key != k {
        var i :| 0 <= i < |es| && es[i].key == k;
        assert es[1..][i - 1].key == k;
      }
    }
  }

  lemma {:induction false} WithoutMembers(es: seq<Entry>, k: Key)
    ensures forall e :: e in Without(es, k) <==> e in es && e.key != k
  {
    if es != [] {
      WithoutMembers(es[1..], k);
      assert es == [es[0]] + es[1..];
    }
  }

  lemma {:induction false} WithoutAbsent(es: seq<Entry>, k: Key)
    requires forall i | 0 <= i < |es| :: es[i].key != k
    ensures Without(es, k) == es
  {
    if es != [] {
      WithoutAbsent(es[1..], k);
      assert es == [es[0]] + es[1..];
    }
  }

  lemma {:induction false} WithoutDistinct(es: seq<Entry>, k: Key)
    requires DistinctKeys(es)
    ensures DistinctKeys(Without(es, k))
    ensures |Without(es, k)| == |es| - if HasKey(es, k) then 1 else 0
  {
    if es != [] {
      WithoutDistinct(es[1..], k);
      WithoutMembers(es[1..], k);
      if es[0].key == k {
        WithoutAbsent(es[1..], k);
      } else {
        HasKeyTail(es, k);
        assert forall e | e in Without(es[1..], k) :: e in es[1..];
      }
    }
  }

  lemma HasKeyTail(es: seq<Entry>, k: Key)
    requires es != [] && es[0].key != k
    ensures HasKey(es, k) <==> HasKey(es[1..], k)
  {
    if HasKey(es, k) {
      var i :| 0 <= i < |es| && es[i].key == k;
      assert es[1..][i - 1].key == k;
    }
    if HasKey(es[1..], k) {
      var i :| 0 <= i < |es[1..]| && es[1..][i].key == k;
      assert es[i + 1].key == k;
    }
  }

  lemma WithoutFacts(es: seq<Entry>, k: Key)
    ensures forall e :: e in Without(es, k) <==> e in es && e.key != k
    ensures !HasKey(es, k) ==> Without(es, k) == es
    ensures DistinctKeys(es) ==> DistinctKeys(Without(es, k))
    ensures DistinctKeys(es) ==> |Without(es, k)| == |es| - if HasKey(es, k) then 1 else 0
  {
    WithoutMembers(es, k);
    if !HasKey(es, k) {
      WithoutAbsent(es, k);
    }
    if DistinctKeys(es) {
      WithoutDistinct(es, k);
    }
  }

  // ---------------------------------------------------------------- operations

  predicate Live(e: Entry, now: real)
  {
    e.expiry.None? || now <= e.expiry.value
  }

  predicate Hits(c: Cache, k: Key, now: real)
  {
    Find(c.entries, k).Some? && Live(Find(c.entries, k).value, now)
  }

  function Expiry(cfg: Config, ttl: Option<real>, now: real): Option<real>
  {
    if ttl.Some? then Some(now + ttl.value) else if cfg.ttl.Some? then Some(now + cfg.ttl.value) else None
  }

  /** The least recently used entry goes when there is one too many. */
  function Evict<T>(es: seq<Slot<T>>, maxsize: int): seq<Slot<T>>
  {
    if |es| > maxsize && es != [] then es[1..] else es
  }

  function Apply(cfg: Config, c: Cache, op: Op): Cache
  {
    match op
    case Get(k, now) =>
      if Find(c.entries, k).None? then c.(misses := c.misses + 1)
      else if !Hits(c, k, now) then c.(entries := Without(c.entries, k), misses := c.misses + 1)
      else c.(entries := Without(c.entries, k) + [Find(c.entries, k).value], hits := c.hits + 1)
    case Set(k, v, ttl, now) =>
      var es := Without(c.entries, k) + [Slot(k, v, Expiry(cfg, ttl, now))];
      c.(entries := Evict(es, cfg.maxsize))
    case Delete(k) => c.(entries := Without(c.entries, k))
    case Clear => c.(entries := [])
  }

  const EMPTY := Cache([], 0, 0)

  function RunFrom(cfg: Config, c: Cache, ops: seq<Op>): Cache
  {
    if ops == [] then c else Apply(cfg, RunFrom(cfg, c, ops[..|ops| - 1]), ops[|ops| - 1])
  }

  function Run(cfg: Config, ops: seq<Op>): Cache
  {
    RunFrom(cfg, EMPTY, ops)
  }

  // ---------------------------------------------------------------- size and counters

  ghost predicate Inv(cfg: Config, c: Cache)
  {
    DistinctKeys(c.entries) && |c.entries| <= cfg.maxsize
  }

  lemma ApplyKeepsInv(cfg: Config, c: Cache, op: Op)
    requires cfg.maxsize >= 1 && Inv(cfg, c)
    ensures Inv(cfg, Apply(cfg, c, op))
  {
    if !op.Clear? {
      WithoutDistinct(c.entries, op.key);
      WithoutMembers(c.entries, op.key);
      if Find(c.entries, op.key).Some? {
        FindFacts(c.entries, op.key);
      }
    }
  }

  lemma {:induction false} RunKeepsInv(cfg: Config, ops: seq<Op>)
    requires cfg.maxsize >= 1
    ensures Inv(cfg, Run(cfg, ops))
  {
    if ops != [] {
      RunKeepsInv(cfg, ops[..|ops| - 1]);
      ApplyKeepsInv(cfg, Run(cfg, ops[..|ops| - 1]), ops[|ops| - 1]);
    }
  }

  function Gets(ops: seq<Op>): nat
  {
    if ops == [] then 0 else Gets(ops[..|ops| - 1]) + if ops[|ops| - 1].Get? then 1 else 0
  }

  /** Every `get` is counted once, as a hit or as a miss. */
  lemma {:induction false} CountersAddUp(cfg: Config, ops: seq<Op>)
    ensures Run(cfg, ops).hits + Run(cfg, ops).misses == Gets(ops)
  {
    if ops != [] {
      CountersAddUp(cfg, ops[..|ops| - 1]);
    }
  }

  // ---------------------------------------------------------------- inclusion

  /** `s` is obtained from `l` by leaving entries out. */
  predicate Subsequence(s: seq<Entry>, l: seq<Entry>)
  {
    s == [] || (l != [] && if s[0] == l[0] then Subsequence(s[1..], l[1..]) else Subsequence(s, l[1..]))
  }

  lemma {:induction false} SubTail(s: seq<Entry>, l: seq<Entry>)
    requires s != [] && Subsequence(s, l)
    ensures Subsequence(s[1..], l)
  {
    if s[0] == l[0] {
      if s[1..] != [] && s[1] == l[0] {
        SubTail(s[1..], l[1..]);
      }
    } else {
      SubTail(s, l[1..]);
      if s[1..] != [] && s[1] == l[0] {
        SubTail(s[1..], l[1..]);
      }
    }
  }

  lemma SubCons(s: seq<Entry>, x: Entry, l: seq<Entry>)
    requires Subsequence(s, l)
    ensures Subsequence(s, [x] + l)
  {
    assert ([x] + l)[1..] == l;
    if s != [] && s[0] == x {
      SubTail(s, l);
    }
  }

  lemma {:induction false} SubSnoc(s: seq<Entry>, l: seq<Entry>, x: Entry)
    requires Subsequence(s, l)
    ensures Subsequence(s + [x], l + [x])
  {
    if l == [] {
      assert s + [x] == [x] && l + [x] == [x];
    } else {
      assert (l + [x])[1..] == l[1..] + [x];
      if s == [] {
        SubSnoc([], l[1..], x);
        assert l + [x] == [l[0]] + (l[1..] + [x]);
        assert s + [x] == [x] == [] + [x];
        SubCons([x], l[0], l[1..] + [x]);
      } else {
        assert (s + [x])[1..] == s[1..] + [x];
        if s[0] == l[0] { SubSnoc(s[1..], l[1..], x); } else { SubSnoc(s, l[1..], x); }
      }
    }
  }

  lemma {:induction false} SubWithout(s: seq<Entry>, l: seq<Entry>, k: Key)
    requires Subsequence(s, l)
    ensures Subsequence(Without(s, k), Without(l, k))
  {
    if s != [] {
      if s[0] == l[0] {
        SubWithout(s[1..], l[1..], k);
      } else {
        SubWithout(s, l[1..], k);
        if l[0].key != k {
          SubCons(Without(s, k), l[0], Without(l[1..], k));
        }
      }
    }
  }

  lemma {:induction false} SubMembers(s: seq<Entry>, l: seq<Entry>)
    requires Subsequence(s, l)
    ensures |s| <= |l| && forall e | e in s :: e in l
  {
    if s != [] {
      assert l == [l[0]] + l[1..] && s == [s[0]] + s[1..];
      if s[0] == l[0] { SubMembers(s[1..], l[1..]); } else { SubMembers(s, l[1..]); }
    }
  }

  /** A smaller cache next to a larger one that has seen the same operations. */
  ghost predicate Included(small: Config, c: Cache, large: Config, d: Cache)
  {
    && Inv(small, c) && Inv(large, d)
    && Subsequence(c.entries, d.entries)
    && |d.entries| - |c.entries| <= large.maxsize - small.maxsize
    && c.hits <= d.hits
  }

  lemma IncludedFind(c: seq<Entry>, d: seq<Entry>, k: Key)
    requires DistinctKeys(c) && DistinctKeys(d) && Subsequence(c, d)
    ensures Find(c, k).Some? ==> Find(d, k) == Find(c, k)
    ensures |Without(d, k)| - |Without(c, k)| <= |d| - |c| - if Find(c, k).None? && Find(d, k).Some? then 1 else 0
    ensures Subsequence(Without(c, k), Without(d, k))
  {
    FindFacts(c, k);
    FindFacts(d, k);
    SubMembers(c, d);
    WithoutFacts(c, k);
    WithoutFacts(d, k);
    SubWithout(c, d, k);
  }

  lemma GetKeepsIncluded(small: Config, c: Cache, large: Config, d: Cache, k: Key, now: real)
    requires 1 <= small.maxsize <= large.maxsize
    requires Included(small, c, large, d)
    ensures Included(small, Apply(small, c, Get(k, now)), large, Apply(large, d, Get(k, now)))
  {
    ApplyKeepsInv(small, c, Get(k, now));
    ApplyKeepsInv(large, d, Get(k, now));
    IncludedFind(c.entries, d.entries, k);
    FindFacts(c.entries, k);
    FindFacts(d.entries, k);
    WithoutFacts(c.entries, k);
    WithoutFacts(d.entries, k);
    if Hits(c, k, now) {
      SubSnoc(Without(c.entries, k), Without(d.entries, k), Find(c.entries, k).value);
    } else if Find(c.entries, k).None? && Hits(d, k, now) {
      SubSnoc(Without(c.entries, k), Without(d.entries, k), Find(d.entries, k).value);
      SubInit(Without(c.entries, k), Without(d.entries, k), Find(d.entries, k).value);
    }
  }

  lemma {:induction false} SubInit(s: seq<Entry>, l: seq<Entry>, x: Entry)
    requires Subsequence(s, l)
    ensures Subsequence(s, l + [x])
  {
    if s != [] {
      assert (l + [x])[1..] == l[1..] + [x];
      if s[0] == l[0] { SubInit(s[1..], l[1..], x); } else { SubInit(s, l[1..], x); }
    }
  }

  /** Dropping the oldest entry of both, or of the smaller one alone, keeps the order relation. */
  lemma DropOldest(s: seq<Entry>, l: seq<Entry>)
    requires s != [] && Subsequence(s, l)
    ensures Subsequence(s[1..], l[1..]) && Subsequence(s[1..], l)
  {
    SubTail(s, l);
    if s[0] != l[0] {
      SubTail(s, l[1..]);
    }
  }

  lemma EvictKeepsOrder(s: seq<Entry>, small: int, l: seq<Entry>, large: int)
    requires Subsequence(s, l) && s != [] && |l| - |s| <= large - small
    ensures Subsequence(Evict(s, small), Evict(l, large))
  {
    DropOldest(s, l);
  }

  lemma PutKeepsOrder(c: seq<Entry>, d: seq<Entry>, e: Entry, small: int, large: int)
    requires DistinctKeys(c) && DistinctKeys(d) && Subsequence(c, d) && |d| - |c| <= large - small
    requires 1 <= small <= large && |c| <= small && |d| <= large
    ensures var s, l := Evict(Without(c, e.key) + [e], small), Evict(Without(d, e.key) + [e], large);
            Subsequence(s, l) && |l| - |s| <= large - small
  {
    IncludedFind(c, d, e.key);
    WithoutDistinct(c, e.key);
    WithoutDistinct(d, e.key);
    SubSnoc(Without(c, e.key), Without(d, e.key), e);
    EvictKeepsOrder(Without(c, e.key) + [e], small, Without(d, e.key) + [e], large);
  }

  lemma SetKeepsIncluded(small: Config, c: Cache, large: Config, d: Cache, op: Op)
    requires 1 <= small.maxsize <= large.maxsize && small.ttl == large.ttl && op.Set?
    requires Included(small, c, large, d)
    ensures Included(small, Apply(small, c, op), large, Apply(large, d, op))
  {
    ApplyKeepsInv(small, c, op);
    ApplyKeepsInv(large, d, op);
    PutKeepsOrder(c.entries, d.entries, Slot(op.key, op.value, Expiry(small, op.ttl, op.now)), small.maxsize, large.maxsize);
  }

  /**
   * LRU inclusion: after the same operations, with the same clock readings, a cache with a
   * larger maxsize holds every entry of the smaller one, with equal value and expiry and in
   * the same recency order, and has had at least as many hits.
   */
  lemma {:induction false} Inclusion(small: Config, large: Config, ops: seq<Op>)
    requires 1 <= small.maxsize <= large.maxsize && small.ttl == large.ttl
    ensures Included(small, Run(small, ops), large, Run(large, ops))
  {
    if ops != [] {
      var n := |ops| - 1;
      Inclusion(small, large, ops[..n]);
      var c, d := Run(small, ops[..n]), Run(large, ops[..n]);
      match ops[n]
      case Get(k, now) => GetKeepsIncluded(small, c, large, d, k, now);
      case Set(_, _, _, _) => SetKeepsIncluded(small, c, large, d, ops[n]);
      case Delete(k) =>
        ApplyKeepsInv(small, c, Delete(k));
        ApplyKeepsInv(large, d, Delete(k));
        IncludedFind(c.entries, d.entries, k);
      case Clear =>
    }
  }

  // ---------------------------------------------------------------- freshness

  /** The entry of the latest `set` of k that no `delete` or `clear` has followed. */
  function Latest(cfg: Config, ops: seq<Op>, k: Key): Option<Entry>
  {
    if ops == [] then None
    else
      var n := |ops| - 1;
      match ops[n]
      case Set(j, v, ttl, now) =>
        if j == k then Some(Slot(k, v, Expiry(cfg, ttl, now))) else Latest(cfg, ops[..n], k)
      case Delete(j) => if j == k then None else Latest(cfg, ops[..n], k)
      case Clear => None
      case Get(_, _) => Latest(cfg, ops[..n], k)
  }

  /** What the cache holds for a key is always its latest surviving `set`. */
  lemma {:induction false} HoldsLatest(cfg: Config, ops: seq<Op>, e: Entry)
    requires cfg.maxsize >= 1 && e in Run(cfg, ops).entries
    ensures Latest(cfg, ops, e.key) == Some(e)
  {
    if ops != [] {
      var n := |ops| - 1;
      var c, op := Run(cfg, ops[..n]), ops[n];
      RunKeepsInv(cfg, ops[..n]);
      if !op.Clear? {
        WithoutFacts(c.entries, op.key);
        FindFacts(c.entries, op.key);
      }
      if !(op.Set? && op.key == e.key) {
        assert e in c.entries;
        HoldsLatest(cfg, ops[..n], e);
      }
    }
  }

  /** The value `get` returns. */
  function Answer(c: Cache, k: Key, now: real): Value
  {
    if Hits(c, k, now) then Find(c.entries, k).value.value else None
  }

  /** `get` returns None, or the value of the latest set that was neither deleted, cleared nor expired. */
  lemma GetIsFresh(cfg: Config, ops: seq<Op>, k: Key, now: real)
    requires cfg.maxsize >= 1
    ensures var r, latest := Answer(Run(cfg, ops), k, now), Latest(cfg, ops, k);
            r == None || (latest.Some? && latest.value.value == r && Live(latest.value, now))
  {
    FindFacts(Run(cfg, ops).entries, k);
    if Hits(Run(cfg, ops), k, now) {
      HoldsLatest(cfg, ops, Find(Run(cfg, ops).entries, k).value);
    }
  }

  // ---------------------------------------------------------------- recency

  /** The operation sets k or hits it, and so makes it the most recently used key. */
  predicate Touches(c: Cache, op: Op, k: Key)
  {
    !op.Clear? && op.key == k && (op.Set? || (op.Get? && Hits(c, k, op.now)))
  }

  /** Position of the last operation that touched k, or -1. */
  function LastTouch(cfg: Config, ops: seq<Op>, k: Key): int
  {
    if ops == [] then -1
    else if Touches(Run(cfg, ops[..|ops| - 1]), ops[|ops| - 1], k) then |ops| - 1
    else LastTouch(cfg, ops[..|ops| - 1], k)
  }

  lemma {:induction false} LastTouchBound(cfg: Config, ops: seq<Op>, k: Key)
    ensures LastTouch(cfg, ops, k) < |ops|
  {
    if ops != [] {
      LastTouchBound(cfg, ops[..|ops| - 1], k);
    }
  }

  /** `Without` keeps the relative order of what it keeps. */
  lemma {:induction false} WithoutOrder(es: seq<Entry>, k: Key, i: nat, j: nat) returns (a: nat, b: nat)
    requires i < j < |Without(es, k)|
    ensures a < b < |es| && es[a] == Without(es, k)[i] && es[b] == Without(es, k)[j]
  {
    if es[0].key == k {
      a, b := WithoutOrder(es[1..], k, i, j);
      a, b := a + 1, b + 1;
    } else if i == 0 {
      WithoutMembers(es[1..], k);
      var e := Without(es[1..], k)[j - 1];
      assert e in es[1..];
      var m :| 0 <= m < |es[1..]| && es[1..][m] == e;
      a, b := 0, m + 1;
    } else {
      a, b := WithoutOrder(es[1..], k, i - 1, j - 1);
      a, b := a + 1, b + 1;
    }
  }

  ghost predicate OrderedByTouch(cfg: Config, ops: seq<Op>, es: seq<Entry>)
  {
    forall i, j | 0 <= i < j < |es| :: LastTouch(cfg, ops, es[i].key) < LastTouch(cfg, ops, es[j].key)
  }

  lemma WithoutOrderedByTouch(cfg: Config, ops: seq<Op>, es: seq<Entry>, k: Key)
    requires OrderedByTouch(cfg, ops, es)
    ensures OrderedByTouch(cfg, ops, Without(es, k))
  {
    forall i, j | 0 <= i < j < |Without(es, k)|
      ensures LastTouch(cfg, ops, Without(es, k)[i].key) < LastTouch(cfg, ops, Without(es, k)[j].key)
    {
      var a, b := WithoutOrder(es, k, i, j);
    }
  }

  /** An untouched key keeps its last touch; the touched one moves to the end of time. */
  lemma TouchStep(cfg: Config, ops: seq<Op>, op: Op, k: Key)
    ensures LastTouch(cfg, ops + [op], k) == if Touches(Run(cfg, ops), op, k) then |ops| else LastTouch(cfg, ops, k)
  {
    assert (ops + [op])[..|ops|] == ops;
  }

  lemma SnocOrderedByTouch(cfg: Config, ops: seq<Op>, op: Op, es: seq<Entry>, e: Entry)
    requires OrderedByTouch(cfg, ops, es)
    requires Touches(Run(cfg, ops), op, e.key) && forall x | x in es :: x.key != e.key
    ensures OrderedByTouch(cfg, ops + [op], es + [e])
  {
    forall i, j | 0 <= i < j < |es + [e]|
      ensures LastTouch(cfg, ops + [op], (es + [e])[i].key) < LastTouch(cfg, ops + [op], (es + [e])[j].key)
    {
      TouchStep(cfg, ops, op, (es + [e])[i].key);
      TouchStep(cfg, ops, op, (es + [e])[j].key);
      LastTouchBound(cfg, ops, (es + [e])[i].key);
    }
  }

  lemma KeepOrderedByTouch(cfg: Config, ops: seq<Op>, op: Op, es: seq<Entry>)
    requires OrderedByTouch(cfg, ops, es)
    requires forall x | x in es :: !Touches(Run(cfg, ops), op, x.key)
    ensures OrderedByTouch(cfg, ops + [op], es)
  {
    forall i, j | 0 <= i < j < |es|
      ensures LastTouch(cfg, ops + [op], es[i].key) < LastTouch(cfg, ops + [op], es[j].key)
    {
      TouchStep(cfg, ops, op, es[i].key);
      TouchStep(cfg, ops, op, es[j].key);
    }
  }

  lemma RunSnoc(cfg: Config, ops: seq<Op>, op: Op)
    ensures Run(cfg, ops + [op]) == Apply(cfg, Run(cfg, ops), op)
  {
    assert (ops + [op])[..|ops|] == ops;
  }

  lemma ApplyOrdered(cfg: Config, ops: seq<Op>, op: Op)
    requires OrderedByTouch(cfg, ops, Run(cfg, ops).entries)
    ensures OrderedByTouch(cfg, ops + [op], Run(cfg, ops + [op]).entries)
  {
    var c := Run(cfg, ops);
    RunSnoc(cfg, ops, op);
    if !op.Clear? {
      var es := Without(c.entries, op.key);
      WithoutOrderedByTouch(cfg, ops, c.entries, op.key);
      WithoutFacts(c.entries, op.key);
      FindFacts(c.entries, op.key);
      if op.Set? {
        SnocOrderedByTouch(cfg, ops, op, es, Slot(op.key, op.value, Expiry(cfg, op.ttl, op.now)));
      } else if op.Get? && Hits(c, op.key, op.now) {
        SnocOrderedByTouch(cfg, ops, op, es, Find(c.entries, op.key).value);
      } else {
        KeepOrderedByTouch(cfg, ops, op, es);
      }
    }
  }

  /** In every run the entries stand in the order of their last set or hit. */
  lemma {:induction false} RecencyOrder(cfg: Config, ops: seq<Op>)
    ensures OrderedByTouch(cfg, ops, Run(cfg, ops).entries)
  {
    if ops != [] {
      RecencyOrder(cfg, ops[..|ops| - 1]);
      ApplyOrdered(cfg, ops[..|ops| - 1], ops[|ops| - 1]);
      assert ops == ops[..|ops| - 1] + [ops[|ops| - 1]];
    }
  }

  lemma EvictedIsFirst(cfg: Config, c: Cache, op: Op, victim: Entry)
    requires cfg.maxsize >= 1 && Inv(cfg, c) && op.Set? && victim.key != op.key
    requires victim in c.entries && victim !in Apply(cfg, c, op).entries
    ensures var es := Without(c.entries, op.key) + [Slot(op.key, op.value, Expiry(cfg, op.ttl, op.now))];
            Apply(cfg, c, op).entries == es[1..] && es[0] == victim && |es| == cfg.maxsize + 1
  {
    WithoutFacts(c.entries, op.key);
    var es := Without(c.entries, op.key) + [Slot(op.key, op.value, Expiry(cfg, op.ttl, op.now))];
    assert victim in es;
    assert es == [es[0]] + es[1..];
  }

  /** A `set` that makes another key disappear evicted the key whose last set or hit is the oldest. */
  lemma EvictsLeastRecent(cfg: Config, ops: seq<Op>, op: Op, victim: Entry, kept: Entry)
    requires cfg.maxsize >= 1 && op.Set? && victim.key != op.key
    requires victim in Run(cfg, ops).entries && victim !in Apply(cfg, Run(cfg, ops), op).entries
    requires kept in Apply(cfg, Run(cfg, ops), op).entries
    ensures |Apply(cfg, Run(cfg, ops), op).entries| == cfg.maxsize
    ensures LastTouch(cfg, ops + [op], victim.key) < LastTouch(cfg, ops + [op], kept.key)
  {
    var c := Run(cfg, ops);
    RunKeepsInv(cfg, ops);
    EvictedIsFirst(cfg, c, op, victim);
    var e := Slot(op.key, op.value, Expiry(cfg, op.ttl, op.now));
    var rest := Without(c.entries, op.key);
    WithoutFacts(c.entries, op.key);
    WithoutOrderedByTouch(cfg, ops, c.entries, op.key) by { RecencyOrder(cfg, ops); }
    SnocOrderedByTouch(cfg, ops, op, rest, e);
    var i :| 0 <= i < |(rest + [e])[1..]| && (rest + [e])[1..][i] == kept;
    assert (rest + [e])[i + 1] == kept;
  }

  // ---------------------------------------------------------------- retention

  /** The keys touched at position t or later. */
  function TouchedSince(cfg: Config, ops: seq<Op>, t: nat): set<Key>
  {
    if |ops| <= t then {}
    else
      var n := |ops| - 1;
      TouchedSince(cfg, ops[..n], t)
      + if !ops[n].Clear? && Touches(Run(cfg, ops[..n]), ops[n], ops[n].key) then {ops[n].key} else {}
  }

  lemma {:induction false} TouchedSinceIff(cfg: Config, ops: seq<Op>, t: nat, k: Key)
    ensures k in TouchedSince(cfg, ops, t) <==> LastTouch(cfg, ops, k) >= t
  {
    LastTouchBound(cfg, ops, k);
    if |ops| > t {
      TouchedSinceIff(cfg, ops[..|ops| - 1], t, k);
    }
  }

  /** The operation takes k away for a reason other than capacity. */
  predicate Drops(c: Cache, op: Op, k: Key)
  {
    op.Clear? || (op.key == k && (op.Delete? || (op.Get? && !Hits(c, k, op.now))))
  }

  predicate DroppedSince(cfg: Config, ops: seq<Op>, t: nat, k: Key)
  {
    |ops| > t && (DroppedSince(cfg, ops[..|ops| - 1], t, k) || Drops(Run(cfg, ops[..|ops| - 1]), ops[|ops| - 1], k))
  }

  lemma {:induction false} KeysOf(es: seq<Entry>)
    requires DistinctKeys(es)
    ensures |set e | e in es :: e.key| == |es|
  {
    var keys := set e | e in es :: e.key;
    if es == [] {
      assert keys == {};
    } else {
      var n := |es| - 1;
      KeysOf(es[..n]);
      assert es == es[..n] + [es[n]];
      assert keys == (set e | e in es[..n] :: e.key) + {es[n].key};
      assert es[n].key !in set e | e in es[..n] :: e.key;
    }
  }

  /** The newcomer and every entry but the victim were touched after the victim: maxsize keys in all. */
  lemma EvictionNeedsTraffic(cfg: Config, ops: seq<Op>, op: Op, k: Key, t: nat)
    requires cfg.maxsize >= 1 && op.Set? && op.key != k
    requires HasKey(Run(cfg, ops).entries, k) && !HasKey(Apply(cfg, Run(cfg, ops), op).entries, k)
    requires t <= LastTouch(cfg, ops, k)
    ensures |TouchedSince(cfg, ops + [op], t) - {k}| >= cfg.maxsize
  {
    var c, after := Run(cfg, ops), Apply(cfg, Run(cfg, ops), op);
    FindFacts(c.entries, k);
    FindFacts(after.entries, k);
    var victim := Find(c.entries, k).value;
    RunKeepsInv(cfg, ops);
    ApplyKeepsInv(cfg, c, op);
    assert forall i | 0 <= i < |after.entries| :: after.entries[i].key != k;
    var keys := set e | e in after.entries :: e.key;
    KeysOf(after.entries);
    TouchStep(cfg, ops, op, k);
    forall j | j in keys ensures j in TouchedSince(cfg, ops + [op], t) - {k} {
      var e :| e in after.entries && e.key == j;
      EvictsLeastRecent(cfg, ops, op, victim, e);
      TouchedSinceIff(cfg, ops + [op], t, j);
    }
    EvictsLeastRecent(cfg, ops, op, victim, after.entries[0]) by {
      WithoutFacts(c.entries, op.key);
      assert after.entries != [];
    }
    SubsetCard(keys, TouchedSince(cfg, ops + [op], t) - {k});
  }

  lemma {:induction false} SubsetCard<T>(a: set<T>, b: set<T>)
    requires a <= b
    ensures |a| <= |b|
  {
    assert b == a + (b - a);
  }

  lemma HasKeyKept(cfg: Config, c: Cache, op: Op, k: Key)
    requires HasKey(c.entries, k) && !Drops(c, op, k) && !op.Set?
    ensures HasKey(Apply(cfg, c, op).entries, k)
  {
    FindFacts(c.entries, k);
    var after := Apply(cfg, c, op);
    var e := Find(c.entries, k).value;
    assert e in after.entries by {
      WithoutMembers(c.entries, op.key);
    }
    var i :| 0 <= i < |after.entries| && after.entries[i] == e;
  }

  lemma HasKeyTouched(cfg: Config, c: Cache, op: Op, k: Key)
    requires cfg.maxsize >= 1 && Inv(cfg, c) && Touches(c, op, k)
    ensures HasKey(Apply(cfg, c, op).entries, k)
  {
    WithoutFacts(c.entries, k);
    FindFacts(c.entries, k);
    var after := Apply(cfg, c, op);
    assert after.entries[|after.entries| - 1].key == k;
  }

  /** Once touched, a key leaves only by delete, clear or expiry, or after `maxsize` other keys were used. */
  lemma {:induction false} Retention(cfg: Config, ops: seq<Op>, t: nat, k: Key)
    requires cfg.maxsize >= 1 && t < |ops| && Touches(Run(cfg, ops[..t]), ops[t], k)
    ensures HasKey(Run(cfg, ops).entries, k) || DroppedSince(cfg, ops, t + 1, k)
            || |TouchedSince(cfg, ops, t) - {k}| >= cfg.maxsize
  {
    var n := |ops| - 1;
    var before, op, c := ops[..n], ops[n], Run(cfg, ops[..n]);
    RunKeepsInv(cfg, before);
    assert ops == before + [op];
    if n == t {
      HasKeyTouched(cfg, c, op, k);
    } else {
      assert before[..t] == ops[..t];
      Retention(cfg, before, t, k);
      SubsetCard(TouchedSince(cfg, before, t) - {k}, TouchedSince(cfg, ops, t) - {k});
      if op.Set? && op.key == k {
        HasKeyTouched(cfg, c, op, k);
      } else if HasKey(c.entries, k) && !Drops(c, op, k) {
        if !op.Set? {
          HasKeyKept(cfg, c, op, k);
        } else if !HasKey(Run(cfg, ops).entries, k) {
          TouchedAfter(cfg, before, t, k);
          EvictionNeedsTraffic(cfg, before, op, k, t);
        }
      }
    }
  }

  lemma {:induction false} TouchedAfter(cfg: Config, ops: seq<Op>, t: nat, k: Key)
    requires t < |ops| && Touches(Run(cfg, ops[..t]), ops[t], k)
    ensures LastTouch(cfg, ops, k) >= t
  {
    if t < |ops| - 1 {
      assert ops[..|ops| - 1][..t] == ops[..t];
      TouchedAfter(cfg, ops[..|ops| - 1], t, k);
    }
  }

  // ---------------------------------------------------------------- answers over time

  /** No more than the ttl in effect, the one passed to `set` or else the cache's own, lies between. */
  predicate InTime(cfg: Config, ttl: Option<real>, setAt: real, later: real)
  {
    if ttl.Some? then later - setAt <= ttl.value else cfg.ttl.Some? ==> later - setAt <= cfg.ttl.value
  }

  /** Operations that neither set nor remove k, and look it up only in time. */
  ghost predicate Leaves(cfg: Config, more: seq<Op>, k: Key, ttl: Option<real>, setAt: real)
  {
    forall op | op in more :: !op.Clear? && (op.key == k ==> op.Get? && InTime(cfg, ttl, setAt, op.now))
  }

  function OtherKeys(more: seq<Op>, k: Key): set<Key>
  {
    set op | op in more && !op.Clear? && op.key != k :: op.key
  }

  lemma {:induction false} LatestStays(cfg: Config, ops: seq<Op>, more: seq<Op>, k: Key)
    requires forall op | op in more :: !op.Clear? && (op.key == k ==> op.Get?)
    ensures Latest(cfg, ops + more, k) == Latest(cfg, ops, k)
  {
    if more == [] {
      assert ops + more == ops;
    } else {
      var n := |more| - 1;
      LatestStays(cfg, ops, more[..n], k);
      assert (ops + more)[..|ops + more| - 1] == ops + more[..n] && more[n] in more;
    }
  }

  lemma {:induction false} TouchesOthersOnly(cfg: Config, ops: seq<Op>, more: seq<Op>, k: Key)
    requires forall op | op in more :: !op.Clear?
    ensures TouchedSince(cfg, ops + more, |ops|) - {k} <= OtherKeys(more, k)
  {
    if more == [] {
      assert ops + more == ops;
    } else {
      var n := |more| - 1;
      TouchesOthersOnly(cfg, ops, more[..n], k);
      assert (ops + more)[..|ops + more| - 1] == ops + more[..n];
      assert more == more[..n] + [more[n]];
      assert OtherKeys(more[..n], k) <= OtherKeys(more, k);
      if more[n].key != k {
        assert more[n].key in OtherKeys(more, k);
      }
    }
  }

  /** The entry as a `set` leaves it. */
  function Fresh(cfg: Config, k: Key, v: Value, ttl: Option<real>, now: real): Entry
  {
    Slot(k, v, Expiry(cfg, ttl, now))
  }

  lemma SetIsLatest(cfg: Config, ops: seq<Op>, k: Key, v: Value, ttl: Option<real>, now: real)
    ensures Latest(cfg, ops + [Set(k, v, ttl, now)], k) == Some(Fresh(cfg, k, v, ttl, now))
    ensures Touches(Run(cfg, ops), Set(k, v, ttl, now), k)
  {
    assert (ops + [Set(k, v, ttl, now)])[..|ops|] == ops;
  }

  /** What the cache holds for a key that is its latest surviving set. */
  lemma HeldIsLatest(cfg: Config, ops: seq<Op>, k: Key, e: Entry)
    requires cfg.maxsize >= 1 && HasKey(Run(cfg, ops).entries, k) && Latest(cfg, ops, k) == Some(e)
    ensures Find(Run(cfg, ops).entries, k) == Some(e)
  {
    FindFacts(Run(cfg, ops).entries, k);
    HoldsLatest(cfg, ops, Find(Run(cfg, ops).entries, k).value);
  }

  lemma FreshIsLiveInTime(cfg: Config, k: Key, v: Value, ttl: Option<real>, setAt: real, later: real)
    ensures Live(Fresh(cfg, k, v, ttl, setAt), later) <==> InTime(cfg, ttl, setAt, later)
  {
  }

  /** Too little traffic for an eviction: what was not dropped is still there. */
  lemma StillHeld(cfg: Config, ops: seq<Op>, put: Op, more: seq<Op>, k: Key)
    requires cfg.maxsize >= 1 && put.Set? && put.key == k && |OtherKeys(more, k)| < cfg.maxsize
    requires forall op | op in more :: !op.Clear?
    requires !DroppedSince(cfg, ops + ([put] + more), |ops| + 1, k)
    ensures HasKey(Run(cfg, ops + ([put] + more)).entries, k)
  {
    var all, t := ops + ([put] + more), |ops|;
    assert all[..t] == ops && all[t] == put;
    Retention(cfg, all, t, k);
    TouchesOthersOnly(cfg, ops, [put] + more, k);
    assert OtherKeys([put] + more, k) == OtherKeys(more, k);
    SubsetCard(TouchedSince(cfg, all, t) - {k}, OtherKeys(more, k));
  }

  lemma SetStaysLatest(cfg: Config, ops: seq<Op>, k: Key, v: Value, ttl: Option<real>, now: real, more: seq<Op>)
    requires Leaves(cfg, more, k, ttl, now)
    ensures Latest(cfg, ops + ([Set(k, v, ttl, now)] + more), k) == Some(Fresh(cfg, k, v, ttl, now))
  {
    var put := Set(k, v, ttl, now);
    SetIsLatest(cfg, ops, k, v, ttl, now);
    LatestStays(cfg, ops + [put], more, k);
    assert ops + [put] + more == ops + ([put] + more);
  }

  lemma {:induction false} EntryStays(cfg: Config, ops: seq<Op>, k: Key, v: Value, ttl: Option<real>, now: real, more: seq<Op>)
    requires cfg.maxsize >= 1 && Leaves(cfg, more, k, ttl, now) && |OtherKeys(more, k)| < cfg.maxsize
    ensures var all := ops + ([Set(k, v, ttl, now)] + more);
            && Find(Run(cfg, all).entries, k) == Some(Fresh(cfg, k, v, ttl, now))
            && !DroppedSince(cfg, all, |ops| + 1, k)
    decreases |more|, 1
  {
    var all := ops + ([Set(k, v, ttl, now)] + more);
    if more != [] {
      NotDroppedYet(cfg, ops, k, v, ttl, now, more);
    }
    StillHeld(cfg, ops, Set(k, v, ttl, now), more, k);
    SetStaysLatest(cfg, ops, k, v, ttl, now, more);
    HeldIsLatest(cfg, all, k, Fresh(cfg, k, v, ttl, now));
  }

  lemma StillNotDropped(cfg: Config, before: seq<Op>, op: Op, t: nat, k: Key)
    requires !DroppedSince(cfg, before, t, k) && !op.Clear?
    requires op.key == k ==> op.Get? && Hits(Run(cfg, before), k, op.now)
    ensures !DroppedSince(cfg, before + [op], t, k)
  {
    assert (before + [op])[..|before|] == before;
  }

  lemma FewerOthers(more: seq<Op>, op: Op, k: Key)
    ensures |OtherKeys(more, k)| <= |OtherKeys(more + [op], k)|
  {
    assert OtherKeys(more, k) <= OtherKeys(more + [op], k);
    SubsetCard(OtherKeys(more, k), OtherKeys(more + [op], k));
  }

  lemma {:induction false} NotDroppedYet(cfg: Config, ops: seq<Op>, k: Key, v: Value, ttl: Option<real>, now: real, more: seq<Op>)
    requires cfg.maxsize >= 1 && Leaves(cfg, more, k, ttl, now) && |OtherKeys(more, k)| < cfg.maxsize && more != []
    ensures !DroppedSince(cfg, ops + ([Set(k, v, ttl, now)] + more), |ops| + 1, k)
    decreases |more|, 0
  {
    var n, put := |more| - 1, Set(k, v, ttl, now);
    var init, op := more[..n], more[n];
    assert more == init + [op] && op in more;
    FewerOthers(init, op, k);
    EntryStays(cfg, ops, k, v, ttl, now, init);
    FreshIsLiveInTime(cfg, k, v, ttl, now, if op.key == k then op.now else now);
    StillNotDropped(cfg, ops + ([put] + init), op, |ops| + 1, k);
    assert ops + ([put] + init) + [op] == ops + ([put] + more);
  }

  /** Right after a set, a get answers its value exactly until the ttl in effect has passed since. */
  lemma SetThenGet(cfg: Config, ops: seq<Op>, k: Key, v: Value, ttl: Option<real>, now: real, later: real)
    requires cfg.maxsize >= 1
    ensures Answer(Run(cfg, ops + [Set(k, v, ttl, now)]), k, later) == if InTime(cfg, ttl, now, later) then v else None
  {
    assert OtherKeys([], k) == {} && [Set(k, v, ttl, now)] + [] == [Set(k, v, ttl, now)];
    AnswersInTime(cfg, ops, k, v, ttl, now, [], later);
  }

  /** And so it does after any operations that do not set or remove the key, look it up in time, and use
      fewer than maxsize other keys. */
  lemma AnswersInTime(cfg: Config, ops: seq<Op>, k: Key, v: Value, ttl: Option<real>, now: real, more: seq<Op>, later: real)
    requires cfg.maxsize >= 1 && Leaves(cfg, more, k, ttl, now) && |OtherKeys(more, k)| < cfg.maxsize
    ensures Answer(Run(cfg, ops + ([Set(k, v, ttl, now)] + more)), k, later)
         == if InTime(cfg, ttl, now, later) then v else None
  {
    EntryStays(cfg, ops, k, v, ttl, now, more);
    FreshIsLiveInTime(cfg, k, v, ttl, now, later);
  }

  /** There is an entry for k that has not expired at `now`. */
  ghost predicate HasLive(es: seq<Entry>, k: Key, now: real)
  {
    exists e | e in es :: e.key == k && (e.expiry.None? || now <= e.expiry.value)
  }

  /** A get is a hit exactly if it finds a live entry; a miss leaves no entry for the key; both leave the
      others in their order, and a hit puts its own entry last. */
  lemma GetCountsExactly(cfg: Config, ops: seq<Op>, k: Key, now: real)
    requires cfg.maxsize >= 1
    ensures var c, c' := Run(cfg, ops), Run(cfg, ops + [Get(k, now)]);
            && c'.hits == c.hits + (if HasLive(c.entries, k, now) then 1 else 0)
            && c'.misses == c.misses + (if HasLive(c.entries, k, now) then 0 else 1)
            && Without(c'.entries, k) == Without(c.entries, k)
            && (if HasLive(c.entries, k, now) then c'.entries != [] && c'.entries[|c'.entries| - 1] in c.entries
                                                   && c'.entries[|c'.entries| - 1].key == k
                else !HasKey(c'.entries, k))
  {
    var c := Run(cfg, ops);
    RunSnoc(cfg, ops, Get(k, now));
    RunKeepsInv(cfg, ops);
    FindFacts(c.entries, k);
    WithoutMembers(c.entries, k);
    if HasKey(c.entries, k) {
      WithoutTwice(c.entries, k, Find(c.entries, k).value);
    }
  }

  lemma {:induction false} WithoutTwice(es: seq<Entry>, k: Key, e: Entry)
    requires e.key == k
    ensures Without(Without(es, k), k) == Without(es, k) == Without(Without(es, k) + [e], k)
  {
    WithoutMembers(es, k);
    WithoutAbsent(Without(es, k), k);
    WithoutLast(Without(es, k), e);
  }

  lemma {:induction false} WithoutLast(es: seq<Entry>, e: Entry)
    ensures Without(es + [e], e.key) == Without(es, e.key)
  {
    if es != [] {
      WithoutLast(es[1..], e);
      assert (es + [e])[1..] == es[1..] + [e];
    } else {
      assert (es + [e])[1..] == [];
    }
  }

  // ---------------------------------------------------------------- the class

  class AsyncLRUCache {
    const cfg: Config
    var store: seq<Entry>
    var hits: nat
    var misses: nat

    function State(): Cache
      reads this
    {
      Cache(store, hits, misses)
    }

    ghost predicate Valid()
      reads this
    {
      cfg.maxsize >= 1 && Inv(cfg, State())
    }

    /** None is the ValueError for a maxsize below one. */
    static method Create(maxsize: int, ttl: Option<real>) returns (r: Option<AsyncLRUCache>)
      ensures r.Some? <==> maxsize >= 1
      ensures r.Some? ==> fresh(r.value) && r.value.Valid()
                          && r.value.cfg == Config(maxsize, ttl) && r.value.State() == EMPTY
    {
      if maxsize < 1 {
        return None;
      }
      var cache := new AsyncLRUCache(maxsize, ttl);
      return Some(cache);
    }

    constructor (maxsize: int, ttl: Option<real>)
      requires maxsize >= 1
      ensures Valid() && cfg == Config(maxsize, ttl) && State() == EMPTY
    {
      cfg := Config(maxsize, ttl);
      store, hits, misses := [], 0, 0;
    }

    method Get(key: Key, now: real) returns (r: Value)
      requires Valid()
      modifies this
      ensures Valid() && State() == Apply(cfg, old(State()), Op.Get(key, now))
      ensures r == Answer(old(State()), key, now)
    {
      ApplyKeepsInv(cfg, State(), Op.Get(key, now));
      var entry := Find(store, key);
      if entry.None? {
        misses := misses + 1;
        return None;
      }
      if entry.value.expiry.Some? && now > entry.value.expiry.value {
        store := Without(store, key);
        misses := misses + 1;
        return None;
      }
      store := Without(store, key) + [entry.value];
      hits := hits + 1;
      return entry.value.value;
    }

    method Set(key: Key, value: Value, ttl: Option<real>, now: real)
      requires Valid()
      modifies this
      ensures Valid() && State() == Apply(cfg, old(State()), Op.Set(key, value, ttl, now))
    {
      ApplyKeepsInv(cfg, State(), Op.Set(key, value, ttl, now));
      var effective := if ttl.Some? then ttl else cfg.ttl;
      var expires := if effective.Some? then Some(now + effective.value) else None;
      store := Without(store, key) + [Slot(key, value, expires)];
      if |store| > cfg.maxsize {
        store := store[1..];
      }
    }

    method Delete(key: Key) returns (present: bool)
      requires Valid()
      modifies this
      ensures Valid() && State() == Apply(cfg, old(State()), Op.Delete(key))
      ensures present <==> HasKey(old(store), key)
    {
      ApplyKeepsInv(cfg, State(), Op.Delete(key));
      FindFacts(store, key);
      WithoutFacts(store, key);
      present := Find(store, key).Some?;
      if present {
        store := Without(store, key);
      }
    }

    method Clear()
      requires Valid()
      modifies this
      ensures Valid() && State() == Apply(cfg, old(State()), Op.Clear)
    {
      store := [];
    }

    /** The operations of other coroutines, as far as the cache sees them. */
    method Others(ops: seq<Op>)
      requires Valid()
      modifies this
      ensures Valid() && State() == RunFrom(cfg, old(State()), ops)
    {
      for i := 0 to |ops|
        invariant Valid() && State() == RunFrom(cfg, old(State()), ops[..i])
      {
        assert ops[..i + 1][..i] == ops[..i];
        match ops[i]
        case Get(k, now) => var _ := Get(k, now);
        case Set(k, v, ttl, now) => Set(k, v, ttl, now);
        case Delete(k) => var _ := Delete(k);
        case Clear => Clear();
      }
      assert ops[..|ops|] == ops;
    }

    /** `get_or_load`: `loader` is None when the loader raises, and then so is the result; it matters
        only on a miss or a cached None.  `others` run while the loader does. */
    method GetOrLoad(key: Key, loader: Option<Value>, ttl: Option<real>, now: real, later: real, others: seq<Op>)
      returns (r: Option<Value>)
      requires Valid()
      modifies this
      ensures Valid()
      ensures r == if Answer(old(State()), key, now).Some? then Some(Answer(old(State()), key, now)) else loader
      ensures var looked := Apply(cfg, old(State()), Op.Get(key, now));
              State() == if Answer(old(State()), key, now).Some? then looked
                         else if loader.None? then RunFrom(cfg, looked, others)
                         else Apply(cfg, RunFrom(cfg, looked, others), Op.Set(key, loader.value, ttl, later))
    {
      var cached := Get(key, now);
      if cached.Some? {
        return Some(cached);
      }
      Others(others);
      if loader.Some? {
        Set(key, loader.value, ttl, later);
      }
      return loader;
    }
  }
}
