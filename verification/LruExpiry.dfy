/**
 * `AsyncLRUCache` documents an expiry by last use: an entry that has been neither set nor hit for
 * its ttl is expired.  The code counts from the `set` alone.  This module gives the documented
 * cache, a run that tells the two apart, and the exact condition under which no run does.
 */
module LruExpiry {
  import opened Common
  import opened LruCaches

  /** The ttl of an entry and the time of its latest set or hit. */
  datatype Use = Use(ttl: Option<real>, at: real)

  /** An entry of the documented cache. */
  type Used = Slot<Use>

  predicate StillUsed(e: Used, now: real)
  {
    e.expiry.ttl.None? || now - e.expiry.at <= e.expiry.ttl.value
  }

  function Renewed(e: Used, now: real): Used
  {
    Slot(e.key, e.value, Use(e.expiry.ttl, now))
  }

  function Effective(cfg: Config, ttl: Option<real>): Option<real>
  {
    if ttl.Some? then ttl else cfg.ttl
  }

  /** The documented cache: a hit renews the entry. */
  function DocApply(cfg: Config, es: seq<Used>, op: Op): seq<Used>
  {
    match op
    case Get(k, now) =>
      var e := Find(es, k);
      if e.None? then es
      else if !StillUsed(e.value, now) then Without(es, k)
      else Without(es, k) + [Renewed(e.value, now)]
    case Set(k, v, ttl, now) => Evict(Without(es, k) + [Slot(k, v, Use(Effective(cfg, ttl), now))], cfg.maxsize)
    case Delete(k) => Without(es, k)
    case Clear => []
  }

  function DocRun(cfg: Config, ops: seq<Op>): seq<Used>
  {
    if ops == [] then [] else DocApply(cfg, DocRun(cfg, ops[..|ops| - 1]), ops[|ops| - 1])
  }

  function DocAnswer(es: seq<Used>, k: Key, now: real): Value
  {
    var e := Find(es, k);
    if e.Some? && StillUsed(e.value, now) then e.value.value else None
  }

  // ---------------------------------------------------------------- runs

  predicate Timed(op: Op)
  {
    op.Get? || op.Set?
  }

  /** The clock readings of the operations never go back, and none is later than `now`. */
  ghost predicate InOrder(ops: seq<Op>, now: real)
  {
    && (forall i | 0 <= i < |ops| && Timed(ops[i]) :: ops[i].now <= now)
    && (forall i, j | 0 <= i < j < |ops| && Timed(ops[i]) && Timed(ops[j]) :: ops[i].now <= ops[j].now)
  }

  /** Every `set` passes a ttl (or none) that is permitted. */
  ghost predicate Uses(permitted: Option<real> -> bool, ops: seq<Op>)
  {
    forall i | 0 <= i < |ops| && ops[i].Set? :: permitted(ops[i].ttl)
  }

  ghost predicate NoOverride(ops: seq<Op>)
  {
    forall i | 0 <= i < |ops| && ops[i].Set? :: ops[i].ttl.None?
  }

  /** No ttl, or one that a hit cannot stretch. */
  predicate Short(ttl: Option<real>)
  {
    ttl.None? || ttl.value <= 0.0
  }

  // ---------------------------------------------------------------- where the two agree

  function Code(e: Used): Entry
  {
    Slot(e.key, e.value, if e.expiry.ttl.Some? then Some(e.expiry.at + e.expiry.ttl.value) else None)
  }

  function Project(es: seq<Used>): (r: seq<Entry>)
    ensures |r| == |es| && forall i | 0 <= i < |r| :: r[i] == Code(es[i])
  {
    seq(|es|, i requires 0 <= i < |es| => Code(es[i]))
  }

  lemma ProjectTail(es: seq<Used>)
    requires es != []
    ensures Project(es)[1..] == Project(es[1..])
  {
  }

  lemma {:induction false} ProjectFind(es: seq<Used>, k: Key)
    ensures Find(Project(es), k) == match Find(es, k) case None => None case Some(e) => Some(Code(e))
    ensures Find(es, k).Some? ==> Find(es, k).value in es
  {
    if es != [] {
      ProjectTail(es);
      ProjectFind(es[1..], k);
    }
  }

  lemma {:induction false} ProjectWithout(es: seq<Used>, k: Key)
    ensures Without(Project(es), k) == Project(Without(es, k))
    ensures forall e | e in Without(es, k) :: e in es
  {
    if es != [] {
      ProjectTail(es);
      ProjectWithout(es[1..], k);
    }
  }

  lemma ProjectSnoc(es: seq<Used>, e: Used)
    ensures Project(es + [e]) == Project(es) + [Code(e)]
  {
  }

  lemma ProjectEvict(es: seq<Used>, maxsize: int)
    ensures Evict(Project(es), maxsize) == Project(Evict(es, maxsize))
    ensures forall e | e in Evict(es, maxsize) :: e in es
  {
  }

  ghost predicate AllShort(es: seq<Used>, clock: real)
  {
    forall e | e in es :: Short(e.expiry.ttl) && e.expiry.at <= clock
  }

  /** A live entry whose ttl is short was used just now, so renewing it changes nothing. */
  lemma RenewalIsNothing(e: Used, now: real)
    requires Short(e.expiry.ttl) && e.expiry.at <= now && StillUsed(e, now)
    ensures Code(Renewed(e, now)) == Code(e)
  {
  }

  lemma GetAgrees(cfg: Config, c: Cache, es: seq<Used>, k: Key, now: real)
    requires c.entries == Project(es) && AllShort(es, now)
    ensures Apply(cfg, c, Get(k, now)).entries == Project(DocApply(cfg, es, Get(k, now)))
    ensures AllShort(DocApply(cfg, es, Get(k, now)), now)
    ensures Answer(c, k, now) == DocAnswer(es, k, now)
  {
    ProjectFind(es, k);
    ProjectWithout(es, k);
    var e := Find(es, k);
    if e.Some? && StillUsed(e.value, now) {
      RenewalIsNothing(e.value, now);
      ProjectSnoc(Without(es, k), Renewed(e.value, now));
    }
  }

  lemma SetAgrees(cfg: Config, c: Cache, es: seq<Used>, op: Op, clock: real)
    requires c.entries == Project(es) && AllShort(es, clock) && op.Set? && Short(Effective(cfg, op.ttl)) && op.now <= clock
    ensures Apply(cfg, c, op).entries == Project(DocApply(cfg, es, op))
    ensures AllShort(DocApply(cfg, es, op), clock)
  {
    var e := Slot(op.key, op.value, Use(Effective(cfg, op.ttl), op.now));
    var rest := Without(es, op.key);
    ProjectWithout(es, op.key);
    ProjectSnoc(rest, e);
    ProjectEvict(rest + [e], cfg.maxsize);
    assert AllShort(rest + [e], clock);
    assert Code(e) == Slot(op.key, op.value, Expiry(cfg, op.ttl, op.now));
  }

  lemma {:induction false} RunsAgree(cfg: Config, permitted: Option<real> -> bool, ops: seq<Op>, now: real)
    requires forall o: Option<real> | permitted(o) :: Short(Effective(cfg, o))
    requires InOrder(ops, now) && Uses(permitted, ops)
    ensures Run(cfg, ops).entries == Project(DocRun(cfg, ops)) && AllShort(DocRun(cfg, ops), now)
  {
    if ops != [] {
      var n := |ops| - 1;
      var init, op := ops[..n], ops[n];
      var clock := if Timed(op) then op.now else now;
      RunsAgree(cfg, permitted, init, clock);
      var c, es := Run(cfg, init), DocRun(cfg, init);
      match op
      case Get(k, _) => GetAgrees(cfg, c, es, k, clock);
      case Set(_, _, _, _) => SetAgrees(cfg, c, es, op, clock);
      case Delete(k) => ProjectWithout(es, k);
      case Clear =>
    }
  }

  // ---------------------------------------------------------------- where they do not

  lemma {:induction false} WithoutOnly<T>(e: Slot<T>)
    ensures Without([e], e.key) == []
  {
    assert [e][1..] == [];
    assert Without([e][1..], e.key) == [];
  }

  lemma SetAlone(cfg: Config, k: Key, v: Value, override: Option<real>, ttl: real)
    requires cfg.maxsize >= 1 && Effective(cfg, override) == Some(ttl)
    ensures Run(cfg, [Set(k, v, override, 0.0)]) == Cache([Slot(k, v, Some(ttl))], 0, 0)
    ensures DocRun(cfg, [Set(k, v, override, 0.0)]) == [Slot(k, v, Use(Some(ttl), 0.0))]
  {
    var put, e, u := Set(k, v, override, 0.0), Slot(k, v, Some(ttl)), Slot(k, v, Use(Some(ttl), 0.0));
    assert [put][..0] == [] && [] + [e] == [e] && [] + [u] == [u];
    assert Run(cfg, [put]) == Apply(cfg, Run(cfg, []), put);
    assert Apply(cfg, EMPTY, put) == Cache([e], 0, 0) && DocApply(cfg, [], put) == [u];
  }

  lemma HitAlone(cfg: Config, c: Cache, e: Entry, u: Used, now: real)
    requires c.entries == [e] && e.key == u.key && Live(e, now) && StillUsed(u, now)
    ensures Apply(cfg, c, Get(e.key, now)).entries == [e]
    ensures DocApply(cfg, [u], Get(e.key, now)) == [Renewed(u, now)]
  {
    WithoutOnly(e);
    WithoutOnly(u);
    assert [] + [e] == [e] && [] + [Renewed(u, now)] == [Renewed(u, now)];
  }

  lemma SetThenHit(cfg: Config, k: Key, v: Value, override: Option<real>, ttl: real, at: real)
    requires cfg.maxsize >= 1 && Effective(cfg, override) == Some(ttl) && at <= ttl
    ensures var ops := [Set(k, v, override, 0.0), Get(k, at)];
            Run(cfg, ops).entries == [Slot(k, v, Some(ttl))] && DocRun(cfg, ops) == [Slot(k, v, Use(Some(ttl), at))]
  {
    var put, hit := Set(k, v, override, 0.0), Get(k, at);
    assert [put, hit][..1] == [put];
    SetAlone(cfg, k, v, override, ttl);
    HitAlone(cfg, Run(cfg, [put]), Slot(k, v, Some(ttl)), Slot(k, v, Use(Some(ttl), 0.0)), at);
  }

  /** Set at 0, hit at 0.6 ttl: at 1.2 ttl the code has lost an entry that was used 0.6 ttl ago. */
  lemma HitDoesNotRenew(cfg: Config, override: Option<real>) returns (ops: seq<Op>, now: real)
    requires cfg.maxsize >= 1 && !Short(Effective(cfg, override))
    ensures InOrder(ops, now) && (forall i | 0 <= i < |ops| && ops[i].Set? :: ops[i].ttl == override)
    ensures Answer(Run(cfg, ops), "k", now) == None && DocAnswer(DocRun(cfg, ops), "k", now) == Some("v")
  {
    var ttl := Effective(cfg, override).value;
    ops, now := [Set("k", Some("v"), override, 0.0), Get("k", 0.6 * ttl)], 1.2 * ttl;
    SetThenHit(cfg, "k", Some("v"), override, ttl, 0.6 * ttl);
  }

  /** Code and documentation give the same answers in every run with forward clock readings exactly
      when every ttl in effect is missing or not positive. */
  lemma ExpiresAsDocumentedExactly(cfg: Config, permitted: Option<real> -> bool)
    requires cfg.maxsize >= 1
    ensures (forall o: Option<real> | permitted(o) :: Short(Effective(cfg, o))) <==>
            forall ops: seq<Op>, k: Key, now: real | InOrder(ops, now) && Uses(permitted, ops) ::
              Answer(Run(cfg, ops), k, now) == DocAnswer(DocRun(cfg, ops), k, now)
  {
    if forall o: Option<real> | permitted(o) :: Short(Effective(cfg, o)) {
      forall ops: seq<Op>, k: Key, now: real | InOrder(ops, now) && Uses(permitted, ops)
        ensures Answer(Run(cfg, ops), k, now) == DocAnswer(DocRun(cfg, ops), k, now)
      {
        RunsAgree(cfg, permitted, ops, now);
        GetAgrees(cfg, Run(cfg, ops), DocRun(cfg, ops), k, now);
      }
    } else {
      var o: Option<real> :| permitted(o) && !Short(Effective(cfg, o));
      var ops, now := HitDoesNotRenew(cfg, o);
      assert Uses(permitted, ops);
    }
  }

  /** Without ttl overrides: exactly when the cache's own ttl is missing or not positive. */
  lemma DefaultTtlExactly(cfg: Config)
    requires cfg.maxsize >= 1
    ensures cfg.ttl.None? || cfg.ttl.value <= 0.0 <==>
            forall ops: seq<Op>, k: Key, now: real | InOrder(ops, now) && NoOverride(ops) ::
              Answer(Run(cfg, ops), k, now) == DocAnswer(DocRun(cfg, ops), k, now)
  {
    var permitted := (o: Option<real>) => o.None?;
    assert permitted(None) && Effective(cfg, None) == cfg.ttl;
    ExpiresAsDocumentedExactly(cfg, permitted);
    assert forall ops :: Uses(permitted, ops) <==> NoOverride(ops);
  }
}
