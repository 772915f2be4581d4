/**
 * `RedisLock`: SET NX PX to acquire, compare-and-delete to release.  Any number of lock objects
 * with their own ttl share one key; each object is used by one coroutine at a time.  The clock
 * never goes back, and the server may drop the key at any moment from its deadline on.
 */
module RedisLocks {
  import opened Common

  datatype Held = Held(token: nat, deadline: real)

  /** `since` is the time of the latest successful acquire; `releasing` spans the await in release. */
  datatype Lock = Lock(ttl: real, token: Option<nat>, since: real, releasing: bool)

  /** `tokens` is the number of tokens drawn so far; every acquire draws a new one. */
  datatype System = System(key: Option<Held>, now: real, tokens: nat, locks: map<nat, Lock>)

  datatype Event =
    | Create(l: nat, ttl: real)
    | Acquire(l: nat)
    | ReleaseEval(l: nat)
    | ReleaseDone(l: nat)
    | Expire
    | Tick(d: real)

  /** One atomic step; an event that is not enabled changes nothing. */
  function Step(s: System, e: Event): System
  {
    match e
    case Create(l, ttl) =>
      if l in s.locks then s else s.(locks := s.locks[l := Lock(ttl, None, s.now, false)])
    case Acquire(l) =>
      if l !in s.locks || s.locks[l].releasing then s
      else if s.key.Some? then s.(tokens := s.tokens + 1)
      else System(Some(Held(s.tokens, s.now + s.locks[l].ttl)), s.now, s.tokens + 1,
                  s.locks[l := s.locks[l].(token := Some(s.tokens), since := s.now)])
    case ReleaseEval(l) =>
      if l !in s.locks || s.locks[l].token.None? || s.locks[l].releasing then s
      else s.(key := AfterEval(s.key, s.locks[l].token.value), locks := s.locks[l := s.locks[l].(releasing := true)])
    case ReleaseDone(l) =>
      if l !in s.locks || !s.locks[l].releasing then s
      else s.(locks := s.locks[l := s.locks[l].(token := None, releasing := false)])
    case Expire => if s.key.Some? && s.key.value.deadline <= s.now then s.(key := None) else s
    case Tick(d) => if d < 0.0 then s else s.(now := s.now + d)
  }

  /** The script: delete the key if it holds this token. */
  function AfterEval(key: Option<Held>, token: nat): Option<Held>
  {
    if key.Some? && key.value.token == token then None else key
  }

  const INIT := System(None, 0.0, 0, map[])

  function Run(es: seq<Event>): System
  {
    if es == [] then INIT else Step(Run(es[..|es| - 1]), es[|es| - 1])
  }

  ghost predicate Reachable(s: System)
  {
    exists es :: Run(es) == s
  }

  // ---------------------------------------------------------------- invariant

  /** The object takes itself for the holder. */
  predicate Believes(s: System, l: nat)
  {
    l in s.locks && s.locks[l].token.Some? && !s.locks[l].releasing
  }

  predicate InTime(s: System, l: nat)
    requires l in s.locks
  {
    s.now < s.locks[l].since + s.locks[l].ttl
  }

  /** While its time lasts, a believer's token is in the key. */
  ghost predicate LockInv(s: System, l: nat)
    requires l in s.locks
  {
    && (s.locks[l].token.Some? ==> s.locks[l].token.value < s.tokens && s.locks[l].since <= s.now)
    && (Believes(s, l) && InTime(s, l) ==>
          s.key == Some(Held(s.locks[l].token.value, s.locks[l].since + s.locks[l].ttl)))
  }

  /** The ttl of a had run out when b acquired. */
  ghost predicate RanOut(a: Lock, b: Lock)
  {
    a.since + a.ttl <= b.since
  }

  ghost predicate Inv(s: System)
  {
    && (s.key.Some? ==> s.key.value.token < s.tokens)
    && (forall l | l in s.locks :: LockInv(s, l))
    && (forall l, m | l != m && l in s.locks && m in s.locks && s.locks[l].token.Some? && s.locks[m].token.Some? ::
          s.locks[l].token != s.locks[m].token)
    && (forall l, m | l != m && Believes(s, l) && Believes(s, m) ::
          RanOut(s.locks[l], s.locks[m]) || RanOut(s.locks[m], s.locks[l]))
  }

  lemma AcquireKeepsInv(s: System, l: nat)
    requires Inv(s)
    ensures Inv(Step(s, Acquire(l)))
  {
    var s' := Step(s, Acquire(l));
    forall a | a in s'.locks ensures LockInv(s', a) {
      assert LockInv(s, a);
    }
    forall a, b | a != b && Believes(s', a) && Believes(s', b)
      ensures RanOut(s'.locks[a], s'.locks[b]) || RanOut(s'.locks[b], s'.locks[a])
    {
      assert LockInv(s, a) && LockInv(s, b);
    }
  }

  lemma ReleaseKeepsInv(s: System, l: nat)
    requires Inv(s)
    ensures Inv(Step(s, ReleaseEval(l)))
  {
    var s' := Step(s, ReleaseEval(l));
    forall a | a in s'.locks ensures LockInv(s', a) {
      assert LockInv(s, a);
    }
    assert forall a | Believes(s', a) :: Believes(s, a) && s'.locks[a] == s.locks[a];
  }

  /** A step by which nobody gains a token and the key at most expires. */
  ghost predicate Fades(s: System, s': System)
  {
    && s.now <= s'.now && s.tokens == s'.tokens
    && (s'.key == s.key || (s'.key.None? && s.key.Some? && s.key.value.deadline <= s.now))
    && (forall l | l in s'.locks && s'.locks[l].token.Some? :: l in s.locks && s'.locks[l] == s.locks[l])
  }

  lemma FadingKeepsInv(s: System, s': System)
    requires Inv(s) && Fades(s, s')
    ensures Inv(s')
  {
    forall l | l in s'.locks ensures LockInv(s', l) {
      if s'.locks[l].token.Some? {
        assert LockInv(s, l);
      }
    }
  }

  lemma StepKeepsInv(s: System, e: Event)
    requires Inv(s)
    ensures Inv(Step(s, e))
  {
    match e
    case Acquire(l) => AcquireKeepsInv(s, l);
    case ReleaseEval(l) => ReleaseKeepsInv(s, l);
    case _ =>
      assert Fades(s, Step(s, e));
      FadingKeepsInv(s, Step(s, e));
  }

  lemma {:induction false} RunKeepsInv(es: seq<Event>)
    ensures Inv(Run(es))
  {
    if es != [] {
      RunKeepsInv(es[..|es| - 1]);
      StepKeepsInv(Run(es[..|es| - 1]), es[|es| - 1]);
    }
  }

  lemma ReachableInv(s: System)
    requires Reachable(s)
    ensures Inv(s)
  {
    var es :| Run(es) == s;
    RunKeepsInv(es);
  }

  // ---------------------------------------------------------------- theorems

  /** Two objects both take themselves for the holder only if the earlier one's ttl had run out
      when the later one acquired; so at most one of them is still in time. */
  lemma TwoBelieversOnlyAfterTtl(s: System, l: nat, m: nat)
    requires Reachable(s) && l != m && Believes(s, l) && Believes(s, m)
    ensures RanOut(s.locks[l], s.locks[m]) || RanOut(s.locks[m], s.locks[l])
    ensures !(InTime(s, l) && InTime(s, m))
  {
    ReachableInv(s);
    assert LockInv(s, l) && LockInv(s, m);
  }

  /** A release deletes the key only while it holds the releaser's own token, and never takes the
      lock away from another object that holds it in time. */
  lemma ReleaseSparesOthers(s: System, l: nat, m: nat)
    requires Reachable(s) && l in s.locks && l != m && Believes(s, m) && InTime(s, m)
    ensures Step(s, ReleaseEval(l)).key == s.key
         == Some(Held(s.locks[m].token.value, s.locks[m].since + s.locks[m].ttl))
  {
    ReachableInv(s);
    assert LockInv(s, m);
  }

  /** While an object holds the lock in time nobody acquires it; once the key is gone anybody can. */
  lemma AcquireSucceedsExactlyWhenFree(s: System, l: nat, m: nat)
    requires Reachable(s) && l in s.locks && !s.locks[l].releasing
    ensures var s' := Step(s, Acquire(l));
            && (s.key.None? <==> s'.locks[l] != s.locks[l])
            && (s.key.None? ==> Believes(s', l) && s'.locks[l].since == s.now
                                && s'.key == Some(Held(s'.locks[l].token.value, s.now + s.locks[l].ttl)))
            && (Believes(s, m) && InTime(s, m) ==> s'.locks == s.locks && s'.key == s.key)
  {
    ReachableInv(s);
    assert LockInv(s, l);
    if Believes(s, m) {
      assert LockInv(s, m);
    }
  }

  /** A release by the object whose token is in the key frees it, whether or not its time is up. */
  lemma ReleaseDeletesOwn(s: System, l: nat)
    requires l in s.locks && s.locks[l].token.Some? && !s.locks[l].releasing
    requires s.key.Some? && s.key.value.token == s.locks[l].token.value
    ensures Step(s, ReleaseEval(l)).key == None
  {
  }

  /** Without a release the key goes exactly when the ttl of the acquire that made it is over. */
  lemma KeyLivesForItsTtl(s: System, l: nat, d: real)
    requires l in s.locks && !s.locks[l].releasing && s.key.None? && d >= 0.0
    ensures var held := Step(s, Acquire(l));
            && held.key.Some?
            && (Step(Step(held, Tick(d)), Expire).key.None? <==> d >= s.locks[l].ttl)
  {
  }

  /** An undisturbed acquire and release leave the key free and the object without a token. */
  lemma AcquireThenRelease(s: System, l: nat)
    requires l in s.locks && !s.locks[l].releasing && s.key.None?
    ensures var s' := Step(Step(Step(s, Acquire(l)), ReleaseEval(l)), ReleaseDone(l));
            s'.key == None && s'.now == s.now && s'.locks == s.locks[l := s.locks[l].(token := None, since := s.now)]
  {
    var held := System(Some(Held(s.tokens, s.now + s.locks[l].ttl)), s.now, s.tokens + 1,
                       s.locks[l := s.locks[l].(token := Some(s.tokens), since := s.now)]);
    assert Step(s, Acquire(l)) == held;
    var released := held.(key := None, locks := held.locks[l := held.locks[l].(releasing := true)]);
    assert Step(held, ReleaseEval(l)) == released;
  }

  // ---------------------------------------------------------------- the class

  class RedisServer {
    var key: Option<Held>

    constructor ()
      ensures key == None
    {
      key := None;
    }
  }

  class RedisLock {
    const server: RedisServer
    const ttl: real
    var token: Option<nat>

    constructor (s: RedisServer, ttl: real)
      ensures server == s && this.ttl == ttl && token == None
    {
      server := s;
      this.ttl := ttl;
      token := None;
    }

    method Acquire(now: real, newToken: nat) returns (acquired: bool)
      modifies this, server
      ensures acquired <==> old(server.key).None?
      ensures acquired ==> server.key == Some(Held(newToken, now + ttl)) && token == Some(newToken)
      ensures !acquired ==> server.key == old(server.key) && token == old(token)
    {
      acquired := server.key.None?;
      if acquired {
        server.key := Some(Held(newToken, now + ttl));
        token := Some(newToken);
      }
    }

    method Release()
      modifies this, server
      ensures token == None
      ensures server.key == if old(token).Some? then AfterEval(old(server.key), old(token).value) else old(server.key)
    {
      if token.None? {
        return;
      }
      if server.key.Some? && server.key.value.token == token.value {
        server.key := None;
      }
      token := None;
    }
  }
}
