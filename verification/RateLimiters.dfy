/**
 * The window limiters: `LocalTokenBucketRateLimiter` (a window that opens with its first request)
 * and `RedisRateLimiter` (a counter whose expiry every request renews).  Keys do not influence
 * each other, so a run is the sequence of request times of one key under a fixed quota.
 */
module RateLimiters {
  import opened Common

  datatype Quota = Quota(limit: int, window: real)

  ghost predicate Ordered(ts: seq<real>)
  {
    forall i, j | 0 <= i < j < |ts| :: ts[i] <= ts[j]
  }

  // ---------------------------------------------------------------- local limiter

  datatype Bucket = Bucket(count: int, start: real)

  datatype Verdict = Verdict(allowed: bool, remaining: int, resetAt: real)

  /** The window a request at `now` falls into. */
  function Window(q: Quota, b: Option<Bucket>, now: real): Bucket
  {
    if b.None? || now - b.value.start >= q.window then Bucket(0, now) else b.value
  }

  function LocalVerdict(q: Quota, b: Option<Bucket>, now: real): Verdict
  {
    var w := Window(q, b, now);
    var resetAt := w.start + q.window;
    if w.count < q.limit then Verdict(true, q.limit - w.count - 1, resetAt) else Verdict(false, 0, resetAt)
  }

  /** A denied request stores nothing. */
  function LocalCheck(q: Quota, b: Option<Bucket>, now: real): Option<Bucket>
  {
    var w := Window(q, b, now);
    if w.count < q.limit then Some(Bucket(w.count + 1, w.start)) else b
  }

  function LocalRun(q: Quota, b: Option<Bucket>, ts: seq<real>): Option<Bucket>
  {
    if ts == [] then b else LocalCheck(q, LocalRun(q, b, ts[..|ts| - 1]), ts[|ts| - 1])
  }

  predicate LocalAllows(q: Quota, b: Option<Bucket>, ts: seq<real>, i: nat)
    requires i < |ts|
  {
    LocalVerdict(q, LocalRun(q, b, ts[..i]), ts[i]).allowed
  }

  /** The requests allowed at times in [from, from + window). */
  function LocalAllowed(q: Quota, b: Option<Bucket>, ts: seq<real>, from: real): nat
  {
    if ts == [] then 0
    else
      var n := |ts| - 1;
      LocalAllowed(q, b, ts[..n], from)
      + if LocalVerdict(q, LocalRun(q, b, ts[..n]), ts[n]).allowed && from <= ts[n] < from + q.window then 1 else 0
  }

  /** How the requests allowed in [from, from + window) relate to the bucket in force. */
  ghost predicate LocalInv(q: Quota, b: Option<Bucket>, n: nat, last: real, from: real)
  {
    && (last < from ==> n == 0)
    && (b.None? ==> n == 0)
    && (b.Some? ==>
          && 1 <= b.value.count <= q.limit && b.value.start <= last
          && (b.value.start < from ==> n <= b.value.count - 1)
          && (from <= b.value.start < from + q.window ==> n <= q.limit - 1 + b.value.count)
          && (from + q.window <= b.value.start ==> n <= 2 * q.limit - 1))
  }

  lemma LocalStep(q: Quota, b: Option<Bucket>, n: nat, last: real, now: real, from: real)
    requires LocalInv(q, b, n, last, from) && last <= now
    ensures LocalInv(q, LocalCheck(q, b, now),
                     n + if LocalVerdict(q, b, now).allowed && from <= now < from + q.window then 1 else 0, now, from)
  {
  }

  lemma {:induction false} LocalRunKeepsInv(q: Quota, ts: seq<real>, from: real)
    requires Ordered(ts) && ts != []
    ensures LocalInv(q, LocalRun(q, None, ts), LocalAllowed(q, None, ts, from), ts[|ts| - 1], from)
  {
    var n := |ts| - 1;
    if n == 0 {
      LocalStep(q, None, 0, ts[0], ts[0], from);
    } else {
      LocalRunKeepsInv(q, ts[..n], from);
      LocalStep(q, LocalRun(q, None, ts[..n]), LocalAllowed(q, None, ts[..n], from), ts[n - 1], ts[n], from);
    }
  }

  lemma {:induction false} NothingInEmptyInterval(q: Quota, ts: seq<real>, from: real)
    requires q.window <= 0.0
    ensures LocalAllowed(q, None, ts, from) == 0
  {
    if ts != [] {
      NothingInEmptyInterval(q, ts[..|ts| - 1], from);
    }
  }

  /** The most requests that an interval as long as the window can see allowed. */
  function WorstCase(q: Quota): nat
  {
    if q.limit >= 1 && q.window > 0.0 then 2 * q.limit - 1 else 0
  }

  /** At most 2 * limit - 1 requests are allowed in any half-open interval as long as the window. */
  lemma LocalBound(q: Quota, ts: seq<real>, from: real)
    requires Ordered(ts)
    ensures LocalAllowed(q, None, ts, from) <= WorstCase(q)
  {
    if q.window <= 0.0 {
      NothingInEmptyInterval(q, ts, from);
    } else if ts != [] {
      LocalRunKeepsInv(q, ts, from);
    }
  }

  /** Within a window the limiter counts up to the limit and stays there. */
  lemma {:induction false} CountsUp(q: Quota, b: Bucket, ts: seq<real>)
    requires 0 <= b.count <= q.limit
    requires forall i | 0 <= i < |ts| :: ts[i] - b.start < q.window
    ensures LocalRun(q, Some(b), ts)
         == Some(Bucket(if b.count + |ts| <= q.limit then b.count + |ts| else q.limit, b.start))
  {
    if ts != [] {
      CountsUp(q, b, ts[..|ts| - 1]);
    }
  }

  /** `remaining` is honest: of the requests before `reset_at` that follow an allowed one, exactly
      the first `remaining` are allowed. */
  lemma RemainingIsHonest(q: Quota, b: Option<Bucket>, now: real, ts: seq<real>, i: nat)
    requires LocalVerdict(q, b, now).allowed && i < |ts| && (b.Some? ==> b.value.count >= 0)
    requires forall j | 0 <= j < |ts| :: ts[j] < LocalVerdict(q, b, now).resetAt
    ensures LocalAllows(q, LocalCheck(q, b, now), ts, i) <==> i < LocalVerdict(q, b, now).remaining
  {
    CountsUp(q, LocalCheck(q, b, now).value, ts[..i]);
  }

  lemma NewWindow(q: Quota, b: Option<Bucket>, t: real, now: real)
    requires LocalVerdict(q, b, t).resetAt <= now && t <= now && (b.Some? ==> b.value.count >= 0 && b.value.start <= t)
    ensures Window(q, LocalCheck(q, b, t), now) == Bucket(0, now)
  {
  }

  /** Once the reset time of the latest verdict is reached, a new window opens in full, however many
      requests were denied before. */
  lemma ReopensAtReset(q: Quota, ts: seq<real>, t: real, now: real)
    requires Ordered(ts + [t]) && t <= now && LocalVerdict(q, LocalRun(q, None, ts), t).resetAt <= now
    ensures var v := LocalVerdict(q, LocalRun(q, None, ts + [t]), now);
            && (v.allowed <==> q.limit >= 1) && v.resetAt == now + q.window
            && v.remaining == if v.allowed then q.limit - 1 else 0
  {
    Snoc(q, ts, t, now);
    assert forall i | 0 <= i < |ts| :: (ts + [t])[i] == ts[i];
    if ts != [] {
      assert (ts + [t])[|ts| - 1] <= (ts + [t])[|ts|];
      assert Ordered(ts) by {
        assert forall i, j | 0 <= i < j < |ts| :: (ts + [t])[i] <= (ts + [t])[j];
      }
      LocalRunKeepsInv(q, ts, t);
    }
    NewWindow(q, LocalRun(q, None, ts), t, now);
  }

  // ---------------------------------------------------------------- one window, and the worst case

  /** Every allowed request lies before the end of the window in force. */
  lemma {:induction false} NothingAllowedAfter(q: Quota, ts: seq<real>, from: real)
    requires Ordered(ts)
    requires LocalRun(q, None, ts).Some? ==> LocalRun(q, None, ts).value.start + q.window <= from
    ensures LocalAllowed(q, None, ts, from) == 0
  {
    if ts != [] {
      var n := |ts| - 1;
      var b := LocalRun(q, None, ts[..n]);
      if b.Some? && n > 0 {
        LocalRunKeepsInv(q, ts[..n], from);
      }
      NothingAllowedAfter(q, ts[..n], from);
    }
  }

  /** The requests of one window: those from the moment it opens, counted by its bucket. */
  ghost predicate WindowInv(q: Quota, b: Option<Bucket>, n: nat, last: real, opens: real)
  {
    && b.Some? && opens <= b.value.start <= last && 1 <= b.value.count <= q.limit
    && (b.value.start == opens ==> n == b.value.count)
    && (b.value.start > opens ==> b.value.start >= opens + q.window && n <= q.limit)
  }

  lemma WindowStep(q: Quota, b: Option<Bucket>, n: nat, last: real, now: real, opens: real)
    requires WindowInv(q, b, n, last, opens) && last <= now && q.window > 0.0
    ensures WindowInv(q, LocalCheck(q, b, now),
                      n + if LocalVerdict(q, b, now).allowed && opens <= now < opens + q.window then 1 else 0, now, opens)
  {
  }

  lemma {:induction false} WindowCounts(q: Quota, ts: seq<real>, i: nat)
    requires Ordered(ts) && i < |ts| && q.limit >= 1 && q.window > 0.0
    requires Window(q, LocalRun(q, None, ts[..i]), ts[i]) == Bucket(0, ts[i])
    ensures WindowInv(q, LocalRun(q, None, ts), LocalAllowed(q, None, ts, ts[i]), ts[|ts| - 1], ts[i])
  {
    var n := |ts| - 1;
    if n == i {
      WindowOpensEmpty(q, ts[..n], ts[n]);
    } else {
      assert ts[..n][..i] == ts[..i];
      WindowCounts(q, ts[..n], i);
      WindowStep(q, LocalRun(q, None, ts[..n]), LocalAllowed(q, None, ts[..n], ts[i]), ts[n - 1], ts[n], ts[i]);
    }
  }

  lemma WindowOpensEmpty(q: Quota, ts: seq<real>, now: real)
    requires Ordered(ts) && Window(q, LocalRun(q, None, ts), now) == Bucket(0, now)
    ensures LocalAllowed(q, None, ts, now) == 0
  {
    var b := LocalRun(q, None, ts);
    if b.Some? && ts != [] {
      LocalRunKeepsInv(q, ts, now);
    }
    NothingAllowedAfter(q, ts, now);
  }

  /** A window that opens at a request allows at most `limit` requests until it closes. */
  lemma AtMostLimitPerWindow(q: Quota, ts: seq<real>, i: nat)
    requires Ordered(ts) && i < |ts|
    requires Window(q, LocalRun(q, None, ts[..i]), ts[i]) == Bucket(0, ts[i])
    ensures LocalAllowed(q, None, ts, ts[i]) <= if q.limit >= 1 then q.limit else 0
  {
    if q.limit < 1 {
      LocalBound(q, ts, ts[i]);
    } else if q.window <= 0.0 {
      NothingInEmptyInterval(q, ts, ts[i]);
    } else {
      WindowCounts(q, ts, i);
    }
  }

  lemma Snoc(q: Quota, ts: seq<real>, t: real, from: real)
    ensures LocalRun(q, None, ts + [t]) == LocalCheck(q, LocalRun(q, None, ts), t)
    ensures LocalAllowed(q, None, ts + [t], from) == LocalAllowed(q, None, ts, from)
            + if LocalVerdict(q, LocalRun(q, None, ts), t).allowed && from <= t < from + q.window then 1 else 0
  {
    assert (ts + [t])[..|ts|] == ts;
  }

  lemma SameWindow(q: Quota, b: Option<Bucket>, t: real, n: nat)
    requires q.window > 0.0
    ensures var w := Window(q, b, t);
            Window(q, Some(Bucket(w.count + n, w.start)), t) == Bucket(w.count + n, w.start)
  {
  }

  /** Requests at one moment are all allowed while the count lasts. */
  lemma {:induction false} Burst(q: Quota, ts: seq<real>, t: real, n: nat, from: real) returns (more: seq<real>)
    requires Ordered(ts) && ts != [] && ts[|ts| - 1] <= t && from <= t < from + q.window && q.window > 0.0
    requires n > 0 ==> Window(q, LocalRun(q, None, ts), t).count + n <= q.limit
    ensures Ordered(more) && more != [] && more[|more| - 1] <= t
    ensures LocalAllowed(q, None, more, from) == LocalAllowed(q, None, ts, from) + n
    ensures var w := Window(q, LocalRun(q, None, ts), t);
            LocalRun(q, None, more) == if n == 0 then LocalRun(q, None, ts) else Some(Bucket(w.count + n, w.start))
  {
    if n == 0 {
      more := ts;
    } else {
      var init := Burst(q, ts, t, n - 1, from);
      more := init + [t];
      SameWindow(q, LocalRun(q, None, ts), t, n - 1);
      Snoc(q, init, t, from);
    }
  }

  /** The bound is reached, for every quota: one request at 0, the rest of that window at half
      time, and a full window right after it. */
  lemma LocalBoundIsTight(q: Quota) returns (ts: seq<real>, from: real)
    ensures Ordered(ts) && LocalAllowed(q, None, ts, from) == WorstCase(q)
  {
    if q.limit < 1 || q.window <= 0.0 {
      ts, from := [], 0.0;
    } else {
      from := q.window / 2.0;
      var first := [0.0];
      assert first[..0] == [];
      assert LocalRun(q, None, first) == Some(Bucket(1, 0.0)) && LocalAllowed(q, None, first, from) == 0;
      var second := Burst(q, first, from, q.limit - 1, from);
      ts := Burst(q, second, q.window, q.limit, from);
    }
  }

  // ---------------------------------------------------------------- Redis limiter

  /** `deadline` is set by EXPIRE; at the very deadline the server may or may not still have the key. */
  datatype Counter = Counter(count: int, deadline: real)

  datatype Request = Request(now: real, goneAtDeadline: bool)

  predicate Alive(c: Option<Counter>, r: Request)
  {
    c.Some? && (r.now < c.value.deadline || (r.now == c.value.deadline && !r.goneAtDeadline))
  }

  /** What INCR returns. */
  function Incremented(c: Option<Counter>, r: Request): int
  {
    if Alive(c, r) then c.value.count + 1 else 1
  }

  /** INCR and EXPIRE in one transaction; a non-positive expiry deletes the key. */
  function RedisCheck(q: Quota, c: Option<Counter>, r: Request): Option<Counter>
  {
    if q.window <= 0.0 then None else Some(Counter(Incremented(c, r), r.now + q.window))
  }

  predicate RedisAllows(q: Quota, c: Option<Counter>, r: Request)
  {
    Incremented(c, r) <= q.limit
  }

  function RedisRun(q: Quota, rs: seq<Request>): Option<Counter>
  {
    if rs == [] then None else RedisCheck(q, RedisRun(q, rs[..|rs| - 1]), rs[|rs| - 1])
  }

  function RedisAllowed(q: Quota, rs: seq<Request>, from: real): nat
  {
    if rs == [] then 0
    else
      var n := |rs| - 1;
      RedisAllowed(q, rs[..n], from)
      + if RedisAllows(q, RedisRun(q, rs[..n]), rs[n]) && from <= rs[n].now < from + q.window then 1 else 0
  }

  ghost predicate OrderedRequests(rs: seq<Request>)
  {
    forall i, j | 0 <= i < j < |rs| :: rs[i].now <= rs[j].now
  }

  /** The time of the latest request is the counter's deadline minus the window. */
  ghost predicate RedisInv(q: Quota, c: Option<Counter>, n: nat, from: real)
  {
    && n <= (if q.limit > 0 then q.limit else 0)
    && (c.None? ==> n == 0)
    && (c.Some? ==>
          && c.value.count >= 1
          && (c.value.deadline - q.window < from ==> n == 0)
          && (c.value.deadline - q.window < from + q.window ==> n <= c.value.count))
  }

  lemma {:induction false} RedisRunKeepsInv(q: Quota, rs: seq<Request>, from: real)
    requires OrderedRequests(rs)
    ensures RedisInv(q, RedisRun(q, rs), RedisAllowed(q, rs, from), from)
    ensures RedisRun(q, rs).Some? ==> rs != [] && RedisRun(q, rs).value.deadline == rs[|rs| - 1].now + q.window
  {
    if rs != [] {
      RedisRunKeepsInv(q, rs[..|rs| - 1], from);
    }
  }

  /** At most `limit` requests are allowed in any half-open interval as long as the window. */
  lemma RedisBound(q: Quota, rs: seq<Request>, from: real)
    requires OrderedRequests(rs)
    ensures RedisAllowed(q, rs, from) <= if q.limit > 0 then q.limit else 0
  {
    RedisRunKeepsInv(q, rs, from);
  }

  predicate Soon(q: Quota, a: Request, b: Request)
  {
    a.now <= b.now < a.now + q.window
  }

  /** A client that never pauses for a whole window is allowed its first `limit` requests and nothing
      after them, however long it goes on. */
  lemma {:induction false} BusyClientStarves(q: Quota, rs: seq<Request>, i: nat)
    requires i < |rs| && q.window > 0.0 && forall j | 0 < j < |rs| :: Soon(q, rs[j - 1], rs[j])
    ensures RedisAllows(q, RedisRun(q, rs[..i]), rs[i]) <==> i < q.limit
    ensures RedisRun(q, rs[..i + 1]) == Some(Counter(i + 1, rs[i].now + q.window))
  {
    assert rs[..i + 1][..i] == rs[..i];
    if i > 0 {
      BusyClientStarves(q, rs, i - 1);
      assert Soon(q, rs[i - 1], rs[i]);
    }
  }

  // ---------------------------------------------------------------- pauses

  /** No pause long enough for the counter to expire lies between two requests, one right after the other;
      when the pause is exactly the window, the server decides. */
  predicate Linked(q: Quota, a: Request, b: Request)
  {
    b.now - a.now < q.window || (b.now - a.now == q.window && !b.goneAtDeadline)
  }

  /** The requests before r since the latest such pause. */
  function SincePause(q: Quota, rs: seq<Request>, r: Request): nat
  {
    if rs == [] then 0
    else
      var n := |rs| - 1;
      if Linked(q, rs[n], r) then SincePause(q, rs[..n], rs[n]) + 1 else 0
  }

  /** A request is allowed exactly when fewer than `limit` came before it since the latest pause longer than
      the window, and its number in that row is what is counted. */
  lemma {:induction false} AllowsExactly(q: Quota, rs: seq<Request>, r: Request)
    requires q.window > 0.0
    ensures RedisAllows(q, RedisRun(q, rs), r) <==> SincePause(q, rs, r) < q.limit
    ensures Incremented(RedisRun(q, rs), r) == SincePause(q, rs, r) + 1
  {
    if rs != [] {
      AllowsExactly(q, rs[..|rs| - 1], rs[|rs| - 1]);
    }
  }

  /** After a pause longer than the window, whatever happened before, a request is the first of a new row. */
  lemma PauseForgives(q: Quota, rs: seq<Request>, r: Request)
    requires rs != [] ==> r.now - rs[|rs| - 1].now > q.window
    ensures RedisAllows(q, RedisRun(q, rs), r) <==> q.limit >= 1
    ensures q.limit - Incremented(RedisRun(q, rs), r) == q.limit - 1
  {
    if q.window > 0.0 {
      AllowsExactly(q, rs, r);
    } else {
      DeletedAtOnce(q, rs);
    }
  }

  // ---------------------------------------------------------------- against a sliding window

  /** The requests that a sliding-window limiter has allowed at times in (now - window, now]. */
  function SlidingCount(q: Quota, rs: seq<Request>, now: real): nat
    decreases |rs|, 0
  {
    if rs == [] then 0
    else
      var n := |rs| - 1;
      SlidingCount(q, rs[..n], now)
      + if SlidingAllows(q, rs[..n], rs[n].now) && now - q.window < rs[n].now <= now then 1 else 0
  }

  /** A sliding-window limiter allows a request while fewer than `limit` were allowed in the window before it. */
  predicate SlidingAllows(q: Quota, rs: seq<Request>, now: real)
    decreases |rs|, 1
  {
    SlidingCount(q, rs, now) < q.limit
  }

  ghost predicate Continues(rs: seq<Request>, r: Request)
  {
    OrderedRequests(rs) && (rs != [] ==> rs[|rs| - 1].now <= r.now)
  }

  lemma SlidingSnoc(q: Quota, rs: seq<Request>, r: Request, now: real)
    ensures SlidingCount(q, rs + [r], now) == SlidingCount(q, rs, now)
            + if SlidingAllows(q, rs, r.now) && now - q.window < r.now <= now then 1 else 0
    ensures RedisRun(q, rs + [r]) == RedisCheck(q, RedisRun(q, rs), r)
  {
    assert (rs + [r])[..|rs|] == rs;
  }

  lemma {:induction false} SlidingSeesNothing(q: Quota, rs: seq<Request>, now: real)
    requires q.window <= 0.0
    ensures SlidingCount(q, rs, now) == 0
  {
    if rs != [] {
      SlidingSeesNothing(q, rs[..|rs| - 1], now);
    }
  }

  /** The Redis counter is never behind the sliding count, and is gone only when that is zero. */
  lemma {:induction false} CounterCoversWindow(q: Quota, rs: seq<Request>, now: real)
    requires OrderedRequests(rs) && rs != [] && rs[|rs| - 1].now <= now && q.window > 0.0
    ensures RedisRun(q, rs).Some? && RedisRun(q, rs).value.deadline == rs[|rs| - 1].now + q.window
    ensures RedisRun(q, rs).value.count >= 1
    ensures SlidingCount(q, rs, now) <= if now < rs[|rs| - 1].now + q.window then RedisRun(q, rs).value.count else 0
  {
    var n := |rs| - 1;
    if n > 0 {
      CounterCoversWindow(q, rs[..n], now);
    }
  }

  /** The Redis limiter is never more generous than a sliding window fed with the same requests. */
  lemma RedisIsStricter(q: Quota, rs: seq<Request>, r: Request)
    requires Continues(rs, r) && RedisAllows(q, RedisRun(q, rs), r)
    ensures SlidingAllows(q, rs, r.now)
  {
    if q.window <= 0.0 {
      SlidingSeesNothing(q, rs, r.now);
      DeletedAtOnce(q, rs);
    } else if rs != [] {
      CounterCoversWindow(q, rs, r.now);
    }
  }

  lemma DeletedAtOnce(q: Quota, rs: seq<Request>)
    requires q.window <= 0.0
    ensures RedisRun(q, rs).None?
  {
  }

  lemma OneMoreAtZero(q: Quota, rs: seq<Request>, now: real)
    requires SlidingCount(q, rs, 0.0) < q.limit && q.window > 0.0 && 0.0 <= now
    ensures SlidingCount(q, rs + [Request(0.0, true)], now) == SlidingCount(q, rs, now) + if now < q.window then 1 else 0
    ensures RedisRun(q, rs + [Request(0.0, true)]) == RedisCheck(q, RedisRun(q, rs), Request(0.0, true))
    ensures RedisAllowed(q, rs + [Request(0.0, true)], 0.0)
         == RedisAllowed(q, rs, 0.0) + if RedisAllows(q, RedisRun(q, rs), Request(0.0, true)) then 1 else 0
  {
    SlidingSnoc(q, rs, Request(0.0, true), now);
    assert (rs + [Request(0.0, true)])[..|rs|] == rs;
  }

  /** n requests at time zero are all allowed by both, and a sliding window forgets them a window later. */
  lemma {:induction false} BothAllowBurst(q: Quota, n: nat, soon: real, late: real) returns (rs: seq<Request>)
    requires 1 <= n <= q.limit && 0.0 <= soon < q.window <= late
    ensures |rs| == n && forall i | 0 <= i < n :: rs[i].now == 0.0
    ensures RedisRun(q, rs) == Some(Counter(n, q.window)) && RedisAllowed(q, rs, 0.0) == n
    ensures SlidingCount(q, rs, 0.0) == SlidingCount(q, rs, soon) == n && SlidingCount(q, rs, late) == 0
  {
    var init: seq<Request> := [];
    if n > 1 {
      init := BothAllowBurst(q, n - 1, soon, late);
    }
    OneMoreAtZero(q, init, 0.0);
    OneMoreAtZero(q, init, soon);
    OneMoreAtZero(q, init, late);
    rs := init + [Request(0.0, true)];
  }

  /** The bound of the Redis limiter is reached, for every quota with a positive window. */
  lemma RedisBoundIsTight(q: Quota) returns (rs: seq<Request>, from: real)
    ensures OrderedRequests(rs)
    ensures RedisAllowed(q, rs, from) == if q.limit >= 1 && q.window > 0.0 then q.limit else 0
  {
    from := 0.0;
    if q.limit >= 1 && q.window > 0.0 {
      rs := BothAllowBurst(q, q.limit, 0.0, q.window);
    } else {
      rs := [];
    }
  }

  /** `limit` requests at 0, a denied one at 0.6 windows, and one at 1.2 windows: the sliding window has
      forgotten the first ones, but the denied request has kept the Redis counter alive. */
  lemma DenialsProlongTheBlock(q: Quota) returns (rs: seq<Request>, r: Request)
    requires q.limit >= 1 && q.window > 0.0
    ensures Continues(rs, r) && SlidingAllows(q, rs, r.now) && !RedisAllows(q, RedisRun(q, rs), r)
  {
    var denied := Request(0.6 * q.window, true);
    r := Request(1.2 * q.window, true);
    var burst := BothAllowBurst(q, q.limit, denied.now, r.now);
    SlidingSnoc(q, burst, denied, r.now);
    rs := burst + [denied];
  }

  /** The documented sliding window gives the same verdicts in every run exactly for quotas that never
      allow anything or never deny anything. */
  lemma SlidesExactly(q: Quota)
    ensures q.limit <= 0 || q.window <= 0.0 <==>
            forall rs: seq<Request>, r: Request | Continues(rs, r) ::
              RedisAllows(q, RedisRun(q, rs), r) <==> SlidingAllows(q, rs, r.now)
  {
    if q.limit >= 1 && q.window > 0.0 {
      var rs, r := DenialsProlongTheBlock(q);
    } else {
      forall rs: seq<Request>, r: Request | Continues(rs, r)
        ensures RedisAllows(q, RedisRun(q, rs), r) <==> SlidingAllows(q, rs, r.now)
      {
        if q.window <= 0.0 {
          SlidingSeesNothing(q, rs, r.now);
          DeletedAtOnce(q, rs);
        } else {
          RedisRunKeepsInv(q, rs, r.now);
        }
      }
    }
  }

  // ---------------------------------------------------------------- the classes

  function Lookup<T>(m: map<string, T>, key: string): Option<T>
  {
    if key in m then Some(m[key]) else None
  }

  class LocalRateLimiter {
    var buckets: map<string, Bucket>

    constructor ()
      ensures buckets == map[]
    {
      buckets := map[];
    }

    method Check(q: Quota, key: string, now: real) returns (r: Verdict)
      modifies this
      ensures r == LocalVerdict(q, Lookup(old(buckets), key), now)
      ensures Lookup(buckets, key) == LocalCheck(q, Lookup(old(buckets), key), now)
      ensures forall k | k != key :: Lookup(buckets, k) == Lookup(old(buckets), k)
    {
      var count, start := 0, now;
      if key in buckets {
        count, start := buckets[key].count, buckets[key].start;
      }
      if now - start >= q.window {
        count, start := 0, now;
      }
      if count < q.limit {
        buckets := buckets[key := Bucket(count + 1, start)];
        return Verdict(true, q.limit - count - 1, start + q.window);
      }
      return Verdict(false, 0, start + q.window);
    }

    method Reset(key: string)
      modifies this
      ensures Lookup(buckets, key) == None
      ensures forall k | k != key :: Lookup(buckets, k) == Lookup(old(buckets), k)
    {
      buckets := buckets - {key};
    }
  }

  class RedisRateLimiter {
    var counters: map<string, Counter>

    constructor ()
      ensures counters == map[]
    {
      counters := map[];
    }

    /** `answered` is the clock reading of the answer, which the source reports as the reset time. */
    method Check(q: Quota, key: string, r: Request, answered: real) returns (v: Verdict)
      modifies this
      ensures v.allowed == RedisAllows(q, Lookup(old(counters), key), r)
      ensures v.remaining == if v.allowed then q.limit - Incremented(Lookup(old(counters), key), r) else 0
      ensures v.resetAt == answered
      ensures Lookup(counters, key) == RedisCheck(q, Lookup(old(counters), key), r)
      ensures forall k | k != key :: Lookup(counters, k) == Lookup(old(counters), k)
    {
      var count := (if Alive(Lookup(counters, key), r) then counters[key].count else 0) + 1;
      if q.window <= 0.0 {
        counters := counters - {key};
      } else {
        counters := counters[key := Counter(count, r.now + q.window)];
      }
      v := Verdict(count <= q.limit, if q.limit - count > 0 then q.limit - count else 0, answered);
    }
  }
}
