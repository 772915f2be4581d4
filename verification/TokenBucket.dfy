/** `TokenBucket` over exact reals: refill by elapsed time, take if there is enough. */
module TokenBuckets {
  import opened Common

  datatype Config = Config(capacity: real, rate: real)

  datatype Bucket = Bucket(tokens: real, last: real)

  datatype Request = Request(tokens: real, now: real)

  function Min(a: real, b: real): real
  {
    if a <= b then a else b
  }

  /** What flows in between two moments. */
  function Inflow(cfg: Config, from: real, to: real): real
  {
    (to - from) * cfg.rate
  }

  function Refill(cfg: Config, b: Bucket, now: real): Bucket
  {
    Bucket(Min(cfg.capacity, b.tokens + Inflow(cfg, b.last, now)), now)
  }

  predicate Grants(cfg: Config, b: Bucket, r: Request)
  {
    Refill(cfg, b, r.now).tokens >= r.tokens
  }

  function Take(cfg: Config, b: Bucket, r: Request): Bucket
  {
    var full := Refill(cfg, b, r.now);
    if Grants(cfg, b, r) then full.(tokens := full.tokens - r.tokens) else full
  }

  /** Milliseconds to wait; None is infinity. */
  function RetryAfterMs(cfg: Config, b: Bucket, tokens: real): Option<real>
  {
    var needed := tokens - b.tokens;
    if needed <= 0.0 then Some(0.0)
    else if cfg.rate <= 0.0 then None
    else Some(needed / cfg.rate * 1000.0)
  }

  function Run(cfg: Config, start: real, rs: seq<Request>): Bucket
  {
    if rs == [] then Bucket(cfg.capacity, start)
    else Take(cfg, Run(cfg, start, rs[..|rs| - 1]), rs[|rs| - 1])
  }

  /** Every request asks for at least `least`, under a clock that never goes back. */
  ghost predicate AsksAtLeast(least: real, start: real, rs: seq<Request>)
  {
    && (forall i | 0 <= i < |rs| :: rs[i].tokens >= least && start <= rs[i].now)
    && (forall i, j | 0 <= i < j < |rs| :: rs[i].now <= rs[j].now)
  }

  /** No request asks for a negative amount. */
  ghost predicate Proper(start: real, rs: seq<Request>)
  {
    AsksAtLeast(0.0, start, rs)
  }

  /** The tokens granted at times in [from, to]. */
  function Granted(cfg: Config, start: real, rs: seq<Request>, from: real, to: real): real
  {
    if rs == [] then 0.0
    else
      var init, r := rs[..|rs| - 1], rs[|rs| - 1];
      Granted(cfg, start, init, from, to)
      + if from <= r.now <= to && Grants(cfg, Run(cfg, start, init), r) then r.tokens else 0.0
  }

  // ---------------------------------------------------------------- bounds in every run

  lemma InflowNonneg(cfg: Config, from: real, to: real)
    requires cfg.rate >= 0.0 && from <= to
    ensures Inflow(cfg, from, to) >= 0.0
  {
    Product(to - from, cfg.rate);
  }

  lemma InflowAdds(cfg: Config, from: real, mid: real, to: real)
    ensures Inflow(cfg, from, mid) + Inflow(cfg, mid, to) == Inflow(cfg, from, to)
  {
    Distribute(mid - from, to - mid, cfg.rate);
  }

  lemma Product(x: real, y: real)
    requires x >= 0.0 && y >= 0.0
    ensures x * y >= 0.0
  {
  }

  lemma Positive(x: real, y: real)
    requires x > 0.0 && y > 0.0
    ensures x * y > 0.0
  {
  }

  lemma Distribute(x: real, y: real, c: real)
    ensures x * c + y * c == (x + y) * c
  {
  }

  lemma LastIsLatest(cfg: Config, start: real, rs: seq<Request>)
    ensures Run(cfg, start, rs).last == if rs == [] then start else rs[|rs| - 1].now
  {
  }

  lemma TakeKeepsBounds(cfg: Config, b: Bucket, r: Request)
    requires cfg.rate >= 0.0 && 0.0 <= b.tokens <= cfg.capacity && b.last <= r.now && r.tokens >= 0.0
    ensures 0.0 <= Take(cfg, b, r).tokens <= cfg.capacity
  {
    InflowNonneg(cfg, b.last, r.now);
  }

  /** Tokens stay within [0, capacity] in every run. */
  lemma {:induction false} TokensStayInBounds(cfg: Config, start: real, rs: seq<Request>)
    requires cfg.capacity >= 0.0 && cfg.rate >= 0.0 && Proper(start, rs)
    ensures 0.0 <= Run(cfg, start, rs).tokens <= cfg.capacity
  {
    if rs != [] {
      var init, r := rs[..|rs| - 1], rs[|rs| - 1];
      TokensStayInBounds(cfg, start, init);
      LastIsLatest(cfg, start, init);
      TakeKeepsBounds(cfg, Run(cfg, start, init), r);
    }
  }

  /** With a negative rate a refused request is enough: what is refused does not matter. */
  lemma DrainsBelowZero(cfg: Config, least: real)
    requires cfg.capacity >= 0.0 && cfg.rate < 0.0 && least >= 0.0
    ensures var d := (cfg.capacity + 1.0) / -cfg.rate;
            && AsksAtLeast(least, 0.0, [Request(least, d)])
            && Run(cfg, 0.0, [Request(least, d)]).tokens == -1.0
  {
    var d := (cfg.capacity + 1.0) / -cfg.rate;
    assert d * -cfg.rate == cfg.capacity + 1.0;
    Product(cfg.capacity + 1.0, 1.0 / -cfg.rate);
    assert Run(cfg, 0.0, []) == Bucket(cfg.capacity, 0.0);
    assert [Request(least, d)][..0] == [];
  }

  lemma NegativeRequestOverfills(cfg: Config, least: real)
    requires cfg.capacity >= 0.0 && least < 0.0
    ensures Run(cfg, 0.0, [Request(least, 0.0)]).tokens == cfg.capacity - least
  {
    assert [Request(least, 0.0)][..0] == [];
    assert Run(cfg, 0.0, []) == Bucket(cfg.capacity, 0.0);
    assert Inflow(cfg, 0.0, 0.0) == 0.0;
  }

  /** The bounds hold in every run exactly when capacity, rate and requests cannot be negative. */
  lemma BoundsExactly(cfg: Config, least: real)
    ensures cfg.capacity >= 0.0 && cfg.rate >= 0.0 && least >= 0.0 <==>
            forall start: real, rs: seq<Request> | AsksAtLeast(least, start, rs) ::
              0.0 <= Run(cfg, start, rs).tokens <= cfg.capacity
  {
    if cfg.capacity < 0.0 {
      assert AsksAtLeast(least, 0.0, []) && Run(cfg, 0.0, []).tokens < 0.0;
    } else if least < 0.0 {
      NegativeRequestOverfills(cfg, least);
      assert AsksAtLeast(least, 0.0, [Request(least, 0.0)]);
    } else if cfg.rate < 0.0 {
      DrainsBelowZero(cfg, least);
    } else {
      forall start: real, rs: seq<Request> | AsksAtLeast(least, start, rs)
        ensures 0.0 <= Run(cfg, start, rs).tokens <= cfg.capacity
      {
        TokensStayInBounds(cfg, start, rs);
      }
    }
  }

  /** What has been granted since `from`, plus what is left, is paid for by capacity and inflow. */
  ghost predicate Paid(cfg: Config, b: Bucket, granted: real, from: real, to: real)
  {
    && (b.last < from ==> granted == 0.0)
    && (from <= b.last <= to ==> granted + b.tokens <= cfg.capacity + Inflow(cfg, from, b.last))
    && (b.last > to ==> granted <= cfg.capacity + Inflow(cfg, from, to))
  }

  lemma TakeKeepsPaid(cfg: Config, b: Bucket, r: Request, granted: real, from: real, to: real)
    requires cfg.capacity >= 0.0 && cfg.rate >= 0.0 && from <= to && 0.0 <= b.tokens <= cfg.capacity
    requires b.last <= r.now && r.tokens >= 0.0 && Paid(cfg, b, granted, from, to)
    ensures Paid(cfg, Take(cfg, b, r), granted + if from <= r.now <= to && Grants(cfg, b, r) then r.tokens else 0.0,
                 from, to)
  {
    if b.last < from {
      if from <= r.now <= to {
        InflowNonneg(cfg, from, r.now);
      } else if to < r.now {
        InflowNonneg(cfg, from, to);
      }
    } else if b.last <= to {
      InflowAdds(cfg, from, b.last, r.now);
      if to < r.now {
        InflowAdds(cfg, from, b.last, to);
        InflowNonneg(cfg, b.last, to);
      }
    }
  }

  lemma PaidAtStart(cfg: Config, start: real, from: real, to: real)
    requires cfg.capacity >= 0.0 && cfg.rate >= 0.0 && from <= to
    ensures Paid(cfg, Bucket(cfg.capacity, start), 0.0, from, to)
  {
    InflowNonneg(cfg, from, to);
    if from <= start {
      InflowNonneg(cfg, from, start);
    }
  }

  lemma {:induction false} RunKeepsPaid(cfg: Config, start: real, rs: seq<Request>, from: real, to: real)
    requires cfg.capacity >= 0.0 && cfg.rate >= 0.0 && Proper(start, rs) && from <= to
    ensures Paid(cfg, Run(cfg, start, rs), Granted(cfg, start, rs, from, to), from, to)
  {
    if rs == [] {
      PaidAtStart(cfg, start, from, to);
    } else {
      var init, r := rs[..|rs| - 1], rs[|rs| - 1];
      RunKeepsPaid(cfg, start, init, from, to);
      TokensStayInBounds(cfg, start, init);
      LastIsLatest(cfg, start, init);
      TakeKeepsPaid(cfg, Run(cfg, start, init), r, Granted(cfg, start, init, from, to), from, to);
    }
  }

  lemma PaidIsBounded(cfg: Config, b: Bucket, granted: real, from: real, to: real)
    requires cfg.capacity >= 0.0 && cfg.rate >= 0.0 && from <= to && b.tokens >= 0.0 && Paid(cfg, b, granted, from, to)
    ensures granted <= cfg.capacity + Inflow(cfg, from, to)
  {
    InflowNonneg(cfg, from, to);
    if from <= b.last <= to {
      InflowNonneg(cfg, b.last, to);
      InflowAdds(cfg, from, b.last, to);
    }
  }

  /** In any interval of length d at most capacity + d * rate tokens are granted. */
  lemma RateIsBounded(cfg: Config, start: real, rs: seq<Request>, from: real, to: real)
    requires cfg.capacity >= 0.0 && cfg.rate >= 0.0 && Proper(start, rs) && from <= to
    ensures Granted(cfg, start, rs, from, to) <= cfg.capacity + Inflow(cfg, from, to)
  {
    RunKeepsPaid(cfg, start, rs, from, to);
    TokensStayInBounds(cfg, start, rs);
    PaidIsBounded(cfg, Run(cfg, start, rs), Granted(cfg, start, rs, from, to), from, to);
  }

  // ---------------------------------------------------------------- which demands are met

  function Sum(rs: seq<Request>): real
  {
    if rs == [] then 0.0 else Sum(rs[..|rs| - 1]) + rs[|rs| - 1].tokens
  }

  ghost predicate AllGranted(cfg: Config, start: real, rs: seq<Request>)
  {
    forall j | 0 <= j < |rs| :: Grants(cfg, Run(cfg, start, rs[..j]), rs[j])
  }

  /** Between any two requests, both included, no more is asked for than capacity and inflow can pay. */
  ghost predicate Conforms(cfg: Config, rs: seq<Request>)
  {
    forall i, j | 0 <= i < j <= |rs| :: Sum(rs[i..j]) <= cfg.capacity + Inflow(cfg, rs[i].now, rs[j - 1].now)
  }

  /** What capacity and inflow leave of the demand since request i. */
  function Slack(cfg: Config, rs: seq<Request>, i: nat): real
    requires i < |rs|
  {
    cfg.capacity + Inflow(cfg, rs[i].now, rs[|rs| - 1].now) - Sum(rs[i..])
  }

  lemma SumSnoc(rs: seq<Request>, r: Request)
    ensures Sum(rs + [r]) == Sum(rs) + r.tokens
  {
    assert (rs + [r])[..|rs|] == rs;
  }

  lemma SlackSnoc(cfg: Config, rs: seq<Request>, r: Request, i: nat)
    requires i <= |rs|
    ensures Slack(cfg, rs + [r], i)
         == if i == |rs| then cfg.capacity - r.tokens
            else Slack(cfg, rs, i) + Inflow(cfg, rs[|rs| - 1].now, r.now) - r.tokens
  {
    if i == |rs| {
      assert (rs + [r])[i..] == [] + [r];
      SumSnoc([], r);
    } else {
      assert (rs + [r])[i..] == rs[i..] + [r];
      SumSnoc(rs[i..], r);
      InflowAdds(cfg, rs[i].now, rs[|rs| - 1].now, r.now);
    }
  }

  /** The least slack, which a bucket that granted everything would have left after the next request. */
  ghost predicate IsLeastSlack(cfg: Config, rs: seq<Request>, left: real)
  {
    && (forall i | 0 <= i < |rs| :: left <= Slack(cfg, rs, i))
    && (exists i | 0 <= i < |rs| :: left == Slack(cfg, rs, i))
  }

  /** After the requests, all granted, the bucket holds exactly their least slack. */
  ghost predicate Tight(cfg: Config, rs: seq<Request>, b: Bucket)
  {
    rs != [] && b.last == rs[|rs| - 1].now && IsLeastSlack(cfg, rs, b.tokens)
  }

  lemma FirstLeavesSlack(cfg: Config, start: real, r: Request)
    requires cfg.rate >= 0.0 && start <= r.now
    ensures IsLeastSlack(cfg, [] + [r], Refill(cfg, Bucket(cfg.capacity, start), r.now).tokens - r.tokens)
  {
    InflowNonneg(cfg, start, r.now);
    SlackSnoc(cfg, [], r, 0);
  }

  lemma NextLeavesSlack(cfg: Config, b: Bucket, rs: seq<Request>, r: Request)
    requires Tight(cfg, rs, b)
    ensures IsLeastSlack(cfg, rs + [r], Refill(cfg, b, r.now).tokens - r.tokens)
  {
    var left := Refill(cfg, b, r.now).tokens - r.tokens;
    forall i | 0 <= i <= |rs| ensures left <= Slack(cfg, rs + [r], i) {
      SlackSnoc(cfg, rs, r, i);
    }
    var m :| 0 <= m < |rs| && b.tokens == Slack(cfg, rs, m);
    SlackSnoc(cfg, rs, r, m);
    SlackSnoc(cfg, rs, r, |rs|);
    assert left == Slack(cfg, rs + [r], m) || left == Slack(cfg, rs + [r], |rs|);
  }

  /** What the next request does to the slack: it is granted exactly if none becomes negative. */
  ghost predicate Decides(cfg: Config, b: Bucket, rs: seq<Request>, r: Request)
  {
    && (Grants(cfg, b, r) <==> forall i | 0 <= i <= |rs| :: Slack(cfg, rs + [r], i) >= 0.0)
    && (Grants(cfg, b, r) ==> Tight(cfg, rs + [r], Take(cfg, b, r)))
  }

  lemma LeastSlackDecides(cfg: Config, b: Bucket, rs: seq<Request>, r: Request, left: real)
    requires left == Refill(cfg, b, r.now).tokens - r.tokens && IsLeastSlack(cfg, rs + [r], left)
    ensures Decides(cfg, b, rs, r)
  {
    var m :| 0 <= m < |rs + [r]| && left == Slack(cfg, rs + [r], m);
    assert Grants(cfg, b, r) <==> left >= 0.0;
  }

  lemma FirstDecides(cfg: Config, start: real, r: Request)
    requires cfg.rate >= 0.0 && start <= r.now
    ensures Decides(cfg, Bucket(cfg.capacity, start), [], r)
  {
    var b := Bucket(cfg.capacity, start);
    FirstLeavesSlack(cfg, start, r);
    LeastSlackDecides(cfg, b, [], r, Refill(cfg, b, r.now).tokens - r.tokens);
  }

  lemma NextDecides(cfg: Config, b: Bucket, rs: seq<Request>, r: Request)
    requires Tight(cfg, rs, b)
    ensures Decides(cfg, b, rs, r)
  {
    NextLeavesSlack(cfg, b, rs, r);
    LeastSlackDecides(cfg, b, rs, r, Refill(cfg, b, r.now).tokens - r.tokens);
  }

  lemma GrantedPrefix(cfg: Config, start: real, rs: seq<Request>, r: Request)
    ensures AllGranted(cfg, start, rs + [r]) <==> AllGranted(cfg, start, rs) && Grants(cfg, Run(cfg, start, rs), r)
  {
    var all := rs + [r];
    assert all[..|rs|] == rs && all[|rs|] == r;
    assert forall j | 0 <= j < |rs| :: all[..j] == rs[..j] && all[j] == rs[j];
    if AllGranted(cfg, start, all) {
      forall j | 0 <= j < |rs| ensures Grants(cfg, Run(cfg, start, rs[..j]), rs[j]) {
        assert Grants(cfg, Run(cfg, start, all[..j]), all[j]);
      }
      assert Grants(cfg, Run(cfg, start, all[..|rs|]), all[|rs|]);
    }
  }

  lemma ProperPrefix(start: real, rs: seq<Request>, r: Request)
    requires Proper(start, rs + [r])
    ensures Proper(start, rs)
  {
    var all := rs + [r];
    assert forall i | 0 <= i < |rs| :: all[i] == rs[i];
    assert forall i, j | 0 <= i < j < |rs| :: all[i].now <= all[j].now;
  }

  lemma ConformsPrefix(cfg: Config, rs: seq<Request>, r: Request)
    ensures Conforms(cfg, rs + [r]) <==> Conforms(cfg, rs) && forall i | 0 <= i <= |rs| :: Slack(cfg, rs + [r], i) >= 0.0
  {
    var all := rs + [r];
    assert forall i, j | 0 <= i < j <= |rs| :: all[i..j] == rs[i..j] && all[i] == rs[i] && all[j - 1] == rs[j - 1];
    assert forall i | 0 <= i <= |rs| :: all[i..|all|] == all[i..];
    if Conforms(cfg, all) {
      forall i, j | 0 <= i < j <= |rs| ensures Sum(rs[i..j]) <= cfg.capacity + Inflow(cfg, rs[i].now, rs[j - 1].now) {
        assert Sum(all[i..j]) <= cfg.capacity + Inflow(cfg, all[i].now, all[j - 1].now);
      }
      forall i | 0 <= i <= |rs| ensures Slack(cfg, all, i) >= 0.0 {
        assert Sum(all[i..|all|]) <= cfg.capacity + Inflow(cfg, all[i].now, all[|all| - 1].now);
      }
    }
    if Conforms(cfg, rs) && forall i | 0 <= i <= |rs| :: Slack(cfg, all, i) >= 0.0 {
      forall i, j | 0 <= i < j <= |all| ensures Sum(all[i..j]) <= cfg.capacity + Inflow(cfg, all[i].now, all[j - 1].now) {
        if j == |all| {
          assert Slack(cfg, all, i) >= 0.0;
        } else {
          assert Sum(rs[i..j]) <= cfg.capacity + Inflow(cfg, rs[i].now, rs[j - 1].now);
        }
      }
    }
  }

  lemma RunSnoc(cfg: Config, start: real, rs: seq<Request>, r: Request)
    ensures Run(cfg, start, rs + [r]) == Take(cfg, Run(cfg, start, rs), r)
  {
    assert (rs + [r])[..|rs|] == rs;
  }

  /** As long as everything is granted the bucket decides by the least slack. */
  lemma {:induction false} RunDecides(cfg: Config, start: real, rs: seq<Request>, r: Request)
    requires cfg.rate >= 0.0 && Proper(start, rs + [r]) && AllGranted(cfg, start, rs)
    ensures Decides(cfg, Run(cfg, start, rs), rs, r)
  {
    if rs == [] {
      assert (rs + [r])[0] == r;
      FirstDecides(cfg, start, r);
    } else {
      var n := |rs| - 1;
      var init, last := rs[..n], rs[n];
      assert rs == init + [last];
      ProperPrefix(start, rs, r);
      GrantedPrefix(cfg, start, init, last);
      RunDecides(cfg, start, init, last);
      RunSnoc(cfg, start, init, last);
      NextDecides(cfg, Run(cfg, start, rs), rs, r);
    }
  }

  /** Everything is granted exactly if the demand conforms: the bound on what is granted is also a promise. */
  lemma {:induction false} GrantsExactlyWhatConforms(cfg: Config, start: real, rs: seq<Request>)
    requires cfg.rate >= 0.0 && Proper(start, rs)
    ensures AllGranted(cfg, start, rs) <==> Conforms(cfg, rs)
  {
    if rs != [] {
      var n := |rs| - 1;
      var init, r := rs[..n], rs[n];
      assert rs == init + [r];
      ProperPrefix(start, init, r);
      GrantsExactlyWhatConforms(cfg, start, init);
      GrantedPrefix(cfg, start, init, r);
      ConformsPrefix(cfg, init, r);
      if AllGranted(cfg, start, init) {
        RunDecides(cfg, start, init, r);
      }
    }
  }

  // ---------------------------------------------------------------- retrying

  lemma Quotient(needed: real, rate: real, elapsed: real)
    requires rate > 0.0
    ensures elapsed * rate >= needed <==> elapsed >= needed / rate
  {
    var q := needed / rate;
    assert q * rate == needed;
    if elapsed >= q {
      Product(elapsed - q, rate);
    } else {
      Positive(q - elapsed, rate);
    }
  }

  lemma NoInflow(cfg: Config, from: real, to: real)
    requires cfg.rate <= 0.0 && from <= to
    ensures Inflow(cfg, from, to) <= 0.0
  {
    Product(to - from, -cfg.rate);
    assert (to - from) * cfg.rate == -((to - from) * -cfg.rate);
  }

  /** After a refusal, a retry of the same size succeeds exactly when `retry_after_ms` has elapsed
      and the size does not exceed the capacity. */
  lemma RetryIsExact(cfg: Config, b: Bucket, r: Request, later: real)
    requires !Grants(cfg, b, r) && r.now <= later
    ensures var refused := Take(cfg, b, r);
            Grants(cfg, refused, Request(r.tokens, later)) <==>
              && r.tokens <= cfg.capacity
              && RetryAfterMs(cfg, refused, r.tokens).Some?
              && (later - r.now) * 1000.0 >= RetryAfterMs(cfg, refused, r.tokens).value
  {
    var refused := Take(cfg, b, r);
    if cfg.rate <= 0.0 {
      NoInflow(cfg, r.now, later);
    } else {
      Quotient(r.tokens - refused.tokens, cfg.rate, later - r.now);
    }
  }

  /** Looking at the bucket in between changes nothing: two refills are one. */
  lemma RefillTwice(cfg: Config, b: Bucket, t: real, u: real)
    requires cfg.rate >= 0.0 && b.last <= t <= u
    ensures Refill(cfg, Refill(cfg, b, t), u) == Refill(cfg, b, u)
  {
    InflowAdds(cfg, b.last, t, u);
    InflowNonneg(cfg, t, u);
  }

  /** A refused attempt of any size neither helps nor delays a later one. */
  lemma RefusalsAreFree(cfg: Config, b: Bucket, refused: Request, r: Request)
    requires cfg.rate >= 0.0 && b.last <= refused.now <= r.now && !Grants(cfg, b, refused)
    ensures Take(cfg, Take(cfg, b, refused), r) == Take(cfg, b, r)
    ensures Grants(cfg, Take(cfg, b, refused), r) <==> Grants(cfg, b, r)
  {
    RefillTwice(cfg, b, refused.now, r.now);
  }

  class TokenBucket {
    const cfg: Config
    var tokens: real
    var lastRefill: real

    function Value(): Bucket
      reads this
    {
      Bucket(tokens, lastRefill)
    }

    constructor (capacity: real, rate: real, now: real)
      ensures cfg == Config(capacity, rate) && Value() == Bucket(capacity, now)
    {
      cfg := Config(capacity, rate);
      tokens, lastRefill := capacity, now;
    }

    method Acquire(amount: real, now: real) returns (granted: bool)
      modifies this
      ensures Value() == Take(cfg, old(Value()), Request(amount, now))
      ensures granted == Grants(cfg, old(Value()), Request(amount, now))
    {
      var elapsed := now - lastRefill;
      var refilled := tokens + elapsed * cfg.rate;
      tokens := if refilled < cfg.capacity then refilled else cfg.capacity;
      lastRefill := now;
      assert Value() == Refill(cfg, old(Value()), now);
      granted := tokens >= amount;
      if granted {
        tokens := tokens - amount;
      }
    }
  }
}
