/** The configuration test is exact: whenever it fails, some request sequence of a single IP tells the
    collecting limiter from one that never evicts. */
module EvictionExact {
  import opened RateLimiter

  /** From the empty limiter `l`, no request sequence is ever answered differently because of eviction. */
  ghost predicate Invisible(cfg: Config, l: Limiter) {
    forall reqs: seq<Request>, i: nat :: Monotone(reqs) && i < |reqs| ==>
      Answer(cfg, l, reqs, i) == OwnAnswer(cfg, reqs, i)
  }

  /** After `reqs`, all from one IP and the last at `t`, the two limiters hold `b` and `o` tokens. */
  ghost predicate Holds(cfg: Config, l: Limiter, reqs: seq<Request>, t: real, b: real, o: real) {
    && Monotone(reqs) && (forall i :: 0 <= i < |reqs| ==> reqs[i].at <= t)
    && Run(cfg, l, reqs).buckets == map["" := Bucket(b, t)] && Run(cfg, l, reqs).lastGC <= t
    && Own(cfg, reqs, "") == Present(Bucket(o, t))
  }

  ghost predicate Differs(cfg: Config, l: Limiter, reqs: seq<Request>, i: nat) {
    Monotone(reqs) && i < |reqs| && Answer(cfg, l, reqs, i) != OwnAnswer(cfg, reqs, i)
  }

  function Capped(cfg: Config, x: real): real { if x > cfg.burst then cfg.burst else x }

  function Spent(x: real): real { if x >= 1.0 then x - 1.0 else x }

  lemma PrefixOfAppend(reqs: seq<Request>, r: Request)
    ensures (reqs + [r])[..|reqs + [r]| - 1] == reqs && (reqs + [r])[..|reqs|] == reqs
  {
  }

  /** One more request no later than the eviction age: both buckets refill and are charged. */
  lemma Wait(cfg: Config, l: Limiter, reqs: seq<Request>, t: real, b: real, o: real, u: real)
    requires cfg.rate > 0.0 && Holds(cfg, l, reqs, t, b, o) && 0.0 <= u - t <= TTL
    ensures Holds(cfg, l, reqs + [Request("", u)], u,
                  Spent(Capped(cfg, b + Refill(cfg, t, u))), Spent(Capped(cfg, o + Refill(cfg, t, u))))
  {
    PrefixOfAppend(reqs, Request("", u));
    var before := Run(cfg, l, reqs);
    assert Collected(before, u).buckets == before.buckets;
  }

  /** Requests at one instant spend whole tokens one by one. */
  lemma {:induction false} Drain(cfg: Config, l: Limiter, reqs: seq<Request>, t: real, b: real, o: real, n: nat)
    returns (more: seq<Request>)
    requires cfg.rate > 0.0 && Holds(cfg, l, reqs, t, b, o)
    requires n as real <= o <= cfg.burst && n as real <= b <= cfg.burst
    ensures Holds(cfg, l, more, t, b - n as real, o - n as real)
  {
    more := reqs;
    for k := 0 to n
      invariant Holds(cfg, l, more, t, b - k as real, o - k as real)
    {
      RefillNow(cfg, t);
      Wait(cfg, l, more, t, b - k as real, o - k as real, t);
      more := more + [Request("", t)];
    }
  }

  /** A request after the eviction age: the collecting limiter starts afresh, the other one refills. */
  lemma Evict(cfg: Config, l: Limiter, reqs: seq<Request>, t: real, b: real, o: real, v: real)
    requires cfg.rate > 0.0 && cfg.burst >= 1.0 && Holds(cfg, l, reqs, t, b, o) && v - t > TTL
    ensures Answer(cfg, l, reqs + [Request("", v)], |reqs|)
    ensures OwnAnswer(cfg, reqs + [Request("", v)], |reqs|) <==> Capped(cfg, o + Refill(cfg, t, v)) >= 1.0
    ensures Holds(cfg, l, reqs + [Request("", v)], v,
                  cfg.burst - 1.0, Spent(Capped(cfg, o + Refill(cfg, t, v))))
  {
    PrefixOfAppend(reqs, Request("", v));
    assert Collected(Run(cfg, l, reqs), v).buckets == map[];
  }

  /** A request that the fuller bucket can serve and the emptier one cannot. */
  lemma Probe(cfg: Config, l: Limiter, reqs: seq<Request>, t: real, b: real, o: real, u: real)
    requires cfg.rate > 0.0 && cfg.burst >= 1.0 && Holds(cfg, l, reqs, t, b, o) && u >= t
    requires b + Refill(cfg, t, u) >= 1.0 && o + Refill(cfg, t, u) < 1.0
    ensures Differs(cfg, l, reqs + [Request("", u)], |reqs|)
  {
    PrefixOfAppend(reqs, Request("", u));
    var g := Collected(Run(cfg, l, reqs), u);
    if "" in g.buckets {
      assert g.buckets[""] == Bucket(b, t);
    }
  }

  /** The time at which a bucket short of one token has refilled exactly to one. */
  function TimeToOne(cfg: Config, t: real, b: real): real
    requires cfg.rate > 0.0
  {
    t + (1.0 - b) / cfg.rate
  }

  lemma RefillsToOne(cfg: Config, t: real, b: real)
    requires cfg.rate > 0.0 && b < 1.0
    ensures TimeToOne(cfg, t, b) > t && b + Refill(cfg, t, TimeToOne(cfg, t, b)) == 1.0
  {
    var d := (1.0 - b) / cfg.rate;
    assert d * cfg.rate == 1.0 - b;
    assert d > 0.0;
    assert TimeToOne(cfg, t, b) - t == d;
    assert cfg.rate * d == 1.0 - b;
  }

  /** The collecting limiter holds more than the other and both are short of one token, or only one is. */
  lemma Tell(cfg: Config, l: Limiter, reqs: seq<Request>, t: real, b: real, o: real)
    returns (all: seq<Request>, i: nat)
    requires cfg.rate > 0.0 && cfg.burst >= 1.0 && Holds(cfg, l, reqs, t, b, o) && o < b && o < 1.0
    ensures Differs(cfg, l, all, i)
  {
    var u := t;
    RefillNow(cfg, t);
    if b < 1.0 {
      RefillsToOne(cfg, t, b);
      u := TimeToOne(cfg, t, b);
    }
    Probe(cfg, l, reqs, t, b, o, u);
    all, i := reqs + [Request("", u)], |reqs|;
  }

  /** With the refill of one eviction age short of a full bucket, waiting just past that age tells the two
      limiters apart. */
  lemma ShortRefill(cfg: Config, l: Limiter, reqs: seq<Request>, t: real, b: real, o: real, v: real)
    returns (all: seq<Request>, i: nat)
    requires cfg.rate > 0.0 && cfg.burst >= 1.0 && Holds(cfg, l, reqs, t, b, o) && o >= 0.0
    requires v - t > TTL && o + Refill(cfg, t, v) < cfg.burst
    ensures Differs(cfg, l, all, i)
  {
    var r := o + Refill(cfg, t, v);
    RefillForward(cfg, t, v);
    Evict(cfg, l, reqs, t, b, o, v);
    var more := reqs + [Request("", v)];
    if r < 1.0 {
      all, i := more, |reqs|;
    } else {
      var n := r.Floor - 1;
      more := Drain(cfg, l, more, v, cfg.burst - 1.0, r - 1.0, n);
      all, i := Tell(cfg, l, more, v, cfg.burst - 1.0 - n as real, r - 1.0 - n as real);
    }
  }

  /** A moment after the eviction age at which `o` tokens have still not refilled to the top. */
  lemma JustAfter(cfg: Config, t: real, o: real) returns (v: real)
    requires cfg.rate > 0.0 && o + cfg.rate * TTL < cfg.burst
    ensures v - t > TTL && o + Refill(cfg, t, v) < cfg.burst
  {
    var gap := cfg.burst - o - cfg.rate * TTL;
    var d := gap / (2.0 * cfg.rate);
    assert d * (2.0 * cfg.rate) == gap;
    assert d > 0.0 && cfg.rate * d == gap / 2.0;
    v := t + (TTL + d);
    assert v - t == TTL + d;
    assert cfg.rate * (TTL + d) == cfg.rate * TTL + cfg.rate * d;
  }

  lemma SmallBurst(cfg: Config, l: Limiter) returns (all: seq<Request>, i: nat)
    requires cfg.rate > 0.0 && cfg.burst < 1.0 && l.buckets == map[]
    ensures Differs(cfg, l, all, i)
  {
    var t := l.lastGC + GC_EVERY;
    var first, second := Request("", t), Request("", t + TTL + 1.0);
    all, i := [first, second], 1;
    assert all[..1] == [first] && [first][..0] == [];
    assert Own(cfg, [first], "").Present? && Level(cfg, Own(cfg, [first], ""), second.at) <= cfg.burst;
    assert Run(cfg, l, [first]) == Next(cfg, l, first);
    assert Collected(Run(cfg, l, [first]), second.at).buckets == map[];
  }

  lemma SlowRefill(cfg: Config, l: Limiter) returns (all: seq<Request>, i: nat)
    requires cfg.rate > 0.0 && cfg.burst >= 1.0 && cfg.rate * TTL < cfg.burst && l.buckets == map[]
    ensures Differs(cfg, l, all, i)
  {
    var t := l.lastGC + GC_EVERY;
    var reqs := [Request("", t)];
    assert reqs[..0] == [];
    assert Run(cfg, l, []) == l && Own(cfg, [], "") == Absent;
    assert Collected(l, t).buckets == map[];
    var n := cfg.burst.Floor - 1;
    reqs := Drain(cfg, l, reqs, t, cfg.burst - 1.0, cfg.burst - 1.0, n);
    var f := cfg.burst - 1.0 - n as real;
    if f + cfg.rate * TTL < cfg.burst {
      var v := JustAfter(cfg, t, f);
      all, i := ShortRefill(cfg, l, reqs, t, f, f, v);
    } else {
      var u := TimeToOne(cfg, t, f);
      RefillsToOne(cfg, t, f);
      WithinAge(cfg, t, f);
      Wait(cfg, l, reqs, t, f, f, u);
      reqs := reqs + [Request("", u)];
      var v := JustAfter(cfg, u, 0.0);
      all, i := ShortRefill(cfg, l, reqs, u, 0.0, 0.0, v);
    }
  }

  lemma WithinAge(cfg: Config, t: real, f: real)
    requires cfg.rate > 0.0 && 0.0 <= f < 1.0 && cfg.rate * TTL >= 1.0
    ensures TimeToOne(cfg, t, f) - t <= TTL
  {
    var d := (1.0 - f) / cfg.rate;
    assert d * cfg.rate == 1.0 - f;
    if d > TTL {
      assert d * cfg.rate > TTL * cfg.rate;
    }
  }

  /** Eviction is invisible on every run exactly when a burst holds a whole token and one eviction age
      refills a whole burst. */
  lemma InvisibleExactly(cfg: Config, l: Limiter)
    requires cfg.rate > 0.0 && l.buckets == map[]
    ensures Invisible(cfg, l) <==> cfg.burst >= 1.0 && cfg.rate * 900.0 >= cfg.burst
  {
    if Sound(cfg) {
      forall reqs: seq<Request>, i: nat | Monotone(reqs) && i < |reqs|
        ensures Answer(cfg, l, reqs, i) == OwnAnswer(cfg, reqs, i)
      {
        EvictionInvisible(cfg, l, reqs, i);
      }
    } else if cfg.burst < 1.0 {
      var all, i := SmallBurst(cfg, l);
    } else {
      var all, i := SlowRefill(cfg, l);
    }
  }
}
