/** The per-IP token bucket with garbage collection, against a reference that never forgets a bucket.
    Times are seconds and, like tokens, real numbers. */
module RateLimiter {
  const TTL: real := 900.0       // a bucket untouched for longer than this may be evicted
  const GC_EVERY: real := 300.0  // least time between two collections

  datatype Config = Config(rate: real, burst: real)

  datatype Bucket = Bucket(tokens: real, last: real)

  datatype Lookup = Absent | Present(bucket: Bucket)

  datatype Limiter = Limiter(buckets: map<string, Bucket>, lastGC: real)

  datatype Request = Request(ip: string, at: real)

  function Find(m: map<string, Bucket>, ip: string): Lookup {
    if ip in m then Present(m[ip]) else Absent
  }

  // ----- One bucket -----

  function Refill(cfg: Config, t: real, u: real): real { cfg.rate * (u - t) }

  /** Tokens on hand at `now`, refill included. An unknown IP has a full bucket. */
  function Level(cfg: Config, b: Lookup, now: real): real {
    match b
    case Absent => cfg.burst
    case Present(b) =>
      var t := b.tokens + Refill(cfg, b.last, now);
      if t > cfg.burst then cfg.burst else t
  }

  /** The first request of an IP always passes; later ones need a whole token. */
  function Granted(cfg: Config, b: Lookup, now: real): bool {
    b.Absent? || Level(cfg, b, now) >= 1.0
  }

  function Charged(cfg: Config, b: Lookup, now: real): Bucket {
    Bucket(Level(cfg, b, now) - (if Granted(cfg, b, now) then 1.0 else 0.0), now)
  }

  // ----- The limiter -----

  function Collected(l: Limiter, now: real): Limiter {
    if now - l.lastGC >= GC_EVERY
    then Limiter(map k | k in l.buckets && !(now - l.buckets[k].last > TTL) :: l.buckets[k], now)
    else l
  }

  function Allowed(cfg: Config, l: Limiter, r: Request): bool {
    cfg.rate <= 0.0 || Granted(cfg, Find(Collected(l, r.at).buckets, r.ip), r.at)
  }

  function Next(cfg: Config, l: Limiter, r: Request): Limiter {
    if cfg.rate <= 0.0 then l
    else
      var g := Collected(l, r.at);
      g.(buckets := g.buckets[r.ip := Charged(cfg, Find(g.buckets, r.ip), r.at)])
  }

  class IpLimiter {
    var buckets: map<string, Bucket>
    var lastGC: real
    const cfg: Config

    ghost function View(): Limiter
      reads this
    {
      Limiter(buckets, lastGC)
    }

    constructor (ratePerSec: real, burst: real, zeroTime: real)
      ensures cfg == Config(ratePerSec, burst) && View() == Limiter(map[], zeroTime)
    {
      cfg := Config(ratePerSec, burst);
      buckets, lastGC := map[], zeroTime;
    }

    method Allow(ip: string, now: real) returns (ok: bool)
      modifies this
      ensures ok == Allowed(cfg, old(View()), Request(ip, now))
      ensures View() == Next(cfg, old(View()), Request(ip, now))
    {
      if cfg.rate <= 0.0 {
        return true;
      }
      if now - lastGC >= GC_EVERY {
        Evict(now);
        lastGC := now;
      }
      assert View() == Collected(old(View()), now);
      ghost var found := Find(buckets, ip);
      if ip !in buckets {
        buckets := buckets[ip := Bucket(cfg.burst - 1.0, now)];
        return true;
      }
      var b := buckets[ip];
      var elapsed := now - b.last;
      assert elapsed * cfg.rate == Refill(cfg, b.last, now);
      var tokens := b.tokens + elapsed * cfg.rate;
      if tokens > cfg.burst {
        tokens := cfg.burst;
      }
      assert tokens == Level(cfg, found, now);
      ok := tokens >= 1.0;
      if ok {
        tokens := tokens - 1.0;
      }
      buckets := buckets[ip := Bucket(tokens, now)];
    }

    /** Deletes stale buckets while ranging over the map, in whatever order the keys come. */
    method Evict(now: real)
      modifies this`buckets
      ensures buckets == map k | k in old(buckets) && !(now - old(buckets)[k].last > TTL) :: old(buckets)[k]
    {
      ghost var before := buckets;
      var keys := buckets.Keys;
      while keys != {}
        invariant keys <= before.Keys
        invariant buckets == map k | k in before && (k in keys || !(now - before[k].last > TTL)) :: before[k]
        decreases keys
      {
        var k :| k in keys;
        keys := keys - {k};
        if now - buckets[k].last > TTL {
          buckets := buckets - {k};
        }
      }
    }
  }

  // ----- Runs -----

  function Run(cfg: Config, l: Limiter, reqs: seq<Request>): Limiter {
    if reqs == [] then l
    else Next(cfg, Run(cfg, l, reqs[..|reqs| - 1]), reqs[|reqs| - 1])
  }

  /** The answer to request `i` of the run. */
  function Answer(cfg: Config, l: Limiter, reqs: seq<Request>, i: nat): bool
    requires i < |reqs|
  {
    Allowed(cfg, Run(cfg, l, reqs[..i]), reqs[i])
  }

  ghost predicate Monotone(reqs: seq<Request>) {
    forall i, j :: 0 <= i < j < |reqs| ==> reqs[i].at <= reqs[j].at
  }

  /** The bucket of `ip` in a limiter that never evicts. It depends on the requests of `ip` only. */
  function Own(cfg: Config, reqs: seq<Request>, ip: string): Lookup {
    if reqs == [] then Absent
    else
      var before, r := Own(cfg, reqs[..|reqs| - 1], ip), reqs[|reqs| - 1];
      if r.ip == ip then Present(Charged(cfg, before, r.at)) else before
  }

  function OwnAnswer(cfg: Config, reqs: seq<Request>, i: nat): bool
    requires i < |reqs|
  {
    Granted(cfg, Own(cfg, reqs[..i], reqs[i].ip), reqs[i].at)
  }

  function Filtered(reqs: seq<Request>, ip: string): seq<Request> {
    if reqs == [] then []
    else
      var r := reqs[|reqs| - 1];
      Filtered(reqs[..|reqs| - 1], ip) + if r.ip == ip then [r] else []
  }

  /** Deleting every other IP's requests does not change an IP's bucket, hence not its answers. */
  lemma {:induction false} OwnIsLocal(cfg: Config, reqs: seq<Request>, ip: string)
    ensures Own(cfg, reqs, ip) == Own(cfg, Filtered(reqs, ip), ip)
  {
    if reqs != [] {
      var init, r := reqs[..|reqs| - 1], reqs[|reqs| - 1];
      OwnIsLocal(cfg, init, ip);
      if r.ip == ip {
        assert Filtered(reqs, ip)[..|Filtered(reqs, ip)| - 1] == Filtered(init, ip);
      } else {
        assert Filtered(reqs, ip) == Filtered(init, ip);
      }
    }
  }

  // ----- Eviction is invisible -----

  predicate Sound(cfg: Config) { cfg.burst >= 1.0 && cfg.rate * TTL >= cfg.burst }

  /** A remembered bucket is between empty and full and was last touched by some request so far. */
  ghost predicate Plausible(cfg: Config, b: Lookup, now: real) {
    b.Present? ==> 0.0 <= b.bucket.tokens <= cfg.burst && b.bucket.last <= now
  }

  lemma {:induction false} OwnPlausible(cfg: Config, reqs: seq<Request>, ip: string, now: real)
    requires cfg.rate > 0.0 && cfg.burst >= 1.0 && Monotone(reqs)
    requires forall i :: 0 <= i < |reqs| ==> reqs[i].at <= now
    ensures Plausible(cfg, Own(cfg, reqs, ip), now)
  {
    if reqs != [] {
      var r := reqs[|reqs| - 1];
      OwnPlausible(cfg, reqs[..|reqs| - 1], ip, r.at);
      RefillNonNegative(cfg, Own(cfg, reqs[..|reqs| - 1], ip), r.at);
    }
  }

  lemma RefillNonNegative(cfg: Config, b: Lookup, now: real)
    requires cfg.rate > 0.0 && cfg.burst >= 1.0 && Plausible(cfg, b, now)
    ensures 0.0 <= Level(cfg, b, now) <= cfg.burst
  {
    hide Refill;
    if b.Present? {
      RefillForward(cfg, b.bucket.last, now);
    }
  }

  lemma NonNegativeProduct(x: real, y: real)
    requires x >= 0.0 && y >= 0.0
    ensures x * y >= 0.0
  {
  }

  lemma RefillForward(cfg: Config, t: real, u: real)
    requires cfg.rate > 0.0 && t <= u
    ensures Refill(cfg, t, u) >= 0.0
  {
    var d := u - t;
    NonNegativeProduct(cfg.rate, d);
    assert Refill(cfg, t, u) == cfg.rate * d;
  }

  /** The collected limiter and the one that never forgets either hold the same bucket, or the former has
      dropped one that a refill would have filled up by now. */
  ghost predicate Alike(cfg: Config, real_: Lookup, own: Lookup, now: real) {
    real_ == own || (real_.Absent? && own.Present? && now - own.bucket.last > TTL)
  }

  lemma AlikeAnswers(cfg: Config, real_: Lookup, own: Lookup, now: real)
    requires cfg.rate > 0.0 && Sound(cfg) && Plausible(cfg, own, now) && Alike(cfg, real_, own, now)
    ensures Granted(cfg, real_, now) == Granted(cfg, own, now)
    ensures Charged(cfg, real_, now) == Charged(cfg, own, now)
  {
    if real_ != own {
      assert Refill(cfg, own.bucket.last, now) >= cfg.rate * TTL;
    }
  }

  lemma {:induction false} RunAlike(cfg: Config, l: Limiter, reqs: seq<Request>, ip: string, now: real)
    requires cfg.rate > 0.0 && Sound(cfg) && Monotone(reqs) && l.buckets == map[]
    requires forall i :: 0 <= i < |reqs| ==> reqs[i].at <= now
    ensures Alike(cfg, Find(Run(cfg, l, reqs).buckets, ip), Own(cfg, reqs, ip), now)
  {
    if reqs != [] {
      var init, r := reqs[..|reqs| - 1], reqs[|reqs| - 1];
      RunAlike(cfg, l, init, ip, r.at);
      if r.ip == ip {
        OwnPlausible(cfg, init, ip, r.at);
        AlikeAnswers(cfg, Find(Collected(Run(cfg, l, init), r.at).buckets, ip), Own(cfg, init, ip), r.at);
      }
    }
  }

  /** Every answer of the collecting limiter is the answer of one that never evicts, which depends only on
      that IP's own requests. */
  lemma EvictionInvisible(cfg: Config, l: Limiter, reqs: seq<Request>, i: nat)
    requires cfg.rate > 0.0 && Sound(cfg) && Monotone(reqs) && l.buckets == map[] && i < |reqs|
    ensures Answer(cfg, l, reqs, i) == OwnAnswer(cfg, reqs, i)
  {
    var r := reqs[i];
    RunAlike(cfg, l, reqs[..i], r.ip, r.at);
    OwnPlausible(cfg, reqs[..i], r.ip, r.at);
    AlikeAnswers(cfg, Find(Collected(Run(cfg, l, reqs[..i]), r.at).buckets, r.ip),
                 Own(cfg, reqs[..i], r.ip), r.at);
  }

  // ----- Admission bound -----

  /** How many requests of `ip` among `reqs[i..j]` pass. */
  function Admitted(cfg: Config, l: Limiter, reqs: seq<Request>, ip: string, i: nat, j: nat): nat
    requires i <= j <= |reqs|
  {
    if i == j then 0
    else Admitted(cfg, l, reqs, ip, i, j - 1)
         + if reqs[j - 1].ip == ip && Answer(cfg, l, reqs, j - 1) then 1 else 0
  }

  lemma LevelGrows(cfg: Config, b: Lookup, t: real, u: real)
    requires cfg.rate > 0.0 && t <= u
    ensures Level(cfg, b, u) <= Level(cfg, b, t) + Refill(cfg, t, u)
  {
    hide Refill;
    RefillForward(cfg, t, u);
    if b.Present? {
      RefillSplits(cfg, b.bucket.last, t, u);
    }
  }

  lemma RefillSplits(cfg: Config, a: real, b: real, c: real)
    ensures Refill(cfg, a, c) == Refill(cfg, a, b) + Refill(cfg, b, c)
  {
  }

  lemma RefillNow(cfg: Config, t: real)
    ensures Refill(cfg, t, t) == 0.0
  {
  }

  /** Tokens spent so far plus tokens on hand never exceed a burst plus the refill. */
  ghost predicate WithinBudget(cfg: Config, l: Limiter, reqs: seq<Request>, ip: string, i: nat, j: nat)
    requires i < j <= |reqs|
  {
    Admitted(cfg, l, reqs, ip, i, j) as real + Level(cfg, Own(cfg, reqs[..j], ip), reqs[j - 1].at)
    <= cfg.burst + Refill(cfg, reqs[i].at, reqs[j - 1].at)
  }

  lemma {:induction false} AdmissionPotential(cfg: Config, l: Limiter, reqs: seq<Request>, ip: string, i: nat, j: nat)
    requires cfg.rate > 0.0 && Sound(cfg) && Monotone(reqs) && l.buckets == map[] && i < j <= |reqs|
    ensures WithinBudget(cfg, l, reqs, ip, i, j)
  {
    if i < j - 1 {
      AdmissionPotential(cfg, l, reqs, ip, i, j - 1);
    }
    EvictionInvisible(cfg, l, reqs, j - 1);
    BudgetStep(cfg, l, reqs, ip, i, j);
  }

  lemma BudgetStep(cfg: Config, l: Limiter, reqs: seq<Request>, ip: string, i: nat, j: nat)
    requires cfg.rate > 0.0 && Monotone(reqs) && i < j <= |reqs|
    requires i < j - 1 ==> WithinBudget(cfg, l, reqs, ip, i, j - 1)
    requires Answer(cfg, l, reqs, j - 1) == OwnAnswer(cfg, reqs, j - 1)
    ensures WithinBudget(cfg, l, reqs, ip, i, j)
  {
    BudgetBefore(cfg, l, reqs, ip, i, j);
    LevelAfterRequest(cfg, reqs, ip, j);
  }

  lemma BudgetBefore(cfg: Config, l: Limiter, reqs: seq<Request>, ip: string, i: nat, j: nat)
    requires cfg.rate > 0.0 && Monotone(reqs) && i < j <= |reqs|
    requires i < j - 1 ==> WithinBudget(cfg, l, reqs, ip, i, j - 1)
    ensures Admitted(cfg, l, reqs, ip, i, j - 1) as real + Level(cfg, Own(cfg, reqs[..j - 1], ip), reqs[j - 1].at)
         <= cfg.burst + Refill(cfg, reqs[i].at, reqs[j - 1].at)
  {
    var own := Own(cfg, reqs[..j - 1], ip);
    if i == j - 1 {
      RefillNow(cfg, reqs[i].at);
    } else {
      var s, t, u := reqs[i].at, reqs[j - 2].at, reqs[j - 1].at;
      LevelGrows(cfg, own, t, u);
      RefillSplits(cfg, s, t, u);
      BudgetArithmetic(Admitted(cfg, l, reqs, ip, i, j - 1) as real, Level(cfg, own, t), Level(cfg, own, u),
                       cfg.burst, Refill(cfg, s, t), Refill(cfg, t, u));
    }
  }

  lemma BudgetArithmetic(spent: real, before: real, after: real, burst: real, earlier: real, step: real)
    requires spent + before <= burst + earlier && after <= before + step
    ensures spent + after <= burst + (earlier + step)
  {
  }

  lemma LevelAfterRequest(cfg: Config, reqs: seq<Request>, ip: string, j: nat)
    requires 0 < j <= |reqs|
    ensures var r := reqs[j - 1];
      Level(cfg, Own(cfg, reqs[..j], ip), r.at)
      <= Level(cfg, Own(cfg, reqs[..j - 1], ip), r.at)
         - if r.ip == ip && OwnAnswer(cfg, reqs, j - 1) then 1.0 else 0.0
  {
    assert reqs[..j][..j - 1] == reqs[..j - 1];
    ChargeLevel(cfg, Own(cfg, reqs[..j - 1], ip), reqs[j - 1].at);
  }

  lemma LevelNow(cfg: Config, b: Bucket)
    ensures Level(cfg, Present(b), b.last) == if b.tokens > cfg.burst then cfg.burst else b.tokens
  {
    RefillNow(cfg, b.last);
  }

  lemma ChargeLevel(cfg: Config, b: Lookup, now: real)
    ensures Level(cfg, Present(Charged(cfg, b, now)), now)
         <= Level(cfg, b, now) - (if Granted(cfg, b, now) then 1.0 else 0.0)
  {
    LevelNow(cfg, Charged(cfg, b, now));
  }

  lemma AdmissionRefill(cfg: Config, l: Limiter, reqs: seq<Request>, ip: string, i: nat, j: nat)
    requires cfg.rate > 0.0 && Sound(cfg) && Monotone(reqs) && l.buckets == map[] && i < j <= |reqs|
    ensures Admitted(cfg, l, reqs, ip, i, j) as real
         <= cfg.burst + Refill(cfg, reqs[i].at, reqs[j - 1].at)
  {
    AdmissionPotential(cfg, l, reqs, ip, i, j);
    OwnPlausible(cfg, reqs[..j], ip, reqs[j - 1].at);
    RefillNonNegative(cfg, Own(cfg, reqs[..j], ip), reqs[j - 1].at);
  }

  /** One IP never gets more than a burst plus the refill of the interval through, whatever the others do. */
  lemma AdmissionBound(cfg: Config, l: Limiter, reqs: seq<Request>, ip: string, i: nat, j: nat)
    requires cfg.rate > 0.0 && cfg.burst >= 1.0 && cfg.rate * 900.0 >= cfg.burst
    requires Monotone(reqs) && l.buckets == map[] && i < j <= |reqs|
    ensures Admitted(cfg, l, reqs, ip, i, j) as real
         <= cfg.burst + cfg.rate * (reqs[j - 1].at - reqs[i].at)
  {
    hide Admitted, Refill;
    AdmissionRefill(cfg, l, reqs, ip, i, j);
    RefillIs(cfg, reqs[i].at, reqs[j - 1].at);
  }

  lemma RefillIs(cfg: Config, t: real, u: real)
    ensures Refill(cfg, t, u) == cfg.rate * (u - t)
  {
  }

  /** An IP that leaves at least `1 / rate` between its requests. */
  ghost predicate Spaced(cfg: Config, reqs: seq<Request>, ip: string) {
    forall i, j :: 0 <= i < j < |reqs| && reqs[i].ip == ip && reqs[j].ip == ip ==>
      cfg.rate * (reqs[j].at - reqs[i].at) >= 1.0
  }

  lemma SpacedRefill(cfg: Config, reqs: seq<Request>, ip: string, i: nat, j: nat)
    requires Spaced(cfg, reqs, ip) && i < j < |reqs| && reqs[i].ip == reqs[j].ip == ip
    ensures Refill(cfg, reqs[i].at, reqs[j].at) >= 1.0
  {
  }

  /** The bucket `b` of `ip` was last touched by one of that IP's requests and is not overdrawn. */
  ghost predicate Touched(b: Lookup, reqs: seq<Request>, ip: string) {
    b.Present? ==>
      b.bucket.tokens >= 0.0 && exists k :: 0 <= k < |reqs| && reqs[k].ip == ip && reqs[k].at == b.bucket.last
  }

  /** Deleting buckets leaves every bucket that is still there as it was. */
  lemma CollectedFind(l: Limiter, now: real, ip: string)
    ensures var b := Find(Collected(l, now).buckets, ip); b.Absent? || b == Find(l.buckets, ip)
  {
  }

  lemma ChargedNonNegative(cfg: Config, b: Lookup, now: real)
    requires cfg.rate > 0.0 && cfg.burst >= 1.0
    requires b.Present? ==> b.bucket.tokens >= 0.0 && b.bucket.last <= now
    ensures Charged(cfg, b, now).tokens >= 0.0
  {
    hide Refill;
    if b.Present? {
      RefillForward(cfg, b.bucket.last, now);
    }
  }

  lemma {:induction false} RunTouched(cfg: Config, l: Limiter, reqs: seq<Request>, ip: string)
    requires cfg.rate > 0.0 && cfg.burst >= 1.0 && Monotone(reqs) && l.buckets == map[]
    ensures Touched(Find(Run(cfg, l, reqs).buckets, ip), reqs, ip)
  {
    hide Collected, Charged;
    if reqs != [] {
      var init, r := reqs[..|reqs| - 1], reqs[|reqs| - 1];
      RunTouched(cfg, l, init, ip);
      CollectedFind(Run(cfg, l, init), r.at, ip);
      if r.ip == ip {
        ChargedNow(cfg, Find(Collected(Run(cfg, l, init), r.at).buckets, ip), r.at);
        ChargedNonNegative(cfg, Find(Collected(Run(cfg, l, init), r.at).buckets, ip), r.at);
      }
    }
  }

  lemma ChargedNow(cfg: Config, b: Lookup, now: real)
    ensures Charged(cfg, b, now).last == now
  {
  }

  lemma WholeTokenRefilled(cfg: Config, b: Bucket, now: real)
    requires b.tokens >= 0.0 && cfg.burst >= 1.0 && Refill(cfg, b.last, now) >= 1.0
    ensures Granted(cfg, Present(b), now)
  {
  }

  /** Such an IP is never refused, whatever is evicted in between: it needs no more than room for one token. */
  lemma SpacedNeverRefused(cfg: Config, l: Limiter, reqs: seq<Request>, i: nat)
    requires cfg.burst >= 1.0 && Monotone(reqs) && l.buckets == map[] && i < |reqs|
    requires Spaced(cfg, reqs, reqs[i].ip)
    ensures Answer(cfg, l, reqs, i)
  {
    hide Run, Collected, Refill, Level, Charged;
    if cfg.rate > 0.0 {
      var ip := reqs[i].ip;
      RunTouched(cfg, l, reqs[..i], ip);
      CollectedFind(Run(cfg, l, reqs[..i]), reqs[i].at, ip);
      var b := Find(Collected(Run(cfg, l, reqs[..i]), reqs[i].at).buckets, ip);
      if b.Present? {
        var k :| 0 <= k < i && reqs[k].ip == ip && reqs[k].at == b.bucket.last;
        SpacedRefill(cfg, reqs, ip, k, i);
        WholeTokenRefilled(cfg, b.bucket, reqs[i].at);
      }
    }
  }

  // ----- The first requests of an IP -----

  /** How many requests of `ip` there are. */
  function CountOf(reqs: seq<Request>, ip: string): nat {
    if reqs == [] then 0 else CountOf(reqs[..|reqs| - 1], ip) + if reqs[|reqs| - 1].ip == ip then 1 else 0
  }

  /** A bucket that is there holds at least a burst less one token for each request so far. */
  ghost predicate Stocked(cfg: Config, b: Lookup, n: nat, now: real) {
    b.Present? ==> b.bucket.tokens >= cfg.burst - n as real && b.bucket.last <= now
  }

  lemma ChargedStocked(cfg: Config, b: Lookup, n: nat, now: real)
    requires cfg.rate > 0.0 && Stocked(cfg, b, n, now)
    ensures Charged(cfg, b, now).tokens >= cfg.burst - (n + 1) as real
    ensures (n + 1) as real <= cfg.burst ==> Granted(cfg, b, now)
  {
    hide Refill;
    if b.Present? {
      RefillForward(cfg, b.bucket.last, now);
    }
  }

  lemma {:induction false} RunStocked(cfg: Config, l: Limiter, reqs: seq<Request>, ip: string, now: real)
    requires cfg.rate > 0.0 && Monotone(reqs) && l.buckets == map[] && forall i :: 0 <= i < |reqs| ==> reqs[i].at <= now
    ensures Stocked(cfg, Find(Run(cfg, l, reqs).buckets, ip), CountOf(reqs, ip), now)
  {
    hide Collected, Charged;
    if reqs != [] {
      var init, r := reqs[..|reqs| - 1], reqs[|reqs| - 1];
      RunStocked(cfg, l, init, ip, r.at);
      var b := Find(Collected(Run(cfg, l, init), r.at).buckets, ip);
      CollectedFind(Run(cfg, l, init), r.at, ip);
      if r.ip == ip {
        ChargedNow(cfg, b, r.at);
        ChargedStocked(cfg, b, CountOf(init, ip), r.at);
      }
    }
  }

  /** The first requests of an IP, as many as a burst holds, are all admitted, however close together, whatever the others
      do and whatever is evicted. A rate of 0 admits every request of every IP. */
  lemma BurstAdmitted(cfg: Config, l: Limiter, reqs: seq<Request>, i: nat)
    requires Monotone(reqs) && l.buckets == map[] && i < |reqs|
    requires cfg.rate <= 0.0 || (CountOf(reqs[..i], reqs[i].ip) + 1) as real <= cfg.burst
    ensures Answer(cfg, l, reqs, i)
  {
    hide Run, Collected, Charged, Granted, CountOf;
    if cfg.rate > 0.0 {
      var ip, at := reqs[i].ip, reqs[i].at;
      RunStocked(cfg, l, reqs[..i], ip, at);
      CollectedFind(Run(cfg, l, reqs[..i]), at, ip);
      var b := Find(Collected(Run(cfg, l, reqs[..i]), at).buckets, ip);
      ChargedStocked(cfg, b, CountOf(reqs[..i], ip), at);
    }
  }

  /** A request forgets the bucket of another IP exactly if the last collection is 300 seconds ago and the bucket has not
      been touched for more than 900; one that is kept is kept as it was. */
  lemma ForgottenExactly(cfg: Config, l: Limiter, r: Request, ip: string)
    requires ip in l.buckets && ip != r.ip && cfg.rate > 0.0
    ensures var q := Next(cfg, l, r);
      && (ip !in q.buckets <==> r.at - l.lastGC >= 300.0 && r.at - l.buckets[ip].last > 900.0)
      && (ip in q.buckets ==> q.buckets[ip] == l.buckets[ip])
      && q.lastGC == if r.at - l.lastGC >= 300.0 then r.at else l.lastGC
  {
    hide Charged;
  }
}
