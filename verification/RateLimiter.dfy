/**
 The in-memory rate limiter: a token bucket per key, bounded in number, with idle ones evicted.
 Tokens and times are reals, and requests arrive with non-decreasing clock readings.
 */
module RateLimiter {
  import opened Basics

  /** Per second, bursts, how long an unused key is remembered, how many keys. */
  datatype Config = Config(rate: real, burst: int, idleTTL: real, maxKeys: nat)

  /** A rate is never negative; nothing else is demanded. */
  predicate ValidConfig(cfg: Config) { cfg.rate >= 0.0 }

  datatype Bucket = Bucket(tokens: real, last: real)

  datatype Tracked = Tracked(bucket: Bucket, lastSeen: real)

  /** None: no wait is long enough. */
  datatype Decision = Allowed | Refused(retryAfter: Option<real>)

  datatype Request = Request(key: string, now: real)

  type Buckets = map<string, Tracked>

  function Min(a: real, b: real): real { if a <= b then a else b }

  /** Tokens gained over a time. */
  function Refill(cfg: Config, dt: real): real { cfg.rate * dt }

  /** What a bucket holds at `now`. */
  function Available(cfg: Config, b: Bucket, now: real): real {
    Min(cfg.burst as real, b.tokens + Refill(cfg, now - b.last))
  }

  function Fresh(cfg: Config, now: real): Bucket { Bucket(cfg.burst as real, now) }

  /** A token may be used at once. */
  predicate Allows(cfg: Config, b: Bucket, now: real) { cfg.burst >= 1 && Available(cfg, b, now) >= 1.0 }

  /** The bucket after a request for one token, which takes it or nothing. */
  function Left(cfg: Config, b: Bucket, now: real): Bucket {
    if cfg.burst < 1 then b
    else if Allows(cfg, b, now) then Bucket(Available(cfg, b, now) - 1.0, now)
    else Bucket(Available(cfg, b, now), now)
  }

  /** How long until a token is there; None when none ever is. */
  function RetryAfter(cfg: Config, b: Bucket, now: real): Option<real> {
    if cfg.burst >= 1 && cfg.rate > 0.0 then Some((1.0 - Available(cfg, b, now)) / cfg.rate) else None
  }

  /** ReserveN of one token, cancelled unless it may be used at once. */
  function Take(cfg: Config, b: Bucket, now: real): (Bucket, Decision) {
    (Left(cfg, b, now), if Allows(cfg, b, now) then Allowed else Refused(RetryAfter(cfg, b, now)))
  }

  // ---- The limiter ----

  predicate Idle(cfg: Config, t: Tracked, now: real) { now - t.lastSeen > cfg.idleTTL }

  function Evicted(cfg: Config, m: Buckets, now: real): Buckets {
    map k | k in m && !Idle(cfg, m[k], now) :: m[k]
  }

  /** The buckets a request meets: idle ones go only when a new key finds no room. */
  function Roomed(cfg: Config, m: Buckets, r: Request): Buckets {
    if r.key !in m && |m| >= cfg.maxKeys then Evicted(cfg, m, r.now) else m
  }

  /** Whether a request is counted at all; one that finds no room is let through uncounted. */
  predicate IsTracked(cfg: Config, m: Buckets, r: Request) {
    r.key in m || |Roomed(cfg, m, r)| < cfg.maxKeys
  }

  function BucketFor(cfg: Config, m: Buckets, r: Request): Bucket {
    if r.key in m then m[r.key].bucket else Fresh(cfg, r.now)
  }

  function Decide(cfg: Config, m: Buckets, r: Request): Decision {
    if IsTracked(cfg, m, r) then Take(cfg, BucketFor(cfg, m, r), r.now).1 else Allowed
  }

  function Next(cfg: Config, m: Buckets, r: Request): Buckets {
    if IsTracked(cfg, m, r)
    then Roomed(cfg, m, r)[r.key := Tracked(Left(cfg, BucketFor(cfg, m, r), r.now), r.now)]
    else Roomed(cfg, m, r)
  }

  function Run(cfg: Config, rs: seq<Request>): Buckets {
    if rs == [] then map[] else Next(cfg, Run(cfg, rs[..|rs| - 1]), rs[|rs| - 1])
  }

  predicate Ordered(rs: seq<Request>) {
    forall i, j | 0 <= i < j < |rs| :: rs[i].now <= rs[j].now
  }

  lemma EvictedShrinks(cfg: Config, m: Buckets, now: real)
    ensures |Evicted(cfg, m, now)| <= |m|
  {
    var e := Evicted(cfg, m, now);
    assert e.Keys <= m.Keys;
    SubsetSize(e.Keys, m.Keys);
  }

  lemma SubsetSize(a: set<string>, b: set<string>)
    requires a <= b
    ensures |a| <= |b|
  {
    assert b == a + (b - a);
  }

  /** Memory is bounded: the map never holds more than maxKeys buckets. */
  lemma {:induction false} NeverOverfull(cfg: Config, rs: seq<Request>)
    ensures |Run(cfg, rs)| <= cfg.maxKeys
  {
    if rs != [] {
      var m, r := Run(cfg, rs[..|rs| - 1]), rs[|rs| - 1];
      NeverOverfull(cfg, rs[..|rs| - 1]);
      EvictedShrinks(cfg, m, r.now);
      var roomed := Roomed(cfg, m, r);
      if r.key in m {
        assert Next(cfg, m, r).Keys == m.Keys;
      } else if IsTracked(cfg, m, r) {
        assert Next(cfg, m, r).Keys == roomed.Keys + {r.key};
      }
    }
  }

  // ---- A limiter that never forgets ----

  type Memory = map<string, Bucket>

  function Remembered(cfg: Config, ref: Memory, r: Request): Bucket {
    if r.key in ref then ref[r.key] else Fresh(cfg, r.now)
  }

  /** The buckets if none were ever evicted, fed the requests the limiter counted. */
  function Reference(cfg: Config, rs: seq<Request>): Memory {
    if rs == [] then map[]
    else
      var before, r := rs[..|rs| - 1], rs[|rs| - 1];
      var ref := Reference(cfg, before);
      if IsTracked(cfg, Run(cfg, before), r)
      then ref[r.key := Left(cfg, Remembered(cfg, ref, r), r.now)]
      else ref
  }

  /** A bucket refills from empty within the idle time. */
  predicate RefillsWhileIdle(cfg: Config) { cfg.burst as real <= Refill(cfg, cfg.idleTTL) }

  lemma RefillGrows(cfg: Config, a: real, b: real)
    requires ValidConfig(cfg) && a <= b
    ensures Refill(cfg, a) <= Refill(cfg, b)
    ensures cfg.rate > 0.0 && a < b ==> Refill(cfg, a) < Refill(cfg, b)
  {
    var d := b - a;
    Signs(cfg.rate, d);
    assert cfg.rate * (a + d) == cfg.rate * a + cfg.rate * d;
    assert b == a + d;
  }

  lemma Signs(x: real, y: real)
    requires x >= 0.0 && y >= 0.0
    ensures x * y >= 0.0 && (x > 0.0 && y > 0.0 ==> x * y > 0.0)
  {
  }

  lemma RefillAdds(cfg: Config, a: real, b: real)
    ensures Refill(cfg, a + b) == Refill(cfg, a) + Refill(cfg, b)
    ensures Refill(cfg, 0.0) == 0.0
  {
  }

  predicate SoundBucket(cfg: Config, b: Bucket, now: real) {
    0.0 <= b.tokens <= cfg.burst as real && b.last <= now
  }

  /** Tracked keys agree with the reference, and a forgotten key's reference bucket is full again. */
  predicate Agrees(cfg: Config, m: Buckets, ref: Memory, now: real) {
    && m.Keys <= ref.Keys
    && (forall k | k in ref :: SoundBucket(cfg, ref[k], now))
    && (forall k | k in m :: m[k] == Tracked(ref[k], ref[k].last))
    && (forall k | k in ref && k !in m :: Available(cfg, ref[k], now) == cfg.burst as real)
  }

  lemma StaysFull(cfg: Config, b: Bucket, t: real, now: real)
    requires ValidConfig(cfg) && t <= now && Available(cfg, b, t) == cfg.burst as real
    ensures Available(cfg, b, now) == cfg.burst as real
  {
    RefillGrows(cfg, t - b.last, now - b.last);
  }

  lemma TakeSound(cfg: Config, b: Bucket, now: real)
    requires ValidConfig(cfg) && cfg.burst >= 1 && SoundBucket(cfg, b, now)
    ensures SoundBucket(cfg, Take(cfg, b, now).0, now) && Take(cfg, b, now).0.last == now
  {
    RefillGrows(cfg, 0.0, now - b.last);
    RefillAdds(cfg, 0.0, 0.0);
  }

  lemma IdleIsFull(cfg: Config, b: Bucket, now: real)
    requires ValidConfig(cfg) && RefillsWhileIdle(cfg) && b.tokens >= 0.0 && now - b.last > cfg.idleTTL
    ensures Available(cfg, b, now) == cfg.burst as real
  {
    RefillGrows(cfg, cfg.idleTTL, now - b.last);
  }

  /** A bucket full at `now` answers and ends like a fresh one. */
  lemma FullIsFresh(cfg: Config, b: Bucket, now: real)
    requires Available(cfg, b, now) == cfg.burst as real && cfg.burst >= 1
    ensures Take(cfg, b, now) == Take(cfg, Fresh(cfg, now), now)
  {
    FreshIsFull(cfg, now);
    assert Left(cfg, b, now) == Left(cfg, Fresh(cfg, now), now);
    assert RetryAfter(cfg, b, now) == RetryAfter(cfg, Fresh(cfg, now), now);
  }

  lemma Later(cfg: Config, m: Buckets, ref: Memory, t: real, now: real)
    requires ValidConfig(cfg) && t <= now && Agrees(cfg, m, ref, t)
    ensures Agrees(cfg, m, ref, now)
  {
    forall k | k in ref && k !in m
      ensures Available(cfg, ref[k], now) == cfg.burst as real
    {
      StaysFull(cfg, ref[k], t, now);
    }
  }

  lemma EvictionAgrees(cfg: Config, m: Buckets, ref: Memory, now: real)
    requires ValidConfig(cfg) && RefillsWhileIdle(cfg) && Agrees(cfg, m, ref, now)
    ensures Agrees(cfg, Evicted(cfg, m, now), ref, now)
  {
    forall k | k in ref && k !in Evicted(cfg, m, now)
      ensures Available(cfg, ref[k], now) == cfg.burst as real
    {
      if k in m { IdleIsFull(cfg, ref[k], now); }
    }
  }

  lemma {:induction false} ReferenceAgrees(cfg: Config, rs: seq<Request>, now: real)
    requires ValidConfig(cfg) && RefillsWhileIdle(cfg) && cfg.burst >= 1 && Ordered(rs)
    requires rs != [] ==> rs[|rs| - 1].now <= now
    ensures Agrees(cfg, Run(cfg, rs), Reference(cfg, rs), now)
  {
    if rs != [] {
      var before, r := rs[..|rs| - 1], rs[|rs| - 1];
      ReferenceAgrees(cfg, before, r.now);
      var m, ref := Run(cfg, before), Reference(cfg, before);
      EvictionAgrees(cfg, m, ref, r.now);
      if IsTracked(cfg, m, r) {
        if r.key in ref && r.key !in m { FullIsFresh(cfg, ref[r.key], r.now); }
        TakeSound(cfg, Remembered(cfg, ref, r), r.now);
      }
      Later(cfg, Run(cfg, rs), Reference(cfg, rs), r.now, now);
    }
  }

  /**
   Invisible eviction: when a bucket refills within the idle time, every counted decision of every run is
   the decision of a limiter that never forgets a key, the wait it reports included.
   */
  lemma EvictionIsInvisible(cfg: Config, rs: seq<Request>, r: Request)
    requires ValidConfig(cfg) && RefillsWhileIdle(cfg) && Ordered(rs + [r])
    requires IsTracked(cfg, Run(cfg, rs), r)
    ensures Decide(cfg, Run(cfg, rs), r) == Take(cfg, Remembered(cfg, Reference(cfg, rs), r), r.now).1
  {
    if cfg.burst >= 1 {
      assert Ordered(rs) by { assert rs == (rs + [r])[..|rs|]; OrderedPrefix(rs + [r], |rs|); }
      if rs != [] { assert (rs + [r])[|rs| - 1].now <= (rs + [r])[|rs|].now; }
      ReferenceAgrees(cfg, rs, r.now);
      var m, ref := Run(cfg, rs), Reference(cfg, rs);
      if r.key in ref && r.key !in m { FullIsFresh(cfg, ref[r.key], r.now); }
    }
  }

  lemma OrderedPrefix(rs: seq<Request>, n: nat)
    requires Ordered(rs) && n <= |rs|
    ensures Ordered(rs[..n])
  {
  }

  /** If the request is counted, it is decided as by a limiter that never forgets. */
  predicate DecidesAlike(cfg: Config, rs: seq<Request>, r: Request) {
    IsTracked(cfg, Run(cfg, rs), r) ==>
      Decide(cfg, Run(cfg, rs), r) == Take(cfg, Remembered(cfg, Reference(cfg, rs), r), r.now).1
  }

  /** Every counted decision of every run is that of a limiter that never forgets. */
  ghost predicate Invisible(cfg: Config) {
    forall rs: seq<Request>, r: Request {:trigger DecidesAlike(cfg, rs, r)} | Ordered(rs + [r]) :: DecidesAlike(cfg, rs, r)
  }

  /** Every counted decision of this run is. */
  predicate AllAlike(cfg: Config, rs: seq<Request>) {
    forall k {:trigger DecidesAlike(cfg, rs[..k], rs[k])} | 0 <= k < |rs| :: DecidesAlike(cfg, rs[..k], rs[k])
  }

  lemma InvisibleRuns(cfg: Config, rs: seq<Request>)
    requires Invisible(cfg) && Ordered(rs)
    ensures AllAlike(cfg, rs)
  {
    forall k | 0 <= k < |rs|
      ensures DecidesAlike(cfg, rs[..k], rs[k])
    {
      assert rs[..k] + [rs[k]] == rs[..k + 1];
      OrderedPrefix(rs, k + 1);
    }
  }

  // ---- The rate bound ----

  /** Whether a request is counted for `key` and allowed, as a number. */
  function Granted(cfg: Config, m: Buckets, r: Request, key: string): nat {
    if r.key == key && IsTracked(cfg, m, r) && Allows(cfg, BucketFor(cfg, m, r), r.now) then 1 else 0
  }

  lemma GrantedIsAllowed(cfg: Config, m: Buckets, r: Request, key: string)
    ensures Granted(cfg, m, r, key) == if r.key == key && IsTracked(cfg, m, r) && Decide(cfg, m, r) == Allowed then 1 else 0
  {
  }

  function GrantedAt(cfg: Config, rs: seq<Request>, k: nat, key: string): nat {
    if k < |rs| then Granted(cfg, Run(cfg, rs[..k]), rs[k], key) else 0
  }

  /** How many requests of `key` among rs[i..j] were counted and allowed. */
  function Grants(cfg: Config, rs: seq<Request>, i: nat, j: nat, key: string): nat {
    if j <= i then 0 else Grants(cfg, rs, i, j - 1, key) + GrantedAt(cfg, rs, j - 1, key)
  }

  /** What the reference would give `key` at `now`. */
  function Credit(cfg: Config, ref: Memory, key: string, now: real): real {
    if key in ref then Available(cfg, ref[key], now) else cfg.burst as real
  }

  lemma CreditGrows(cfg: Config, ref: Memory, key: string, t: real, now: real)
    requires ValidConfig(cfg) && t <= now
    ensures Credit(cfg, ref, key, now) <= Credit(cfg, ref, key, t) + Refill(cfg, now - t)
  {
    RefillGrows(cfg, 0.0, now - t);
    RefillAdds(cfg, 0.0, 0.0);
    if key in ref {
      RefillAdds(cfg, t - ref[key].last, now - t);
      assert (t - ref[key].last) + (now - t) == now - ref[key].last;
    }
  }

  /** Taking spends one token when it succeeds and nothing otherwise. */
  lemma TakeSpends(cfg: Config, b: Bucket, now: real)
    requires ValidConfig(cfg) && cfg.burst >= 1 && SoundBucket(cfg, b, now)
    ensures var (b', d) := Take(cfg, b, now);
      Available(cfg, b', now) == Available(cfg, b, now) - (if d == Allowed then 1.0 else 0.0) && Available(cfg, b', now) >= 0.0
  {
    RefillGrows(cfg, 0.0, now - b.last);
    RefillAdds(cfg, 0.0, 0.0);
  }

  /** One more request spends from the credit exactly what it was granted. */
  lemma CreditSpent(cfg: Config, rs: seq<Request>, j: nat, key: string)
    requires Measured(cfg, rs) && 0 < j <= |rs|
    ensures var now := rs[j - 1].now;
      && Credit(cfg, Reference(cfg, rs[..j]), key, now) ==
         Credit(cfg, Reference(cfg, rs[..j - 1]), key, now) - GrantedAt(cfg, rs, j - 1, key) as real
      && Credit(cfg, Reference(cfg, rs[..j]), key, now) >= 0.0
  {
    var before, r := rs[..j - 1], rs[j - 1];
    assert rs[..j][..j - 1] == before && before + [r] == rs[..j];
    OrderedPrefix(rs, j);
    OrderedPrefix(rs, j - 1);
    ReferenceSound(cfg, before, r.now);
    assert DecidesAlike(cfg, rs[..j - 1], rs[j - 1]);
    CreditTaken(cfg, before, r, key);
  }

  lemma CreditTaken(cfg: Config, before: seq<Request>, r: Request, key: string)
    requires ValidConfig(cfg) && DecidesAlike(cfg, before, r) && cfg.burst >= 1
    requires forall k | k in Reference(cfg, before) :: SoundBucket(cfg, Reference(cfg, before)[k], r.now)
    ensures Credit(cfg, Reference(cfg, before + [r]), key, r.now) ==
      Credit(cfg, Reference(cfg, before), key, r.now) - Granted(cfg, Run(cfg, before), r, key) as real
    ensures Credit(cfg, Reference(cfg, before + [r]), key, r.now) >= 0.0
  {
    var m, ref := Run(cfg, before), Reference(cfg, before);
    assert (before + [r])[..|before|] == before;
    FreshIsFull(cfg, r.now);
    if IsTracked(cfg, m, r) {
      TakeSpends(cfg, Remembered(cfg, ref, r), r.now);
    }
    if key in ref {
      StaysPositive(cfg, ref[key], r.now);
    }
  }

  /** The reference's buckets stay within bounds whatever is evicted. */
  lemma {:induction false} ReferenceSound(cfg: Config, rs: seq<Request>, now: real)
    requires ValidConfig(cfg) && cfg.burst >= 1 && Ordered(rs)
    requires rs != [] ==> rs[|rs| - 1].now <= now
    ensures forall k | k in Reference(cfg, rs) :: SoundBucket(cfg, Reference(cfg, rs)[k], now)
  {
    if rs != [] {
      var before, r := rs[..|rs| - 1], rs[|rs| - 1];
      ReferenceSound(cfg, before, r.now);
      FreshIsFull(cfg, r.now);
      TakeSound(cfg, Remembered(cfg, Reference(cfg, before), r), r.now);
    }
  }

  lemma FreshIsFull(cfg: Config, now: real)
    requires cfg.burst >= 1
    ensures Available(cfg, Fresh(cfg, now), now) == cfg.burst as real && SoundBucket(cfg, Fresh(cfg, now), now)
  {
    RefillAdds(cfg, 0.0, 0.0);
  }

  lemma StaysPositive(cfg: Config, b: Bucket, now: real)
    requires ValidConfig(cfg) && cfg.burst >= 0 && SoundBucket(cfg, b, now)
    ensures Available(cfg, b, now) >= 0.0
  {
    RefillGrows(cfg, 0.0, now - b.last);
    RefillAdds(cfg, 0.0, 0.0);
  }

  /** What was granted plus what is left never exceeds what could have been there. */
  predicate Within(cfg: Config, granted: nat, left: real, span: real) {
    granted as real + left <= cfg.burst as real + Refill(cfg, span)
  }

  /** A run the bound speaks of. */
  predicate Measured(cfg: Config, rs: seq<Request>) {
    ValidConfig(cfg) && cfg.burst >= 1 && Ordered(rs) && AllAlike(cfg, rs)
  }

  /** What the reference has left for `key` after request j - 1. */
  function LeftAt(cfg: Config, rs: seq<Request>, j: nat, key: string): real {
    if 0 < j <= |rs| then Credit(cfg, Reference(cfg, rs[..j]), key, rs[j - 1].now) else cfg.burst as real
  }

  predicate SpentBy(cfg: Config, rs: seq<Request>, i: nat, j: nat, key: string)
    requires i < j <= |rs|
  {
    Within(cfg, Grants(cfg, rs, i, j, key), LeftAt(cfg, rs, j, key), rs[j - 1].now - rs[i].now)
  }

  lemma SpentAtOnce(cfg: Config, rs: seq<Request>, i: nat, key: string)
    requires Measured(cfg, rs) && i < |rs|
    ensures GrantedAt(cfg, rs, i, key) as real + LeftAt(cfg, rs, i + 1, key) <= cfg.burst as real
  {
    CreditSpent(cfg, rs, i + 1, key);
    CreditIsBounded(cfg, Reference(cfg, rs[..i]), key, rs[i].now);
  }

  lemma CreditIsBounded(cfg: Config, ref: Memory, key: string, now: real)
    ensures Credit(cfg, ref, key, now) <= cfg.burst as real
  {
  }

  /** Between two requests the credit refills; the second spends what it is granted. */
  lemma LeftLater(cfg: Config, rs: seq<Request>, j: nat, key: string)
    requires Measured(cfg, rs) && 0 < j < |rs|
    ensures StepSpends(cfg, rs, j, key)
  {
    LeftAfter(cfg, rs, j, key);
    CreditGrows(cfg, Reference(cfg, rs[..j]), key, rs[j - 1].now, rs[j].now);
    RefillBetween(cfg, rs[j - 1].now, rs[j].now);
  }

  lemma RefillBetween(cfg: Config, t: real, now: real)
    ensures Refill(cfg, now - t) == Refill(cfg, now) - Refill(cfg, t)
  {
  }

  lemma LeftAfter(cfg: Config, rs: seq<Request>, j: nat, key: string)
    requires Measured(cfg, rs) && j < |rs|
    ensures LeftAt(cfg, rs, j + 1, key)
            == Credit(cfg, Reference(cfg, rs[..j]), key, rs[j].now) - GrantedAt(cfg, rs, j, key) as real
  {
    CreditSpent(cfg, rs, j + 1, key);
  }

  /** One more request: what was granted and what is left stay within the burst and what refilled since time `start`. */
  lemma SpendMore(cfg: Config, granted: nat, left: real, start: real, t: real, more: nat, left': real, now: real)
    requires granted as real + left <= cfg.burst as real + Refill(cfg, t) - Refill(cfg, start)
    requires more as real + left' <= left + Refill(cfg, now) - Refill(cfg, t)
    ensures (granted + more) as real + left' <= cfg.burst as real + Refill(cfg, now) - Refill(cfg, start)
  {
  }

  predicate SoFar(cfg: Config, rs: seq<Request>, i: nat, j: nat, key: string) {
    && i < j <= |rs|
    && Grants(cfg, rs, i, j, key) as real + LeftAt(cfg, rs, j, key)
       <= cfg.burst as real + Refill(cfg, rs[j - 1].now) - Refill(cfg, rs[i].now)
  }

  predicate StepSpends(cfg: Config, rs: seq<Request>, j: nat, key: string) {
    && 0 < j < |rs|
    && GrantedAt(cfg, rs, j, key) as real + LeftAt(cfg, rs, j + 1, key)
       <= LeftAt(cfg, rs, j, key) + Refill(cfg, rs[j].now) - Refill(cfg, rs[j - 1].now)
  }

  lemma SoFarNext(cfg: Config, rs: seq<Request>, i: nat, j: nat, key: string)
    requires SoFar(cfg, rs, i, j, key) && StepSpends(cfg, rs, j, key)
    ensures SoFar(cfg, rs, i, j + 1, key)
  {
    SpendMore(cfg, Grants(cfg, rs, i, j, key), LeftAt(cfg, rs, j, key), rs[i].now, rs[j - 1].now,
              GrantedAt(cfg, rs, j, key), LeftAt(cfg, rs, j + 1, key), rs[j].now);
  }

  lemma SpentFirst(cfg: Config, rs: seq<Request>, i: nat, key: string)
    requires Measured(cfg, rs) && i < |rs|
    ensures SoFar(cfg, rs, i, i + 1, key)
  {
    SpentAtOnce(cfg, rs, i, key);
    assert Grants(cfg, rs, i, i, key) == 0;
  }

  lemma {:induction false} SpentSoFar(cfg: Config, rs: seq<Request>, i: nat, j: nat, key: string)
    requires Measured(cfg, rs) && i < j <= |rs|
    ensures SoFar(cfg, rs, i, j, key)
  {
    if j == i + 1 {
      SpentFirst(cfg, rs, i, key);
    } else {
      SpentSoFar(cfg, rs, i, j - 1, key);
      LeftLater(cfg, rs, j - 1, key);
      SoFarNext(cfg, rs, i, j - 1, key);
    }
  }

  /** What was granted plus what is left stays within the burst and what refilled. */
  lemma SpentWithin(cfg: Config, rs: seq<Request>, i: nat, j: nat, key: string)
    requires Measured(cfg, rs) && i < j <= |rs|
    ensures SpentBy(cfg, rs, i, j, key)
  {
    SpentSoFar(cfg, rs, i, j, key);
    RefillBetween(cfg, rs[i].now, rs[j - 1].now);
  }

  /** The most a key is granted in a stretch of a given length. */
  function MostGrants(cfg: Config, span: real): real {
    (if cfg.burst >= 1 then cfg.burst as real else 0.0) + Refill(cfg, span)
  }

  /** The rate bound, as long as eviction is invisible. */
  lemma InvisibleBounds(cfg: Config, rs: seq<Request>, i: nat, j: nat, key: string, span: real)
    requires ValidConfig(cfg) && Invisible(cfg) && Ordered(rs) && i < j <= |rs|
    requires rs[j - 1].now - rs[i].now <= span
    ensures Grants(cfg, rs, i, j, key) as real <= MostGrants(cfg, span)
  {
    var lasted := rs[j - 1].now - rs[i].now;
    assert lasted >= 0.0 by { if i + 1 < j { assert rs[i].now <= rs[j - 1].now; } }
    RefillGrows(cfg, lasted, span);
    RefillGrows(cfg, 0.0, lasted);
    RefillAdds(cfg, 0.0, 0.0);
    InvisibleRuns(cfg, rs);
    StretchBound(cfg, rs, i, j, key, lasted);
  }

  lemma StretchBound(cfg: Config, rs: seq<Request>, i: nat, j: nat, key: string, lasted: real)
    requires ValidConfig(cfg) && Ordered(rs) && AllAlike(cfg, rs) && i < j <= |rs| && lasted == rs[j - 1].now - rs[i].now
    requires Refill(cfg, lasted) >= 0.0
    ensures Grants(cfg, rs, i, j, key) as real <= MostGrants(cfg, lasted)
  {
    if cfg.burst >= 1 {
      WithinLasted(cfg, rs, i, j, key);
    } else {
      NoGrants(cfg, rs, i, j, key);
    }
  }

  lemma WithinLasted(cfg: Config, rs: seq<Request>, i: nat, j: nat, key: string)
    requires Measured(cfg, rs) && i < j <= |rs|
    ensures Grants(cfg, rs, i, j, key) as real <= cfg.burst as real + Refill(cfg, rs[j - 1].now - rs[i].now)
  {
    SpentWithin(cfg, rs, i, j, key);
    LeftPositive(cfg, rs, j, key);
    EnoughLeft(cfg, Grants(cfg, rs, i, j, key), LeftAt(cfg, rs, j, key), rs[j - 1].now - rs[i].now);
  }

  lemma LeftPositive(cfg: Config, rs: seq<Request>, j: nat, key: string)
    requires Measured(cfg, rs) && 0 < j <= |rs|
    ensures LeftAt(cfg, rs, j, key) >= 0.0
  {
    CreditSpent(cfg, rs, j, key);
  }

  lemma EnoughLeft(cfg: Config, granted: nat, left: real, span: real)
    requires Within(cfg, granted, left, span) && left >= 0.0
    ensures granted as real <= cfg.burst as real + Refill(cfg, span)
  {
  }

  lemma {:induction false} NoGrants(cfg: Config, rs: seq<Request>, i: nat, j: nat, key: string)
    requires i <= j <= |rs| && cfg.burst < 1
    ensures Grants(cfg, rs, i, j, key) == 0
  {
    if i < j { NoGrants(cfg, rs, i, j - 1, key); }
  }

  /** The wait reported with a refusal at `now` is over at `later`. */
  predicate WaitedFor(d: Decision, now: real, later: real)
    requires d.Refused?
  {
    d.retryAfter.Some? && later >= now + d.retryAfter.value
  }

  /**
   The wait reported with a refusal is exact: with no other request in between, the key's next request is allowed at any
   reading from then on and refused at any reading before. No wait is reported exactly when none would be enough.
   */
  lemma RetryAfterIsExact(cfg: Config, rs: seq<Request>, r: Request, later: real)
    requires ValidConfig(cfg) && r.now <= later
    requires IsTracked(cfg, Run(cfg, rs), r) && Decide(cfg, Run(cfg, rs), r).Refused?
    ensures Decide(cfg, Run(cfg, rs + [r]), Request(r.key, later)) == Allowed
            <==> WaitedFor(Decide(cfg, Run(cfg, rs), r), r.now, later)
    ensures Decide(cfg, Run(cfg, rs), r).retryAfter.Some? <==> cfg.burst >= 1 && cfg.rate > 0.0
  {
    assert (rs + [r])[..|rs|] == rs;
    RetryBucket(cfg, BucketFor(cfg, Run(cfg, rs), r), r.now, later);
  }

  lemma RetryBucket(cfg: Config, b: Bucket, now: real, later: real)
    requires ValidConfig(cfg) && now <= later && Take(cfg, b, now).1.Refused?
    ensures Take(cfg, Take(cfg, b, now).0, later).1 == Allowed <==> WaitedFor(Take(cfg, b, now).1, now, later)
  {
    if cfg.burst >= 1 {
      if cfg.rate > 0.0 {
        RetryRefills(cfg, b, now, later);
      } else {
        assert Refill(cfg, later - now) == 0.0;
      }
    }
  }

  lemma RetryRefills(cfg: Config, b: Bucket, now: real, later: real)
    requires cfg.rate > 0.0 && cfg.burst >= 1 && now <= later && !Allows(cfg, b, now)
    ensures Allows(cfg, Left(cfg, b, now), later) <==> later >= now + RetryAfter(cfg, b, now).value
  {
    var t := Available(cfg, b, now);
    var wait := (1.0 - t) / cfg.rate;
    assert Refill(cfg, wait) == 1.0 - t;
    if later - now >= wait { RefillGrows(cfg, wait, later - now); }
    else { RefillGrows(cfg, later - now, wait); }
  }

  /** Per: n requests a window; its buckets refill while idle exactly when the window fits the idle time. */
  function Per(n: int, window: real, idleTTL: real, maxKeys: nat): Config
    requires window > 0.0
  {
    Config(n as real / window, n, idleTTL, maxKeys)
  }

  lemma PerFits(n: int, window: real, idleTTL: real, maxKeys: nat)
    requires window > 0.0 && n > 0
    ensures RefillsWhileIdle(Per(n, window, idleTTL, maxKeys)) <==> window <= idleTTL
  {
    var cfg := Per(n, window, idleTTL, maxKeys);
    assert Refill(cfg, window) == n as real && cfg.rate > 0.0;
    if window <= idleTTL { RefillGrows(cfg, window, idleTTL); } else { RefillGrows(cfg, idleTTL, window); }
  }

  // ---- The limiter as updated in place ----

  class Limiter {
    const cfg: Config
    var buckets: Buckets

    constructor (cfg: Config)
      ensures this.cfg == cfg && buckets == map[]
    {
      this.cfg, buckets := cfg, map[];
    }

    /** evictIdle. */
    method EvictIdle(now: real)
      modifies this
      ensures buckets == Evicted(cfg, old(buckets), now)
    {
      var keys := buckets.Keys;
      while keys != {}
        invariant keys <= old(buckets).Keys
        invariant buckets == map k | k in old(buckets) && (k in keys || !Idle(cfg, old(buckets)[k], now)) :: old(buckets)[k]
        decreases keys
      {
        var k :| k in keys;
        if now - buckets[k].lastSeen > cfg.idleTTL {
          buckets := buckets - {k};
        }
        keys := keys - {k};
      }
    }

    method Allow(key: string, now: real) returns (d: Decision)
      modifies this
      ensures buckets == Next(cfg, old(buckets), Request(key, now))
      ensures d == Decide(cfg, old(buckets), Request(key, now))
    {
      var b;
      if key in buckets {
        b := buckets[key].bucket;
      } else {
        if |buckets| >= cfg.maxKeys {
          EvictIdle(now);
          if |buckets| >= cfg.maxKeys {
            return Allowed;
          }
        }
        b := Fresh(cfg, now);
      }
      var taken := Take(cfg, b, now);
      buckets := buckets[key := Tracked(taken.0, now)];
      return taken.1;
    }
  }
}
