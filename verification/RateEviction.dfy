/**
 When evicting idle keys from the rate limiter can be observed: the exact condition, for every configuration, and
 what it does to the rate bound.
 */
module RateEviction {
  import opened Basics
  import opened RateLimiter

  // ---- When eviction shows ----

  /** Whichever key it is, its name has as many letters. */
  function KeyNo(n: nat): (k: string)
    ensures |k| == n
  {
    if n == 0 then "" else KeyNo(n - 1) + "x"
  }

  const First := Request("", 0.0)

  predicate AllBy(rs: seq<Request>, now: real) { forall i | 0 <= i < |rs| :: rs[i].now <= now }

  lemma More(cfg: Config, rs: seq<Request>, r: Request)
    ensures Run(cfg, rs + [r]) == Next(cfg, Run(cfg, rs), r)
    ensures IsTracked(cfg, Run(cfg, rs), r) ==>
      Reference(cfg, rs + [r]) == Reference(cfg, rs)[r.key := Left(cfg, Remembered(cfg, Reference(cfg, rs), r), r.now)]
    ensures Ordered(rs) && AllBy(rs, r.now) ==> Ordered(rs + [r]) && AllBy(rs + [r], r.now)
  {
    assert (rs + [r])[..|rs|] == rs;
  }

  lemma AvailableNow(cfg: Config, t: real, now: real)
    requires t <= cfg.burst as real
    ensures Available(cfg, Bucket(t, now), now) == t
  {
    RefillAdds(cfg, 0.0, 0.0);
  }

  /** A request of a key the map holds. */
  lemma NextKnown(cfg: Config, m: Buckets, r: Request)
    requires r.key in m
    ensures IsTracked(cfg, m, r)
    ensures Next(cfg, m, r) == m[r.key := Tracked(Left(cfg, m[r.key].bucket, r.now), r.now)]
  {
  }

  /** A request of a new key when there is room. */
  lemma NextNew(cfg: Config, m: Buckets, r: Request)
    requires r.key !in m && |Roomed(cfg, m, r)| < cfg.maxKeys && cfg.burst >= 1
    ensures IsTracked(cfg, m, r) && Available(cfg, BucketFor(cfg, m, r), r.now) == cfg.burst as real
    ensures Next(cfg, m, r) == Roomed(cfg, m, r)[r.key := Tracked(Bucket(cfg.burst as real - 1.0, r.now), r.now)]
  {
    AvailableNow(cfg, cfg.burst as real, r.now);
  }

  function SpentBuckets(cfg: Config, n: nat): Buckets {
    if n == 0 then map[] else map["" := Tracked(Bucket((cfg.burst - n) as real, 0.0), 0.0)]
  }

  function SpentMemory(cfg: Config, n: nat): Memory {
    if n == 0 then map[] else map["" := Bucket((cfg.burst - n) as real, 0.0)]
  }

  lemma SpendOne(cfg: Config, n: nat)
    requires 1 <= n <= cfg.burst && cfg.maxKeys >= 1
    ensures IsTracked(cfg, SpentBuckets(cfg, n - 1), First)
    ensures Next(cfg, SpentBuckets(cfg, n - 1), First) == SpentBuckets(cfg, n)
    ensures Left(cfg, Remembered(cfg, SpentMemory(cfg, n - 1), First), 0.0) == Bucket((cfg.burst - n) as real, 0.0)
    ensures Granted(cfg, SpentBuckets(cfg, n - 1), First, "") == 1
  {
    AvailableNow(cfg, (cfg.burst - n + 1) as real, 0.0);
    if n == 1 {
      NextNew(cfg, map[], First);
    } else {
      NextKnown(cfg, SpentBuckets(cfg, n - 1), First);
    }
  }

  /** What a key was granted in all. */
  function Total(cfg: Config, rs: seq<Request>, key: string): nat {
    if rs == [] then 0
    else
      var before := rs[..|rs| - 1];
      Total(cfg, before, key) + Granted(cfg, Run(cfg, before), rs[|rs| - 1], key)
  }

  lemma TotalMore(cfg: Config, rs: seq<Request>, r: Request, key: string)
    ensures Total(cfg, rs + [r], key) == Total(cfg, rs, key) + Granted(cfg, Run(cfg, rs), r, key)
  {
    assert (rs + [r])[..|rs|] == rs;
  }

  lemma {:induction false} TotalIsGrants(cfg: Config, rs: seq<Request>, j: nat, key: string)
    requires j <= |rs|
    ensures Grants(cfg, rs, 0, j, key) == Total(cfg, rs[..j], key)
  {
    if j > 0 {
      TotalIsGrants(cfg, rs, j - 1, key);
      TotalMore(cfg, rs[..j - 1], rs[j - 1], key);
      assert rs[..j - 1] + [rs[j - 1]] == rs[..j];
    }
  }

  /** A run in which key 0 spent n tokens at time 0, and nothing else happened. */
  predicate SpentRun(cfg: Config, rs: seq<Request>, n: nat) {
    && Run(cfg, rs) == SpentBuckets(cfg, n) && Reference(cfg, rs) == SpentMemory(cfg, n) && Total(cfg, rs, "") == n
    && StartsAtZero(rs) && (n > 0 ==> rs != [])
  }

  /** The first request is key 0's, and all are at time 0. */
  predicate StartsAtZero(rs: seq<Request>) {
    Ordered(rs) && AllBy(rs, 0.0) && (rs != [] ==> rs[0] == First)
  }

  lemma {:induction false} Spends(cfg: Config, n: nat) returns (rs: seq<Request>)
    requires n <= cfg.burst && cfg.maxKeys >= 1
    ensures SpentRun(cfg, rs, n)
  {
    if n == 0 {
      rs := [];
    } else {
      rs := Spends(cfg, n - 1);
      SpendsAgain(cfg, rs, n);
      rs := rs + [First];
    }
  }

  lemma SpendsAgain(cfg: Config, rs: seq<Request>, n: nat)
    requires 1 <= n <= cfg.burst && cfg.maxKeys >= 1 && SpentRun(cfg, rs, n - 1)
    ensures SpentRun(cfg, rs + [First], n)
  {
    SpendsFrom(cfg, rs, n);
    StartsMore(rs, First);
  }

  lemma SpendsFrom(cfg: Config, rs: seq<Request>, n: nat)
    requires 1 <= n <= cfg.burst && cfg.maxKeys >= 1
    requires Run(cfg, rs) == SpentBuckets(cfg, n - 1) && Reference(cfg, rs) == SpentMemory(cfg, n - 1)
    ensures Run(cfg, rs + [First]) == SpentBuckets(cfg, n) && Reference(cfg, rs + [First]) == SpentMemory(cfg, n)
    ensures Total(cfg, rs + [First], "") == Total(cfg, rs, "") + 1
  {
    SpendOne(cfg, n);
    More(cfg, rs, First);
    TotalMore(cfg, rs, First, "");
  }

  lemma StartsMore(rs: seq<Request>, r: Request)
    requires StartsAtZero(rs) && r.now == 0.0 && (rs == [] ==> r == First)
    ensures StartsAtZero(rs + [r])
  {
  }

  /** Full of keys last seen at time 0, key 0's reference bucket empty. */
  predicate Crowded(m: Buckets, ref: Memory, n: nat) {
    && |m| == n + 1
    && (forall k | k in m :: |k| <= n && m[k].lastSeen == 0.0)
    && "" in ref && ref[""] == Bucket(0.0, 0.0)
  }

  lemma CrowdedMore(cfg: Config, m: Buckets, ref: Memory, n: nat, b: Bucket)
    requires Crowded(m, ref, n) && cfg.burst >= 1 && n + 1 < cfg.maxKeys
    ensures var r := Request(KeyNo(n + 1), 0.0);
      IsTracked(cfg, m, r) && Crowded(Next(cfg, m, r), ref[r.key := b], n + 1)
  {
    var r := Request(KeyNo(n + 1), 0.0);
    NextNew(cfg, m, r);
    assert Next(cfg, m, r).Keys == m.Keys + {r.key};
  }

  /** A run in which key 0 spent its burst, and then keys 1 to n turned up, all at time 0. */
  predicate CrowdRun(cfg: Config, rs: seq<Request>, n: nat) {
    && Crowded(Run(cfg, rs), Reference(cfg, rs), n) && Total(cfg, rs, "") == cfg.burst
    && StartsAtZero(rs) && rs != []
  }

  lemma {:induction false} Crowds(cfg: Config, n: nat) returns (rs: seq<Request>)
    requires cfg.burst >= 1 && n < cfg.maxKeys
    ensures CrowdRun(cfg, rs, n)
  {
    if n == 0 {
      rs := Spends(cfg, cfg.burst);
      assert |SpentBuckets(cfg, cfg.burst)| == 1;
    } else {
      rs := Crowds(cfg, n - 1);
      CrowdGrows(cfg, n, rs, Request(KeyNo(n), 0.0));
      rs := rs + [Request(KeyNo(n), 0.0)];
    }
  }

  lemma CrowdGrows(cfg: Config, n: nat, rs: seq<Request>, r: Request)
    requires cfg.burst >= 1 && 0 < n < cfg.maxKeys && r == Request(KeyNo(n), 0.0) && CrowdRun(cfg, rs, n - 1)
    ensures CrowdRun(cfg, rs + [r], n)
  {
    var b := Left(cfg, Remembered(cfg, Reference(cfg, rs), r), r.now);
    More(cfg, rs, r);
    TotalMore(cfg, rs, r, "");
    CrowdedMore(cfg, Run(cfg, rs), Reference(cfg, rs), n - 1, b);
  }

  /** Key 0 has `spent` tokens less than a fresh bucket here, and than a refilled one in the reference. */
  predicate Apart(cfg: Config, m: Buckets, ref: Memory, now: real, spent: nat) {
    && IsTracked(cfg, m, Request("", now)) && "" in ref
    && Available(cfg, BucketFor(cfg, m, Request("", now)), now) == cfg.burst as real - spent as real
    && Available(cfg, ref[""], now) == Refill(cfg, now) - spent as real >= 0.0
  }

  predicate Parted(cfg: Config, rs: seq<Request>, now: real, spent: nat) {
    Ordered(rs) && AllBy(rs, now) && Apart(cfg, Run(cfg, rs), Reference(cfg, rs), now, spent)
  }

  /** A newcomer that finds the map full of idle keys makes the limiter forget them all. */
  lemma CrowdForgotten(cfg: Config, m: Buckets, ref: Memory, now: real, b: Bucket)
    requires ValidConfig(cfg) && cfg.burst >= 1 && cfg.maxKeys >= 2 && Crowded(m, ref, cfg.maxKeys - 1)
    requires now >= 0.0 && now > cfg.idleTTL && Refill(cfg, now) < cfg.burst as real
    ensures var r := Request(KeyNo(cfg.maxKeys), now);
      IsTracked(cfg, m, r) && Apart(cfg, Next(cfg, m, r), ref[r.key := b], now, 0)
  {
    var r := Request(KeyNo(cfg.maxKeys), now);
    assert Roomed(cfg, m, r) == map[];
    NextNew(cfg, m, r);
    var left := Next(cfg, m, r);
    assert left.Keys == {r.key} && |left| == 1;
    NextNew(cfg, left, Request("", now));
    RefillGrows(cfg, 0.0, now);
    RefillAdds(cfg, 0.0, 0.0);
    assert now - 0.0 == now;
  }

  lemma NewcomerParts(cfg: Config, rs: seq<Request>, now: real)
    requires ValidConfig(cfg) && cfg.burst >= 1 && cfg.maxKeys >= 2
    requires now >= 0.0 && now > cfg.idleTTL && Refill(cfg, now) < cfg.burst as real
    requires Crowded(Run(cfg, rs), Reference(cfg, rs), cfg.maxKeys - 1) && Ordered(rs) && AllBy(rs, 0.0)
    ensures Parted(cfg, rs + [Request(KeyNo(cfg.maxKeys), now)], now, 0)
  {
    var m, ref, r := Run(cfg, rs), Reference(cfg, rs), Request(KeyNo(cfg.maxKeys), now);
    More(cfg, rs, r);
    CrowdForgotten(cfg, m, ref, now, Left(cfg, Remembered(cfg, ref, r), now));
  }

  /** One more request of key 0: both let it through, or the reference refuses it. */
  lemma ApartMore(cfg: Config, m: Buckets, ref: Memory, now: real, spent: nat)
    requires cfg.burst >= 1 && Apart(cfg, m, ref, now, spent) && Refill(cfg, now) < cfg.burst as real
    ensures var r := Request("", now);
      && Decide(cfg, m, r) == Allowed
      && if Refill(cfg, now) - spent as real >= 1.0
         then Apart(cfg, Next(cfg, m, r), ref["" := Left(cfg, ref[""], now)], now, spent + 1)
         else Take(cfg, ref[""], now).1.Refused?
  {
    var r := Request("", now);
    var b := BucketFor(cfg, m, r);
    assert spent < cfg.burst;
    assert Take(cfg, b, now) == (Bucket(cfg.burst as real - spent as real - 1.0, now), Allowed);
    AvailableNow(cfg, cfg.burst as real - spent as real - 1.0, now);
    AvailableNow(cfg, Refill(cfg, now) - spent as real - 1.0, now);
    assert Next(cfg, m, r)[""].bucket == Left(cfg, b, now);
  }

  /** Key 0 is tracked and has `spent` tokens less than its burst. */
  predicate HasSpent(cfg: Config, m: Buckets, now: real, spent: nat) {
    && IsTracked(cfg, m, Request("", now))
    && Available(cfg, BucketFor(cfg, m, Request("", now)), now) == cfg.burst as real - spent as real
  }

  lemma SpendsOne(cfg: Config, m: Buckets, now: real, spent: nat)
    requires HasSpent(cfg, m, now, spent) && spent < cfg.burst
    ensures Granted(cfg, m, Request("", now), "") == 1
    ensures HasSpent(cfg, Next(cfg, m, Request("", now)), now, spent + 1)
  {
    var r := Request("", now);
    assert Take(cfg, BucketFor(cfg, m, r), now) == (Bucket(cfg.burst as real - spent as real - 1.0, now), Allowed);
    AvailableNow(cfg, cfg.burst as real - spent as real - 1.0, now);
  }

  /** It spends the rest of its burst at once. */
  lemma {:induction false} SpendsTheRest(cfg: Config, rs: seq<Request>, now: real, spent: nat) returns (all: seq<Request>)
    requires HasSpent(cfg, Run(cfg, rs), now, spent) && spent < cfg.burst && Ordered(rs) && AllBy(rs, now) && rs != []
    ensures Total(cfg, all, "") == Total(cfg, rs, "") + cfg.burst - spent
    ensures Ordered(all) && all != [] && all[0] == rs[0] && all[|all| - 1].now == now
    decreases cfg.burst - spent
  {
    var r := Request("", now);
    SpendsOne(cfg, Run(cfg, rs), now, spent);
    TotalMore(cfg, rs, r, "");
    More(cfg, rs, r);
    all := rs + [r];
    if spent + 1 < cfg.burst {
      all := SpendsTheRest(cfg, rs + [r], now, spent + 1);
    }
  }

  lemma {:induction false} PartedShows(cfg: Config, rs: seq<Request>, now: real, spent: nat)
    requires ValidConfig(cfg) && cfg.burst >= 1 && Parted(cfg, rs, now, spent) && Refill(cfg, now) < cfg.burst as real
    ensures !Invisible(cfg)
    decreases cfg.burst - spent
  {
    var r := Request("", now);
    ApartMore(cfg, Run(cfg, rs), Reference(cfg, rs), now, spent);
    More(cfg, rs, r);
    if Refill(cfg, now) - spent as real >= 1.0 {
      PartedShows(cfg, rs + [r], now, spent + 1);
    } else {
      assert Ordered(rs + [r]) && !DecidesAlike(cfg, rs, r);
    }
  }

  /** A time past `idle` at which an emptied bucket is not full yet. */
  lemma TooSoon(cfg: Config, idle: real) returns (now: real)
    requires ValidConfig(cfg) && cfg.burst >= 1 && cfg.burst as real > Refill(cfg, idle)
    ensures now >= 0.0 && now > idle && Refill(cfg, now) < cfg.burst as real
  {
    if idle < 0.0 {
      now := 0.0;
      RefillAdds(cfg, 0.0, 0.0);
    } else if cfg.rate == 0.0 {
      now := idle + 1.0;
    } else {
      var full := cfg.burst as real / cfg.rate;
      assert Refill(cfg, full) == cfg.burst as real;
      if full <= idle { RefillGrows(cfg, full, idle); }
      now := (idle + full) / 2.0;
      RefillGrows(cfg, now, full);
    }
  }

  // ---- Room for one key ----

  /** Some key was seen more than the idle time after a forgotten bucket was used. */
  predicate Outlived(cfg: Config, m: Buckets, b: Bucket) {
    exists k | k in m :: m[k].lastSeen - b.last > cfg.idleTTL
  }

  /** Tracked keys agree with the reference, and a forgotten key gave way to one seen an idle time later. */
  predicate AgreesOne(cfg: Config, m: Buckets, ref: Memory, now: real) {
    && |m| <= 1 && m.Keys <= ref.Keys
    && (forall k | k in ref :: SoundBucket(cfg, ref[k], now))
    && (forall k | k in m :: m[k] == Tracked(ref[k], ref[k].last))
    && (forall k | k in ref && k !in m :: Outlived(cfg, m, ref[k]))
  }

  /** A bucket refills within two idle times. */
  predicate RefillsWhileIdleTwice(cfg: Config) { cfg.burst as real <= Refill(cfg, 2.0 * cfg.idleTTL) }

  lemma TwiceIdleIsFull(cfg: Config, b: Bucket, now: real)
    requires ValidConfig(cfg) && RefillsWhileIdleTwice(cfg) && b.tokens >= 0.0 && now - b.last > 2.0 * cfg.idleTTL
    ensures Available(cfg, b, now) == cfg.burst as real
  {
    RefillGrows(cfg, 2.0 * cfg.idleTTL, now - b.last);
  }

  /** With room for one key, a new one is tracked exactly when the key there is idle; then it is alone. */
  lemma OneRoomed(cfg: Config, m: Buckets, r: Request)
    requires cfg.maxKeys == 1 && |m| <= 1 && r.key !in m
    ensures IsTracked(cfg, m, r) <==> forall k | k in m :: Idle(cfg, m[k], r.now)
    ensures IsTracked(cfg, m, r) ==> Roomed(cfg, m, r) == map[]
    ensures !IsTracked(cfg, m, r) ==> Next(cfg, m, r) == m
  {
    if m == map[] {
      assert |m| == 0;
    } else {
      var k :| k in m;
      assert m.Keys == {k} by { OnlyKey(m, k); }
      assert |m| == 1;
      var e := Evicted(cfg, m, r.now);
      if Idle(cfg, m[k], r.now) {
        assert e == map[];
      } else {
        assert e == m;
      }
    }
  }

  lemma OnlyKey(m: Buckets, k: string)
    requires |m| <= 1 && k in m
    ensures m.Keys == {k}
  {
    var rest := m.Keys - {k};
    assert |m.Keys| == |m|;
    assert m.Keys == {k} + rest;
  }

  /** A forgotten key that is tracked again is full again. */
  lemma ForgottenIsFull(cfg: Config, m: Buckets, ref: Memory, r: Request)
    requires ValidConfig(cfg) && RefillsWhileIdleTwice(cfg) && cfg.maxKeys == 1
    requires AgreesOne(cfg, m, ref, r.now) && r.key in ref && r.key !in m && IsTracked(cfg, m, r)
    ensures Available(cfg, ref[r.key], r.now) == cfg.burst as real
  {
    OneRoomed(cfg, m, r);
    var k :| k in m && m[k].lastSeen - ref[r.key].last > cfg.idleTTL;
    assert Idle(cfg, m[k], r.now);
    TwiceIdleIsFull(cfg, ref[r.key], r.now);
  }

  /** The decision and the bucket left are the reference's. */
  lemma OneDecides(cfg: Config, m: Buckets, ref: Memory, r: Request)
    requires ValidConfig(cfg) && RefillsWhileIdleTwice(cfg) && cfg.maxKeys == 1 && cfg.burst >= 1
    requires AgreesOne(cfg, m, ref, r.now) && IsTracked(cfg, m, r)
    ensures Take(cfg, BucketFor(cfg, m, r), r.now) == Take(cfg, Remembered(cfg, ref, r), r.now)
  {
    if r.key in ref && r.key !in m {
      ForgottenIsFull(cfg, m, ref, r);
      FullIsFresh(cfg, ref[r.key], r.now);
    }
  }

  /** A key already there is seen again: what it outlived stays outlived. */
  lemma OneSeenAgain(cfg: Config, m: Buckets, ref: Memory, r: Request, b: Bucket)
    requires AgreesOne(cfg, m, ref, r.now) && r.key in m && SoundBucket(cfg, b, r.now) && b.last == r.now
    ensures AgreesOne(cfg, m[r.key := Tracked(b, r.now)], ref[r.key := b], r.now)
  {
    var m', ref' := m[r.key := Tracked(b, r.now)], ref[r.key := b];
    assert m'.Keys == m.Keys;
    OnlyKey(m, r.key);
    forall k | k in ref' && k !in m'
      ensures Outlived(cfg, m', ref'[k])
    {
      assert Outlived(cfg, m, ref[k]);
      assert m'[r.key].lastSeen - ref'[k].last > cfg.idleTTL;
    }
  }

  /** A new key takes the place of an idle one, which it outlives, and whatever that one outlived. */
  lemma OneReplaced(cfg: Config, m: Buckets, ref: Memory, r: Request, b: Bucket)
    requires cfg.idleTTL >= 0.0 && AgreesOne(cfg, m, ref, r.now) && r.key !in m
    requires forall k | k in m :: Idle(cfg, m[k], r.now)
    requires SoundBucket(cfg, b, r.now) && b.last == r.now
    ensures AgreesOne(cfg, map[r.key := Tracked(b, r.now)], ref[r.key := b], r.now)
  {
    var m', ref' := map[r.key := Tracked(b, r.now)], ref[r.key := b];
    forall k | k in ref' && k !in m'
      ensures Outlived(cfg, m', ref'[k])
    {
      if k in m {
        assert Idle(cfg, m[k], r.now);
      } else {
        var x :| x in m && m[x].lastSeen - ref[k].last > cfg.idleTTL;
        assert Idle(cfg, m[x], r.now);
      }
      assert m'[r.key].lastSeen - ref'[k].last > cfg.idleTTL;
    }
  }

  lemma OneNext(cfg: Config, m: Buckets, ref: Memory, r: Request)
    requires ValidConfig(cfg) && RefillsWhileIdleTwice(cfg) && cfg.maxKeys == 1 && cfg.burst >= 1 && cfg.idleTTL >= 0.0
    requires AgreesOne(cfg, m, ref, r.now) && IsTracked(cfg, m, r)
    ensures AgreesOne(cfg, Next(cfg, m, r), ref[r.key := Left(cfg, Remembered(cfg, ref, r), r.now)], r.now)
  {
    var b := Left(cfg, Remembered(cfg, ref, r), r.now);
    OneDecides(cfg, m, ref, r);
    FreshIsFull(cfg, r.now);
    TakeSound(cfg, Remembered(cfg, ref, r), r.now);
    if r.key in m {
      OneSeenAgain(cfg, m, ref, r, b);
    } else {
      OneRoomed(cfg, m, r);
      OneReplaced(cfg, m, ref, r, b);
    }
  }

  lemma OneRuns(cfg: Config, rs: seq<Request>, r: Request)
    requires ValidConfig(cfg) && RefillsWhileIdleTwice(cfg) && cfg.maxKeys == 1 && cfg.burst >= 1 && cfg.idleTTL >= 0.0
    requires AgreesOne(cfg, Run(cfg, rs), Reference(cfg, rs), r.now)
    ensures AgreesOne(cfg, Run(cfg, rs + [r]), Reference(cfg, rs + [r]), r.now)
  {
    More(cfg, rs, r);
    var m, ref := Run(cfg, rs), Reference(cfg, rs);
    if IsTracked(cfg, m, r) {
      OneNext(cfg, m, ref, r);
    } else {
      OneRoomed(cfg, m, r);
      assert (rs + [r])[..|rs|] == rs;
    }
  }

  lemma {:induction false} OneAgrees(cfg: Config, rs: seq<Request>, now: real)
    requires ValidConfig(cfg) && RefillsWhileIdleTwice(cfg) && cfg.maxKeys == 1 && cfg.burst >= 1 && Ordered(rs)
    requires rs != [] ==> rs[|rs| - 1].now <= now
    ensures AgreesOne(cfg, Run(cfg, rs), Reference(cfg, rs), now)
  {
    if rs != [] {
      var before, r := rs[..|rs| - 1], rs[|rs| - 1];
      IdleIsPositive(cfg);
      OneAgrees(cfg, before, r.now);
      assert rs == before + [r];
      OneRuns(cfg, before, r);
    }
  }

  lemma IdleIsPositive(cfg: Config)
    requires ValidConfig(cfg) && RefillsWhileIdleTwice(cfg) && cfg.burst >= 1
    ensures cfg.idleTTL >= 0.0
  {
    if cfg.idleTTL < 0.0 {
      RefillGrows(cfg, 2.0 * cfg.idleTTL, 0.0);
      RefillAdds(cfg, 0.0, 0.0);
    }
  }

  /** Otherwise a key spends its burst, another takes its place once it is idle, and it comes back once that one is. */
  lemma OneParts(cfg: Config, rs: seq<Request>, now: real)
    requires ValidConfig(cfg) && cfg.burst >= 1 && cfg.maxKeys == 1
    requires now >= 0.0 && now > 2.0 * cfg.idleTTL && Refill(cfg, now) < cfg.burst as real
    requires Run(cfg, rs) == SpentBuckets(cfg, cfg.burst) && Reference(cfg, rs) == SpentMemory(cfg, cfg.burst)
    requires Ordered(rs) && AllBy(rs, 0.0)
    ensures Parted(cfg, rs + [Request(KeyNo(1), now / 2.0)], now, 0)
  {
    var b := Request(KeyNo(1), now / 2.0);
    More(cfg, rs, b);
    OneTakesOver(cfg, now, Left(cfg, Remembered(cfg, Reference(cfg, rs), b), b.now));
  }

  lemma OneTakesOver(cfg: Config, now: real, left: Bucket)
    requires ValidConfig(cfg) && cfg.burst >= 1 && cfg.maxKeys == 1
    requires now >= 0.0 && now > 2.0 * cfg.idleTTL && Refill(cfg, now) < cfg.burst as real
    ensures var b := Request(KeyNo(1), now / 2.0);
      && IsTracked(cfg, SpentBuckets(cfg, cfg.burst), b)
      && Apart(cfg, Next(cfg, SpentBuckets(cfg, cfg.burst), b), SpentMemory(cfg, cfg.burst)[b.key := left], now, 0)
  {
    var b, m := Request(KeyNo(1), now / 2.0), SpentBuckets(cfg, cfg.burst);
    assert m.Keys == {""} && |m| == 1;
    OneRoomed(cfg, m, b);
    NextNew(cfg, m, b);
    var m' := Next(cfg, m, b);
    assert m'.Keys == {b.key} && |m'| == 1;
    OneRoomed(cfg, m', Request("", now));
    NextNew(cfg, m', Request("", now));
    RefillGrows(cfg, 0.0, now);
    RefillAdds(cfg, 0.0, 0.0);
    assert now - 0.0 == now;
  }

  // ---- The exact condition ----

  /** How long a key is away at least before it can be forgotten and tracked again. */
  function Away(cfg: Config): real { if cfg.maxKeys == 1 then 2.0 * cfg.idleTTL else cfg.idleTTL }

  lemma NothingTracked(cfg: Config, rs: seq<Request>, r: Request)
    requires cfg.maxKeys == 0
    ensures !IsTracked(cfg, Run(cfg, rs), r)
  {
    NeverOverfull(cfg, rs);
    assert Run(cfg, rs) == map[];
  }

  lemma OneIsInvisible(cfg: Config, rs: seq<Request>, r: Request)
    requires ValidConfig(cfg) && cfg.maxKeys == 1 && cfg.burst >= 1 && RefillsWhileIdleTwice(cfg)
    requires Ordered(rs + [r]) && IsTracked(cfg, Run(cfg, rs), r)
    ensures Decide(cfg, Run(cfg, rs), r) == Take(cfg, Remembered(cfg, Reference(cfg, rs), r), r.now).1
  {
    assert Ordered(rs) by { assert rs == (rs + [r])[..|rs|]; OrderedPrefix(rs + [r], |rs|); }
    if rs != [] { assert (rs + [r])[|rs| - 1].now <= (rs + [r])[|rs|].now; }
    OneAgrees(cfg, rs, r.now);
    OneDecides(cfg, Run(cfg, rs), Reference(cfg, rs), r);
  }

  /** A bucket refills while its key is away, or there is nothing to refill. */
  predicate RefillsWhileAway(cfg: Config) {
    cfg.maxKeys == 0 || cfg.burst < 1 || cfg.burst as real <= Refill(cfg, Away(cfg))
  }

  /** Otherwise some run has spent a key's burst, forgotten the key, and is about to see it again too soon. */
  lemma PartingRun(cfg: Config) returns (rs: seq<Request>, now: real)
    requires ValidConfig(cfg) && !RefillsWhileAway(cfg)
    ensures now >= 0.0 && Refill(cfg, now) < cfg.burst as real && Parted(cfg, rs, now, 0)
    ensures Total(cfg, rs, "") == cfg.burst && rs != [] && rs[0] == First
  {
    now := TooSoon(cfg, Away(cfg));
    if cfg.maxKeys == 1 {
      rs := Spends(cfg, cfg.burst);
      OneParts(cfg, rs, now);
      TotalMore(cfg, rs, Request(KeyNo(1), now / 2.0), "");
      rs := rs + [Request(KeyNo(1), now / 2.0)];
    } else {
      rs := Crowds(cfg, cfg.maxKeys - 1);
      NewcomerParts(cfg, rs, now);
      TotalMore(cfg, rs, Request(KeyNo(cfg.maxKeys), now), "");
      rs := rs + [Request(KeyNo(cfg.maxKeys), now)];
    }
  }

  lemma EvictionShows(cfg: Config)
    requires ValidConfig(cfg) && !RefillsWhileAway(cfg)
    ensures !Invisible(cfg)
  {
    var rs, now := PartingRun(cfg);
    PartedShows(cfg, rs, now, 0);
  }

  lemma AlikeThen(cfg: Config, rs: seq<Request>, r: Request)
    requires ValidConfig(cfg) && RefillsWhileAway(cfg) && Ordered(rs + [r])
    ensures DecidesAlike(cfg, rs, r)
  {
    if cfg.maxKeys == 0 {
      NothingTracked(cfg, rs, r);
    } else if cfg.burst >= 1 && IsTracked(cfg, Run(cfg, rs), r) {
      if cfg.maxKeys == 1 { OneIsInvisible(cfg, rs, r); } else { EvictionIsInvisible(cfg, rs, r); }
    }
  }

  /**
   The exact condition, for every configuration: eviction is invisible over all runs if and only if nothing is tracked,
   no request is ever allowed, or a bucket refills while its key is away. That is the idle time; with room for one key
   it is twice that, since the key that took the place must be idle too.
   */
  lemma InvisibleExactly(cfg: Config)
    requires ValidConfig(cfg)
    ensures Invisible(cfg) <==> RefillsWhileAway(cfg)
  {
    if !RefillsWhileAway(cfg) {
      EvictionShows(cfg);
    } else {
      forall rs: seq<Request>, r: Request | Ordered(rs + [r])
        ensures DecidesAlike(cfg, rs, r)
      {
        AlikeThen(cfg, rs, r);
      }
    }
  }

  /**
   Rate bound: over any stretch of any run lasting at most `span`, a key's counted requests are granted at
   most burst + rate * span times.
   */
  lemma RateBound(cfg: Config, rs: seq<Request>, i: nat, j: nat, key: string, span: real)
    requires ValidConfig(cfg) && RefillsWhileAway(cfg) && Ordered(rs) && i < j <= |rs|
    requires rs[j - 1].now - rs[i].now <= span
    ensures Grants(cfg, rs, i, j, key) as real <= MostGrants(cfg, span)
  {
    InvisibleExactly(cfg);
    InvisibleBounds(cfg, rs, i, j, key, span);
  }

  predicate BoundedIn(cfg: Config, rs: seq<Request>, i: nat, j: nat, key: string)
    requires i < j <= |rs|
  {
    Grants(cfg, rs, i, j, key) as real <= MostGrants(cfg, rs[j - 1].now - rs[i].now)
  }

  /** Every stretch of every run keeps to the bound. */
  ghost predicate Bounded(cfg: Config) {
    forall rs: seq<Request>, i: nat, j: nat, key: string | Ordered(rs) && i < j <= |rs| :: BoundedIn(cfg, rs, i, j, key)
  }

  /**
   The bound holds over all runs if and only if a bucket refills while its key is away: otherwise a key spends its
   burst, is forgotten, and spends it again.
   */
  lemma RateBoundExactly(cfg: Config)
    requires ValidConfig(cfg)
    ensures Bounded(cfg) <==> RefillsWhileAway(cfg)
  {
    if RefillsWhileAway(cfg) {
      forall rs: seq<Request>, i: nat, j: nat, key: string | Ordered(rs) && i < j <= |rs|
        ensures BoundedIn(cfg, rs, i, j, key)
      {
        RateBound(cfg, rs, i, j, key, rs[j - 1].now - rs[i].now);
      }
    } else {
      var all := OvergrantedRun(cfg);
      assert !BoundedIn(cfg, all, 0, |all|, "");
    }
  }

  lemma OvergrantedRun(cfg: Config) returns (all: seq<Request>)
    requires ValidConfig(cfg) && !RefillsWhileAway(cfg)
    ensures Ordered(all) && all != [] && !BoundedIn(cfg, all, 0, |all|, "")
  {
    var rs, now := PartingRun(cfg);
    all := SpendsTheRest(cfg, rs, now, 0);
    TotalIsGrants(cfg, all, |all|, "");
    assert all[..|all|] == all;
  }
}
