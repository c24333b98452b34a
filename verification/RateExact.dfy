/**
 The rate limiter gives as much as it may: a request is refused only when granting it would break the bound, and one that
 finds no room for its key is let through.
 */
module RateExact {
  import opened Basics
  import opened RateLimiter
  import opened RateEviction

  // ---- Failing open ----

  /** The keys used recently enough to be kept. */
  function Recent(cfg: Config, m: Buckets, now: real): set<string> {
    set k | k in m && now - m[k].lastSeen <= cfg.idleTTL
  }

  /**
   Failing open: a request goes uncounted exactly when its key is new and the keys in recent use take all the room, and then
   it is allowed and at most idle buckets are lost.
   */
  lemma FailsOpen(cfg: Config, m: Buckets, r: Request)
    requires |m| <= cfg.maxKeys
    ensures IsTracked(cfg, m, r) <==> r.key in m || |Recent(cfg, m, r.now)| < cfg.maxKeys
    ensures !IsTracked(cfg, m, r) ==> Decide(cfg, m, r) == Allowed && r.key !in Next(cfg, m, r)
    ensures r.key in Next(cfg, m, r) <==> IsTracked(cfg, m, r)
    ensures forall k | k != r.key :: k in Next(cfg, m, r) ==> k in m && Next(cfg, m, r)[k] == m[k]
    ensures forall k | k in m && (k in Recent(cfg, m, r.now) || r.key in m || |m| < cfg.maxKeys) :: k in Next(cfg, m, r)
  {
    var e := Evicted(cfg, m, r.now);
    assert e.Keys == Recent(cfg, m, r.now);
    SubsetSize(e.Keys, m.Keys);
  }

  // ---- Refusing only at the bound ----

  /** The bucket of `key` was full when request i came, and every token that left it since was granted. */
  predicate Since(cfg: Config, rs: seq<Request>, key: string, i: nat) {
    && i < |rs| && rs[i].key == key && key in Run(cfg, rs)
    && SinceHolds(cfg, Run(cfg, rs)[key].bucket, rs[i].now, Grants(cfg, rs, i, |rs|, key))
  }

  predicate SinceHolds(cfg: Config, b: Bucket, start: real, granted: nat) {
    b.tokens == cfg.burst as real + Refill(cfg, b.last) - Refill(cfg, start) - granted as real
  }

  lemma FullThen(cfg: Config, b: Bucket, now: real)
    requires cfg.burst >= 1 && Available(cfg, b, now) == cfg.burst as real
    ensures Allows(cfg, b, now) && SinceHolds(cfg, Left(cfg, b, now), now, 1)
  {
  }

  lemma SpentThen(cfg: Config, b: Bucket, start: real, granted: nat, now: real)
    requires cfg.burst >= 1 && Available(cfg, b, now) < cfg.burst as real && SinceHolds(cfg, b, start, granted)
    ensures SinceHolds(cfg, Left(cfg, b, now), start, granted + if Allows(cfg, b, now) then 1 else 0)
    ensures Available(cfg, b, now) == cfg.burst as real + Refill(cfg, now) - Refill(cfg, start) - granted as real
  {
    RefillBetween(cfg, b.last, now);
  }

  lemma {:induction false} GrantsMore(cfg: Config, rs: seq<Request>, r: Request, i: nat, j: nat, key: string)
    requires j <= |rs|
    ensures Grants(cfg, rs + [r], i, j, key) == Grants(cfg, rs, i, j, key)
  {
    if i < j {
      GrantsMore(cfg, rs, r, i, j - 1, key);
      assert (rs + [r])[..j - 1] == rs[..j - 1];
    }
  }

  lemma GrantsNext(cfg: Config, rs: seq<Request>, r: Request, i: nat, key: string)
    requires i <= |rs|
    ensures Grants(cfg, rs + [r], i, |rs| + 1, key) == Grants(cfg, rs, i, |rs|, key) + Granted(cfg, Run(cfg, rs), r, key)
  {
    GrantsMore(cfg, rs, r, i, |rs|, key);
    assert (rs + [r])[..|rs|] == rs;
  }

  lemma RunMore(cfg: Config, rs: seq<Request>, r: Request)
    ensures Run(cfg, rs + [r]) == Next(cfg, Run(cfg, rs), r)
  {
    assert (rs + [r])[..|rs|] == rs;
  }

  /** A tracked bucket was full at some request of its key, and has given what was granted since. */
  lemma {:induction false} HasOrigin(cfg: Config, rs: seq<Request>, key: string) returns (i: nat)
    requires cfg.burst >= 1 && key in Run(cfg, rs)
    ensures Since(cfg, rs, key, i)
    decreases |rs|, 0
  {
    var before, r := rs[..|rs| - 1], rs[|rs| - 1];
    assert rs == before + [r];
    RunMore(cfg, before, r);
    if r.key == key {
      i := OriginAt(cfg, before, r);
    } else {
      i := HasOrigin(cfg, before, key);
      GrantsNext(cfg, before, r, i, key);
    }
  }

  lemma OriginAt(cfg: Config, before: seq<Request>, r: Request) returns (i: nat)
    requires cfg.burst >= 1 && r.key in Run(cfg, before + [r])
    ensures Since(cfg, before + [r], r.key, i)
    decreases |before|, 1
  {
    RunMore(cfg, before, r);
    var b := BucketFor(cfg, Run(cfg, before), r);
    if Available(cfg, b, r.now) == cfg.burst as real {
      i := |before|;
      FullThen(cfg, b, r.now);
    } else {
      FreshIsFull(cfg, r.now);
      i := HasOrigin(cfg, before, r.key);
      SpentThen(cfg, b, before[i].now, Grants(cfg, before, i, |before|, r.key), r.now);
    }
    GrantsNext(cfg, before, r, i, r.key);
  }

  /** One more grant is more than the burst and what refills over a time. */
  predicate Exceeds(cfg: Config, granted: nat, dt: real) {
    granted as real + 1.0 > cfg.burst as real + cfg.rate * dt
  }

  /** One more grant to r's key would be too many since request i. */
  predicate AtTheBound(cfg: Config, rs: seq<Request>, r: Request, i: nat) {
    && i < |rs| && rs[i].key == r.key
    && Exceeds(cfg, Grants(cfg, rs, i, |rs|, r.key), r.now - rs[i].now)
  }

  lemma RefusedThen(cfg: Config, b: Bucket, start: real, granted: nat, now: real)
    requires cfg.burst >= 1 && !Allows(cfg, b, now) && SinceHolds(cfg, b, start, granted)
    ensures Exceeds(cfg, granted, now - start)
  {
    SpentThen(cfg, b, start, granted, now);
    RefillBetween(cfg, start, now);
  }

  /**
   No refusal too early, whatever was evicted: a counted request is refused only when, since some
   earlier request of its key, one more grant would exceed the burst plus the rate times the time passed.
   */
  lemma RefusedAtTheBound(cfg: Config, rs: seq<Request>, r: Request) returns (i: nat)
    requires cfg.burst >= 1 && Decide(cfg, Run(cfg, rs), r).Refused?
    ensures AtTheBound(cfg, rs, r, i)
  {
    FreshIsFull(cfg, r.now);
    i := HasOrigin(cfg, rs, r.key);
    RefusedThen(cfg, Run(cfg, rs)[r.key].bucket, rs[i].now, Grants(cfg, rs, i, |rs|, r.key), r.now);
  }

  lemma WithinThen(cfg: Config, granted: nat, dt: real)
    requires cfg.burst >= 1 && (granted + 1) as real <= MostGrants(cfg, dt)
    ensures !Exceeds(cfg, granted, dt)
  {
  }

  lemma AllowedWithin(cfg: Config, rs: seq<Request>, r: Request, i: nat, dt: real)
    requires ValidConfig(cfg) && RefillsWhileAway(cfg) && cfg.burst >= 1 && Ordered(rs + [r])
    requires i < |rs| && dt == r.now - rs[i].now
    requires Granted(cfg, Run(cfg, rs), r, r.key) == 1
    ensures (Grants(cfg, rs, i, |rs|, r.key) + 1) as real <= MostGrants(cfg, dt)
  {
    GrantsNext(cfg, rs, r, i, r.key);
    RateBound(cfg, rs + [r], i, |rs| + 1, r.key, dt);
  }

  /**
   The limiter exactly: where eviction cannot show, a counted request is refused if and only if granting it would break the
   rate bound on some stretch of its key's requests.
   */
  lemma RefusedExactly(cfg: Config, rs: seq<Request>, r: Request)
    requires ValidConfig(cfg) && RefillsWhileAway(cfg) && cfg.burst >= 1 && Ordered(rs + [r])
    requires IsTracked(cfg, Run(cfg, rs), r)
    ensures Decide(cfg, Run(cfg, rs), r).Refused? <==> exists i: nat :: AtTheBound(cfg, rs, r, i)
  {
    if Decide(cfg, Run(cfg, rs), r).Refused? {
      var i := RefusedAtTheBound(cfg, rs, r);
    } else if i: nat :| AtTheBound(cfg, rs, r, i) {
      GrantedIsAllowed(cfg, Run(cfg, rs), r, r.key);
      AllowedWithin(cfg, rs, r, i, r.now - rs[i].now);
      WithinThen(cfg, Grants(cfg, rs, i, |rs|, r.key), r.now - rs[i].now);
    }
  }
}
