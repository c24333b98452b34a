/**
 The idempotency store as code that updates the table in place. Each statement is a method; the
 requests of other callers run between the statements of `Claim`, as the `others` schedule says.
 The ghost history `steps` ties the store to the protocol: every theorem about runs holds of it.
 */
module IdempotencyStore {
  import opened Basics
  import opened IdempotencyTable
  import opened IdempotencyProtocol

  datatype ClaimError = InvalidArguments | Refusal(reason: Refusal)

  datatype ClaimResult = Locked(token: Bytes) | Stored(response: Response) | Failed(error: ClaimError)

  datatype CompleteResult = Done | LockLost

  // ---- Key and request identities ----

  /** What is hashed into a key's id. */
  function KeyPreimage(scope: Bytes, key: Bytes): Bytes { scope + [NUL] + key }

  function KeyId(hash: Bytes -> Bytes, scope: Bytes, key: Bytes): Bytes { hash(KeyPreimage(scope, key)) }

  function FingerprintPreimage(hash: Bytes -> Bytes, method_: Bytes, target: Bytes, body: Bytes): Bytes {
    method_ + [NUL] + target + [NUL] + hash(body)
  }

  function Fingerprint(hash: Bytes -> Bytes, method_: Bytes, target: Bytes, body: Bytes): Bytes {
    hash(FingerprintPreimage(hash, method_, target, body))
  }

  lemma SplitAtNul(a: Bytes, b: Bytes, a': Bytes, b': Bytes)
    requires a + [NUL] + b == a' + [NUL] + b'
    requires (NUL !in a && NUL !in a') || (NUL !in b && NUL !in b')
    ensures a == a' && b == b'
  {
    var s := a + [NUL] + b;
    assert s[|a|] == NUL && s[|a'|] == NUL;
    assert forall i | 0 <= i < |a| :: s[i] == a[i];
    assert forall i | 0 <= i < |a'| :: s[i] == a'[i];
    assert forall i | |a| < i < |s| :: s[i] == b[i - |a| - 1];
    assert forall i | |a'| < i < |s| :: s[i] == b'[i - |a'| - 1];
    assert |a| == |a'|;
    assert a == s[..|a|] == a';
    assert b == s[|a| + 1..] == b';
  }

  /**
   Callers never share a key: two scope and key pairs with the same id are the same pair, unless the
   hash collides on their preimages. Keys are visible ASCII, so they hold no NUL; scopes may.
   */
  lemma KeyIdsSeparateCallers(hash: Bytes -> Bytes, scope: Bytes, key: Bytes, scope': Bytes, key': Bytes)
    requires NUL !in key && NUL !in key'
    requires KeyId(hash, scope, key) == KeyId(hash, scope', key')
    ensures || (scope == scope' && key == key')
            || (KeyPreimage(scope, key) != KeyPreimage(scope', key')
                && hash(KeyPreimage(scope, key)) == hash(KeyPreimage(scope', key')))
  {
    if KeyPreimage(scope, key) == KeyPreimage(scope', key') {
      SplitAtNul(scope, key, scope', key');
    }
  }

  /**
   Equal fingerprints identify equal requests: either method, target and body are all equal or the
   hash collides, on the bodies or on the fingerprint preimages. Methods and targets hold no NUL.
   */
  lemma FingerprintsIdentifyRequests(
    hash: Bytes -> Bytes, m: Bytes, target: Bytes, body: Bytes, m': Bytes, target': Bytes, body': Bytes)
    requires NUL !in m && NUL !in m' && NUL !in target && NUL !in target'
    requires Fingerprint(hash, m, target, body) == Fingerprint(hash, m', target', body')
    ensures || (m == m' && target == target' && body == body')
            || (body != body' && hash(body) == hash(body'))
            || (FingerprintPreimage(hash, m, target, body) != FingerprintPreimage(hash, m', target', body')
                && hash(FingerprintPreimage(hash, m, target, body)) == hash(FingerprintPreimage(hash, m', target', body')))
  {
    var p, p' := FingerprintPreimage(hash, m, target, body), FingerprintPreimage(hash, m', target', body');
    if p == p' {
      var rest, rest' := target + [NUL] + hash(body), target' + [NUL] + hash(body');
      assert p == m + [NUL] + rest && p' == m' + [NUL] + rest';
      SplitAtNul(m, rest, m', rest');
      SplitAtNul(target, hash(body), target', hash(body'));
    }
  }

  // ---- The store ----

  /** The steps other callers take; none of them acts for `token`. */
  predicate ByOthers(steps: seq<Step>, token: Bytes) {
    forall s | s in steps :: s.Sweep? || s.token != token
  }

  /** How a request stands after `Claim` returned `result`. */
  predicate Agrees(result: ClaimResult, token: Bytes, phase: Phase) {
    match result
    case Locked(t) => t == token && phase == Holding
    case Stored(response) => phase == Replayed(response)
    case Failed(error) => error.Refusal? && phase == Refused(error.reason)
  }

  /** One round of a claim: its clock reading, and what other callers do before each of its two statements. */
  datatype Round = Round(now: int, first: seq<Step>, second: seq<Step>)

  /** What a claim meets: the settings it reads and a round for each of its attempts. */
  datatype Plan = Plan(lockTTL: int, retention: int, rounds: seq<Round>)

  predicate ValidPlan(plan: Plan, token: Bytes) {
    && |plan.rounds| == CLAIM_ATTEMPTS
    && forall i | 0 <= i < |plan.rounds| :: ByOthers(plan.rounds[i].first, token) && ByOthers(plan.rounds[i].second, token)
  }

  /** The steps of a round that wins the key. */
  function WinSteps(token: Bytes, plan: Plan, round: Round): seq<Step> {
    round.first + [TryClaim(token, plan.lockTTL, plan.retention, round.now)]
  }

  /** The steps of a round that does not. */
  function RoundSteps(token: Bytes, plan: Plan, round: Round): seq<Step> {
    WinSteps(token, plan, round) + round.second + [Read(token)]
  }

  /** The first `n` rounds, none of which won. */
  function Rounds(token: Bytes, plan: Plan, n: nat): seq<Step>
    requires n <= |plan.rounds|
  {
    if n == 0 then [] else Rounds(token, plan, n - 1) + RoundSteps(token, plan, plan.rounds[n - 1])
  }

  /** A claim that lost `lost` rounds and then won, or gave up. */
  function ClaimSteps(token: Bytes, plan: Plan, lost: nat, won: bool): seq<Step>
    requires lost <= |plan.rounds| && (won ==> lost < |plan.rounds|)
  {
    Rounds(token, plan, lost) + if won then WinSteps(token, plan, plan.rounds[lost]) else []
  }

  /** How one more round adds up. */
  lemma RoundAdds(begun: seq<Step>, token: Bytes, plan: Plan, n: nat)
    requires n < |plan.rounds|
    ensures var steps := begun + Rounds(token, plan, n);
      && steps + WinSteps(token, plan, plan.rounds[n]) == begun + ClaimSteps(token, plan, n, true)
      && steps + RoundSteps(token, plan, plan.rounds[n]) == begun + ClaimSteps(token, plan, n + 1, false)
      && ClaimSteps(token, plan, n + 1, false) == Rounds(token, plan, n + 1)
  {
  }

  /** No step of `steps` completes or releases for `token`. */
  predicate Keeps(steps: seq<Step>, token: Bytes) {
    forall s | s in steps :: (s.Complete? || s.Release?) ==> s.token != token
  }

  lemma {:induction false} RoundsKeep(token: Bytes, plan: Plan, n: nat)
    requires ValidPlan(plan, token) && n <= |plan.rounds|
    ensures Keeps(Rounds(token, plan, n), token)
  {
    if n > 0 { RoundsKeep(token, plan, n - 1); }
  }

  lemma ClaimKeeps(begin: Step, token: Bytes, plan: Plan, lost: nat, won: bool)
    requires begin.Begin? && ValidPlan(plan, token)
    requires lost <= |plan.rounds| && (won ==> lost < |plan.rounds|)
    ensures Keeps([begin] + ClaimSteps(token, plan, lost, won), token)
  {
    RoundsKeep(token, plan, lost);
  }

  lemma LastClaimWins(steps: seq<Step>, token: Bytes, lockTTL: int, retention: int, now: int)
    requires IsClaiming(Run(steps), token)
    requires var r := Run(steps).requests[token]; ClaimSucceeds(Run(steps).rows, r.id, r.fingerprint, retention, now)
    ensures WinsAt(steps + [TryClaim(token, lockTTL, retention, now)], |steps|, token)
  {
    assert (steps + [TryClaim(token, lockTTL, retention, now)])[..|steps|] == steps;
  }

  predicate SameRequest(a: Request, b: Request) { a.id == b.id && a.fingerprint == b.fingerprint }

  /** The phase after a round that found no row. */
  function AfterRound(attempt: nat): Phase {
    if attempt + 1 < CLAIM_ATTEMPTS then Claiming(attempt + 1) else Refused(StillInProgress)
  }

  class Store {
    var rows: Table
    var requests: map<Bytes, Request>
    ghost var steps: seq<Step>

    ghost predicate Valid()
      reads this
    {
      World(rows, requests) == Run(steps)
    }

    constructor ()
      ensures Valid() && rows == map[] && steps == []
    {
      rows, requests, steps := map[], map[], [];
    }

    ghost method Record(s: Step)
      requires World(rows, requests) == Next(Run(steps), s)
      modifies this`steps
      ensures Valid() && steps == old(steps) + [s]
    {
      assert (steps + [s])[..|steps|] == steps;
      steps := steps + [s];
    }

    /** claimKeySQL for a request in its claiming phase. */
    method ClaimKey(token: Bytes, lockTTL: int, retention: int, now: int) returns (claimed: bool)
      requires Valid() && token in requests && requests[token].phase.Claiming?
      modifies this
      ensures Valid() && steps == old(steps) + [TryClaim(token, lockTTL, retention, now)]
      ensures claimed <==>
        ClaimSucceeds(old(rows), old(requests)[token].id, old(requests)[token].fingerprint, retention, now)
      ensures claimed ==> WinsAt(steps, |old(steps)|, token)
    {
      var r := requests[token];
      if r.id !in rows {
        claimed := true;
      } else {
        var k := rows[r.id];
        var expired := k.createdAt <= now - retention;
        var abandoned := k.status.None? && SqlAtMost(k.lockedUntil, now) && k.fingerprint == r.fingerprint;
        claimed := expired || abandoned;
      }
      if claimed {
        rows := rows[r.id := ClaimedRow(r.fingerprint, token, lockTTL, now)];
        requests := requests[token := r.(phase := Holding)];
      } else {
        requests := requests[token := r.(phase := Reading(r.phase.attempt, retention, now))];
      }
      if claimed {
        LastClaimWins(steps, token, lockTTL, retention, now);
      }
      Record(TryClaim(token, lockTTL, retention, now));
    }

    /** selectKeySQL; the request's phase moves with the row it returned. */
    method SelectKey(token: Bytes) returns (row: Option<Row>)
      requires Valid() && token in requests && requests[token].phase.Reading?
      modifies this
      ensures Valid() && steps == old(steps) + [Read(token)] && rows == old(rows)
      ensures row == if old(requests)[token].id in rows then Some(rows[old(requests)[token].id]) else None
    {
      var r := requests[token];
      row := if r.id in rows then Some(rows[r.id]) else None;
      requests := requests[token := r.(phase := AfterRead(rows, r.id, r.fingerprint, r.phase.attempt))];
      Record(Read(token));
    }

    /** Lock.Complete: done exactly when the token was still in the row. */
    method CompleteLock(token: Bytes, response: Response) returns (result: CompleteResult)
      requires Valid() && token in requests && requests[token].phase.Holding?
      modifies this
      ensures Valid() && steps == old(steps) + [Complete(token, response)]
      ensures result == LockLost <==> Lost(old(World(rows, requests)), token)
      ensures result == LockLost ==> rows == old(rows)
      ensures requests == old(requests)
    {
      var id := requests[token].id;
      var n := 0;
      if id in rows && rows[id].lockToken == Some(token) {
        rows := rows[id := CompletedRow(rows[id], response)];
        n := 1;
      }
      result := if n == 0 then LockLost else Done;
      Record(Complete(token, response));
    }

    /** Lock.Release. */
    method ReleaseLock(token: Bytes)
      requires Valid() && token in requests && requests[token].phase.Holding?
      modifies this
      ensures Valid() && steps == old(steps) + [Release(token)]
      ensures Lost(World(rows, requests), token) && requests == old(requests)
    {
      var id := requests[token].id;
      if id in rows && rows[id].lockToken == Some(token) {
        rows := rows - {id};
      }
      Record(Release(token));
    }

    /** DeleteExpired with the batch the database chose. */
    method DeleteExpired(retention: int, now: int, limit: int, victims: set<Bytes>) returns (deleted: Option<nat>)
      requires Valid()
      requires limit >= 1 ==> OldestExpired(rows, retention, now, limit, victims)
      modifies this
      ensures Valid() && requests == old(requests)
      ensures limit < 1 ==> deleted.None? && rows == old(rows) && steps == old(steps)
      ensures limit >= 1 ==>
        && deleted == Some(|victims|) && deleted.value <= limit
        && steps == old(steps) + [Sweep(retention, now, limit, victims)]
        && (deleted.value < limit ==> forall id | id in rows :: rows[id].createdAt > now - retention)
    {
      if limit < 1 {
        return None;
      }
      SweepIsComplete(World(rows, requests), retention, now, limit, victims);
      rows := rows - victims;
      Record(Sweep(retention, now, limit, victims));
      return Some(|victims|);
    }

    /** Runs one step of another caller, doing nothing when it is not enabled. */
    method Perform(s: Step)
      requires Valid()
      modifies this
      ensures Valid() && steps == old(steps) + [s]
    {
      match s {
        case Begin(token, id, fingerprint) =>
          if token !in requests {
            requests := requests[token := Request(id, fingerprint, Claiming(0))];
          }
          Record(s);
        case TryClaim(token, lockTTL, retention, now) =>
          if token in requests && requests[token].phase.Claiming? {
            var _ := ClaimKey(token, lockTTL, retention, now);
          } else {
            Record(s);
          }
        case Read(token) =>
          if token in requests && requests[token].phase.Reading? {
            var _ := SelectKey(token);
          } else {
            Record(s);
          }
        case Complete(token, response) =>
          if token in requests && requests[token].phase.Holding? {
            var _ := CompleteLock(token, response);
          } else {
            Record(s);
          }
        case Release(token) =>
          if token in requests && requests[token].phase.Holding? {
            ReleaseLock(token);
          } else {
            Record(s);
          }
        case Sweep(retention, now, limit, victims) =>
          if OldestExpired(rows, retention, now, limit, victims) {
            rows := rows - victims;
          }
          Record(s);
      }
    }

    /** Other callers run between two statements; they never move this request. */
    method Interleave(others: seq<Step>, ghost token: Bytes)
      requires Valid() && ByOthers(others, token)
      modifies this
      ensures Valid() && steps == old(steps) + others
      ensures token in old(requests) ==> token in requests && requests[token] == old(requests)[token]
      ensures token !in old(requests) ==> token !in requests
    {
      var i := 0;
      while i < |others|
        invariant 0 <= i <= |others|
        invariant Valid() && steps == old(steps) + others[..i]
        invariant token in old(requests) ==> token in requests && requests[token] == old(requests)[token]
        invariant token !in old(requests) ==> token !in requests
      {
        assert others[i] in others;
        ghost var before := World(rows, requests);
        Perform(others[i]);
        assert World(rows, requests) == Next(before, others[i]) by {
          assert steps[..|steps| - 1] == old(steps) + others[..i];
        }
        assert others[..i + 1] == others[..i] + [others[i]];
        i := i + 1;
      }
      assert others[..i] == others;
    }

    /** One round of Claim: None when the key was released between its two statements. */
    method ClaimRound(token: Bytes, plan: Plan, round: Round, ghost attempt: nat) returns (result: Option<ClaimResult>)
      requires Valid() && token in requests && requests[token].phase == Claiming(attempt)
      requires ByOthers(round.first, token) && ByOthers(round.second, token)
      modifies this
      ensures Valid() && token in requests && SameRequest(requests[token], old(requests)[token])
      ensures result == Some(Locked(token)) ==>
        steps == old(steps) + WinSteps(token, plan, round) && WinsAt(steps, |steps| - 1, token)
      ensures result != Some(Locked(token)) ==> steps == old(steps) + RoundSteps(token, plan, round)
      ensures result.Some? ==> Agrees(result.value, token, requests[token].phase)
      ensures result.None? ==> requests[token].phase == AfterRound(attempt)
    {
      Interleave(round.first, token);
      ghost var before := World(rows, requests);
      ghost var claim := TryClaim(token, plan.lockTTL, plan.retention, round.now);
      var claimed := ClaimKey(token, plan.lockTTL, plan.retention, round.now);
      assert World(rows, requests) == Next(before, claim) by {
        assert steps[..|steps| - 1] + [claim] == steps;
      }
      if claimed {
        return Some(Locked(token));
      }
      result := ReadRound(token, round.second, attempt);
    }

    /** The select of a round whose claim failed. */
    method ReadRound(token: Bytes, second: seq<Step>, ghost attempt: nat) returns (result: Option<ClaimResult>)
      requires Valid() && token in requests && requests[token].phase.Reading? && requests[token].phase.attempt == attempt
      requires ByOthers(second, token)
      modifies this
      ensures Valid() && token in requests && steps == old(steps) + second + [Read(token)]
      ensures SameRequest(requests[token], old(requests)[token])
      ensures result.Some? ==> !result.value.Locked? && Agrees(result.value, token, requests[token].phase)
      ensures result.None? ==> requests[token].phase == AfterRound(attempt)
    {
      Interleave(second, token);
      ghost var before := World(rows, requests);
      var fingerprint := requests[token].fingerprint;
      var row := SelectKey(token);
      assert World(rows, requests) == Next(before, Read(token)) by {
        assert steps[..|steps| - 1] + [Read(token)] == steps;
      }
      if row.None? {
        return None;
      }
      var k := row.value;
      if k.fingerprint != fingerprint {
        return Some(Failed(Refusal(KeyReused)));
      } else if k.status.None? {
        return Some(Failed(Refusal(StillInProgress)));
      }
      var header := if k.header.Some? then k.header.value else map[];
      return Some(Stored(Response(k.status.value, header, if k.body.Some? then k.body.value else [])));
    }

    /**
     Store.Claim. `token` is the random bytes it draws and `plan` what it meets; `lost` counts the rounds it
     did not win.
     */
    method Claim(hash: Bytes -> Bytes, scope: Bytes, key: Bytes, fingerprint: Bytes, token: Bytes, plan: Plan)
      returns (result: ClaimResult, ghost lost: nat)
      requires Valid() && token !in requests && ValidPlan(plan, token)
      modifies this
      ensures Valid() && lost <= CLAIM_ATTEMPTS && (result.Locked? ==> lost < CLAIM_ATTEMPTS)
      ensures result == Failed(InvalidArguments) <==> scope == [] || key == [] || fingerprint == []
      ensures result == Failed(InvalidArguments) ==> steps == old(steps) && rows == old(rows) && requests == old(requests)
      ensures result != Failed(InvalidArguments) ==>
        && steps == old(steps) + [Begin(token, KeyId(hash, scope, key), fingerprint)]
                    + ClaimSteps(token, plan, lost, result.Locked?)
        && token in requests
        && requests[token].id == KeyId(hash, scope, key)
        && requests[token].fingerprint == fingerprint
        && Agrees(result, token, requests[token].phase)
      ensures result.Locked? ==> WinsAt(steps, |steps| - 1, token)
      ensures result.Stored? ==> WasStored(steps, KeyId(hash, scope, key), fingerprint, result.response)
    {
      if scope == [] || key == [] || fingerprint == [] {
        return Failed(InvalidArguments), 0;
      }
      var id := KeyId(hash, scope, key);
      Perform(Begin(token, id, fingerprint));
      assert requests[token] == Request(id, fingerprint, Claiming(0)) by {
        assert steps[..|steps| - 1] == old(steps);
      }
      result, lost := ClaimRounds(token, plan);
      if result.Stored? {
        ReplayIsFaithful(steps, token);
      }
    }

    /** The retry loop, once the request has begun. */
    method ClaimRounds(token: Bytes, plan: Plan) returns (result: ClaimResult, ghost lost: nat)
      requires Valid() && ValidPlan(plan, token) && token in requests && requests[token].phase == Claiming(0)
      modifies this
      ensures Valid() && lost <= CLAIM_ATTEMPTS && (result.Locked? ==> lost < CLAIM_ATTEMPTS)
      ensures steps == old(steps) + ClaimSteps(token, plan, lost, result.Locked?)
      ensures token in requests && SameRequest(requests[token], old(requests)[token])
      ensures Agrees(result, token, requests[token].phase)
      ensures result.Locked? ==> WinsAt(steps, |steps| - 1, token)
    {
      var round := 0;
      while round < CLAIM_ATTEMPTS
        invariant 0 <= round <= CLAIM_ATTEMPTS
        invariant Valid() && steps == old(steps) + Rounds(token, plan, round)
        invariant token in requests && SameRequest(requests[token], old(requests)[token])
        invariant requests[token].phase == if round == 0 then Claiming(0) else AfterRound(round - 1)
      {
        RoundAdds(old(steps), token, plan, round);
        var found := ClaimRound(token, plan, plan.rounds[round], round);
        if found.Some? {
          var won := found.value.Locked?;
          return found.value, if won then round else round + 1;
        }
        round := round + 1;
      }
      return Failed(Refusal(StillInProgress)), CLAIM_ATTEMPTS;
    }
  }
}
