/**
 Every interleaving of requests using idempotency keys. A request is identified by the random
 token its claim drew; its phase is the program counter of `Store.Claim` and, once the claim
 returned, what it returned. A run is any sequence of steps: a step that is not enabled does
 nothing, so no sequence is excluded. A crashed request is one that takes no further step.
 */
module IdempotencyProtocol {
  import opened Basics
  import opened IdempotencyTable

  const CLAIM_ATTEMPTS := 3

  datatype Refusal = KeyReused | StillInProgress

  datatype Phase =
    | Claiming(attempt: nat)
    | Reading(attempt: nat, retention: int, now: int) // the arguments of the claim that failed
    | Holding
    | Replayed(response: Response)
    | Refused(reason: Refusal)

  datatype Request = Request(id: Bytes, fingerprint: Bytes, phase: Phase)

  datatype World = World(rows: Table, requests: map<Bytes, Request>)

  datatype Step =
    | Begin(token: Bytes, id: Bytes, fingerprint: Bytes)
    | TryClaim(token: Bytes, lockTTL: int, retention: int, now: int)
    | Read(token: Bytes)
    | Complete(token: Bytes, response: Response)
    | Release(token: Bytes)
    | Sweep(retention: int, now: int, limit: nat, victims: set<Bytes>)

  const Initial := World(map[], map[])

  /** What `Claim` decides from the row its select returned. */
  function Decide(row: Row, fingerprint: Bytes): Phase {
    if row.fingerprint != fingerprint then Refused(KeyReused)
    else if row.status.None? then Refused(StillInProgress)
    else Replayed(Response(
                    row.status.value,
                    if row.header.Some? then row.header.value else map[],
                    if row.body.Some? then row.body.value else []))
  }

  /** The phase after the select of round `attempt`. */
  function AfterRead(rows: Table, id: Bytes, fingerprint: Bytes, attempt: nat): Phase {
    if id in rows then Decide(rows[id], fingerprint)
    else if attempt + 1 < CLAIM_ATTEMPTS then Claiming(attempt + 1)
    else Refused(StillInProgress)
  }

  predicate IsClaiming(w: World, token: Bytes) {
    token in w.requests && w.requests[token].phase.Claiming?
  }

  predicate IsReading(w: World, token: Bytes) {
    token in w.requests && w.requests[token].phase.Reading?
  }

  predicate IsHolding(w: World, token: Bytes) {
    token in w.requests && w.requests[token].phase.Holding?
  }

  function Next(w: World, s: Step): World {
    match s
    case Begin(token, id, fingerprint) =>
      if token in w.requests then w
      else w.(requests := w.requests[token := Request(id, fingerprint, Claiming(0))])
    case TryClaim(token, lockTTL, retention, now) =>
      if !IsClaiming(w, token) then w
      else
        var r := w.requests[token];
        var won := ClaimSucceeds(w.rows, r.id, r.fingerprint, retention, now);
        World(
          ClaimKey(w.rows, r.id, r.fingerprint, token, lockTTL, retention, now),
          w.requests[token := r.(phase := if won then Holding else Reading(r.phase.attempt, retention, now))])
    case Read(token) =>
      if !IsReading(w, token) then w
      else
        var r := w.requests[token];
        w.(requests := w.requests[token := r.(phase := AfterRead(w.rows, r.id, r.fingerprint, r.phase.attempt))])
    case Complete(token, response) =>
      if !IsHolding(w, token) then w
      else w.(rows := CompleteKey(w.rows, w.requests[token].id, token, response))
    case Release(token) =>
      if !IsHolding(w, token) then w
      else w.(rows := ReleaseKey(w.rows, w.requests[token].id, token))
    case Sweep(retention, now, limit, victims) =>
      if OldestExpired(w.rows, retention, now, limit, victims) then w.(rows := w.rows - victims) else w
  }

  function Run(steps: seq<Step>): World {
    if steps == [] then Initial else Next(Run(steps[..|steps| - 1]), steps[|steps| - 1])
  }

  /** The world just before step `i`. */
  function At(steps: seq<Step>, i: nat): World
    requires i <= |steps|
  {
    Run(steps[..i])
  }

  lemma Unfold(steps: seq<Step>, i: nat)
    requires i < |steps|
    ensures At(steps, i + 1) == Next(At(steps, i), steps[i])
  {
    assert steps[..i + 1][..i] == steps[..i];
  }

  lemma Prefix(steps: seq<Step>, n: nat, i: nat)
    requires i <= n <= |steps|
    ensures At(steps[..n], i) == At(steps, i)
  {
    assert steps[..n][..i] == steps[..i];
  }

  // ---- Reachable tables ----

  predicate SoundRow(w: World, id: Bytes)
    requires id in w.rows
  {
    var row := w.rows[id];
    && (InProgress(row) || Completed(row))
    && (row.lockToken.Some? ==>
          && IsHolding(w, row.lockToken.value)
          && w.requests[row.lockToken.value].id == id
          && w.requests[row.lockToken.value].fingerprint == row.fingerprint)
  }

  predicate Sound(w: World) {
    forall id | id in w.rows :: SoundRow(w, id)
  }

  lemma NextSound(w: World, s: Step)
    requires Sound(w)
    ensures Sound(Next(w, s))
  {
    var w' := Next(w, s);
    forall id | id in w'.rows
      ensures SoundRow(w', id)
    {
      if id in w.rows { assert SoundRow(w, id); }
    }
  }

  /**
   Fencing: in every reachable table a row is either in progress (token and deadline, no
   response) or completed (response, no token), and its token belongs to a request holding
   a lock on that very key, so no token is in two rows.
   */
  lemma {:induction false} ReachableIsSound(steps: seq<Step>)
    ensures Sound(Run(steps))
    ensures forall id | id in Run(steps).rows :: InProgress(Run(steps).rows[id]) != Completed(Run(steps).rows[id])
    ensures forall id, id', token ::
      Holds(Run(steps).rows, id, token) && Holds(Run(steps).rows, id', token) ==> id == id'
  {
    if steps != [] {
      ReachableIsSound(steps[..|steps| - 1]);
      NextSound(Run(steps[..|steps| - 1]), steps[|steps| - 1]);
    }
    var w := Run(steps);
    forall id, id', token | Holds(w.rows, id, token) && Holds(w.rows, id', token)
      ensures id == id'
    {
      assert SoundRow(w, id) && SoundRow(w, id');
    }
  }

  /** A request keeps its key and fingerprint, and a granted lock is never revoked from it. */
  lemma {:induction false} RequestsPersist(steps: seq<Step>, i: nat, j: nat, token: Bytes)
    requires i <= j <= |steps|
    requires token in At(steps, i).requests
    ensures token in At(steps, j).requests
    ensures At(steps, j).requests[token].id == At(steps, i).requests[token].id
    ensures At(steps, j).requests[token].fingerprint == At(steps, i).requests[token].fingerprint
    ensures IsHolding(At(steps, i), token) ==> IsHolding(At(steps, j), token)
    decreases j - i
  {
    if i < j {
      Unfold(steps, i);
      RequestsPersist(steps, i + 1, j, token);
    }
  }

  /** The lock of `token` no longer holds its key. */
  predicate Lost(w: World, token: Bytes) {
    IsHolding(w, token) && !Holds(w.rows, w.requests[token].id, token)
  }

  /**
   Once a lock has lost its key it never gets it back, and in every later state its Complete
   and Release leave the whole world unchanged (Complete matches no row: ErrLockLost).
   */
  lemma {:induction false} LostForever(steps: seq<Step>, i: nat, j: nat, token: Bytes, response: Response)
    requires i <= j <= |steps|
    requires Lost(At(steps, i), token)
    ensures Lost(At(steps, j), token)
    ensures Next(At(steps, j), Complete(token, response)) == At(steps, j)
    ensures Next(At(steps, j), Release(token)) == At(steps, j)
    decreases j - i
  {
    if i < j {
      Unfold(steps, i);
      LostForever(steps, i + 1, j, token, response);
    }
  }

  /** Step `i` releases key `id` while its own token is in the row. */
  predicate FreesAt(steps: seq<Step>, i: nat, id: Bytes) {
    && i < |steps| && steps[i].Release?
    && IsHolding(At(steps, i), steps[i].token)
    && At(steps, i).requests[steps[i].token].id == id
    && Holds(At(steps, i).rows, id, steps[i].token)
  }

  /**
   A holder's release frees exactly its own key, and for good: until another claim wins it, whatever else happens,
   the key has no row, and the next claim of it wins whatever clock it reads.
   */
  lemma {:induction false} ReleaseFrees(steps: seq<Step>, i: nat, j: nat, id: Bytes)
    requires FreesAt(steps, i, id) && i < j <= |steps|
    requires forall m, other | i < m < j && ClaimsKeyAt(steps, m, id) :: !WinsAt(steps, m, other)
    ensures At(steps, i + 1).rows == At(steps, i).rows - {id}
    ensures id !in At(steps, j).rows
    ensures ClaimsKeyAt(steps, j, id) ==> WinsAt(steps, j, steps[j].token)
    decreases j
  {
    Unfold(steps, i);
    if j > i + 1 {
      ReleaseFrees(steps, i, j - 1, id);
      Unfold(steps, j - 1);
      assert !ClaimsKeyAt(steps, j - 1, id);
    }
  }

  // ---- Replays ----

  /** Step `j` stores `response` for `id` while its own token is in the row. */
  predicate StoresAt(steps: seq<Step>, j: nat, id: Bytes, fingerprint: Bytes, response: Response) {
    && j < |steps|
    && steps[j].Complete?
    && steps[j].response == response
    && IsHolding(At(steps, j), steps[j].token)
    && At(steps, j).requests[steps[j].token].id == id
    && At(steps, j).requests[steps[j].token].fingerprint == fingerprint
    && Holds(At(steps, j).rows, id, steps[j].token)
  }

  ghost predicate WasStored(steps: seq<Step>, id: Bytes, fingerprint: Bytes, response: Response) {
    exists j: nat :: StoresAt(steps, j, id, fingerprint, response)
  }

  lemma StoredExtends(steps: seq<Step>, n: nat, id: Bytes, fingerprint: Bytes, response: Response)
    requires n <= |steps| && WasStored(steps[..n], id, fingerprint, response)
    ensures WasStored(steps, id, fingerprint, response)
  {
    var j: nat :| StoresAt(steps[..n], j, id, fingerprint, response);
    Prefix(steps, n, j);
    assert StoresAt(steps, j, id, fingerprint, response);
  }

  ghost predicate RowJustified(steps: seq<Step>, id: Bytes)
    requires id in Run(steps).rows
  {
    var row := Run(steps).rows[id];
    Completed(row) ==> WasStored(steps, id, row.fingerprint, ResponseOf(row))
  }

  lemma {:induction false} CompletedRowsWereStored(steps: seq<Step>)
    ensures forall id | id in Run(steps).rows :: RowJustified(steps, id)
  {
    if steps != [] {
      var n := |steps| - 1;
      CompletedRowsWereStored(steps[..n]);
      ReachableIsSound(steps[..n]);
      var w, w' := Run(steps[..n]), Run(steps);
      forall id | id in w'.rows
        ensures RowJustified(steps, id)
      {
        if id in w.rows && w'.rows[id] == w.rows[id] {
          assert RowJustified(steps[..n], id);
          if Completed(w.rows[id]) {
            StoredExtends(steps, n, id, w.rows[id].fingerprint, ResponseOf(w.rows[id]));
          }
        } else if Completed(w'.rows[id]) {
          assert SoundRow(w, id);
          assert StoresAt(steps, n, id, w'.rows[id].fingerprint, ResponseOf(w'.rows[id]));
        }
      }
    }
  }

  /**
   Replay safety, over every interleaving: a response replayed to a request is exactly one that
   an earlier request passed to Complete for the same key and the same fingerprint while that
   request's token was in the row.
   */
  lemma {:induction false} ReplayIsFaithful(steps: seq<Step>, token: Bytes)
    requires token in Run(steps).requests && Run(steps).requests[token].phase.Replayed?
    ensures var r := Run(steps).requests[token];
            WasStored(steps, r.id, r.fingerprint, r.phase.response)
  {
    var n := |steps| - 1;
    var w := Run(steps[..n]);
    var r := Run(steps).requests[token];
    if token in w.requests && w.requests[token].phase.Replayed? {
      ReplayIsFaithful(steps[..n], token);
      StoredExtends(steps, n, r.id, r.fingerprint, r.phase.response);
    } else {
      CompletedRowsWereStored(steps[..n]);
      ReachableIsSound(steps[..n]);
      assert SoundRow(w, r.id) && RowJustified(steps[..n], r.id);
      StoredExtends(steps, n, r.id, r.fingerprint, r.phase.response);
    }
  }

  // ---- Exclusion ----

  /** Step `i` is a claim statement of `token` that took the key. */
  predicate WinsAt(steps: seq<Step>, i: nat, token: Bytes) {
    && i < |steps|
    && steps[i].TryClaim? && steps[i].token == token
    && IsClaiming(At(steps, i), token)
    && var r := At(steps, i).requests[token];
       ClaimSucceeds(At(steps, i).rows, r.id, r.fingerprint, steps[i].retention, steps[i].now)
  }

  /** Step `i` claims key `id`, whoever it is for and whether or not it wins. */
  predicate ClaimsKeyAt(steps: seq<Step>, i: nat, id: Bytes) {
    && i < |steps|
    && steps[i].TryClaim?
    && IsClaiming(At(steps, i), steps[i].token)
    && At(steps, i).requests[steps[i].token].id == id
  }

  /** Step `i` reads a clock at which a row of `id` stamped `created` has outlived its retention. */
  predicate ReadsExpiryAt(steps: seq<Step>, i: nat, id: Bytes, created: int) {
    && i < |steps|
    && (ClaimsKeyAt(steps, i, id) || steps[i].Sweep?)
    && steps[i].now >= created + steps[i].retention
  }

  /** Step `i` claims `id` for the holder's own fingerprint at a reading past the holder's deadline. */
  predicate ReadsDeadlineAt(steps: seq<Step>, i: nat, id: Bytes, fingerprint: Bytes, deadline: int) {
    && ClaimsKeyAt(steps, i, id)
    && At(steps, i).requests[steps[i].token].fingerprint == fingerprint
    && steps[i].now >= deadline
  }

  /** Step `i` is the holder's own Complete or Release. */
  predicate GivesUpAt(steps: seq<Step>, i: nat, token: Bytes) {
    i < |steps| && (steps[i].Complete? || steps[i].Release?) && steps[i].token == token
  }

  /** Step `m` does nothing that may end the hold won at step `i`. */
  predicate LeavesHoldAt(steps: seq<Step>, i: nat, m: nat, token: Bytes)
    requires WinsAt(steps, i, token)
  {
    var r := At(steps, i).requests[token];
    && !GivesUpAt(steps, m, token)
    && !ReadsExpiryAt(steps, m, r.id, steps[i].now)
    && !ReadsDeadlineAt(steps, m, r.id, r.fingerprint, steps[i].now + steps[i].lockTTL)
  }

  /**
   Exclusion while in progress: between a winning claim stamped `t` and step `j`, if the holder
   has not given up, no claim of the key and no cleanup read a clock at or past t + its own
   retention, and no claim with the holder's fingerprint read one at or past t + lockTTL, then the
   row is untouched and every other claim of the key in between failed, and a claim at `j` wins
   exactly when it does read such a clock. Readings need not be ordered. In particular a claim with
   another fingerprint can end the hold only past t + retention.
   */
  lemma {:induction false} HoldExcludes(steps: seq<Step>, i: nat, j: nat, token: Bytes)
    requires WinsAt(steps, i, token) && i < j <= |steps|
    requires forall m | i < m < j :: LeavesHoldAt(steps, i, m, token)
    ensures var r := At(steps, i).requests[token];
      && HeldAt(steps, i, j, token)
      && (forall m, other | i < m < j && ClaimsKeyAt(steps, m, r.id) :: !WinsAt(steps, m, other))
      && (ClaimsKeyAt(steps, j, r.id) ==>
            (WinsAt(steps, j, steps[j].token) <==>
             || ReadsExpiryAt(steps, j, r.id, steps[i].now)
             || ReadsDeadlineAt(steps, j, r.id, r.fingerprint, steps[i].now + steps[i].lockTTL)))
    decreases j
  {
    if j == i + 1 {
      Unfold(steps, i);
    } else {
      HoldExcludes(steps, i, j - 1, token);
      assert LeavesHoldAt(steps, i, j - 1, token);
      HoldKept(steps, i, j - 1, token);
    }
    HoldDecides(steps, i, j, token);
  }

  /** The row a winning claim at step `i` left is there before step `m`. */
  predicate HeldAt(steps: seq<Step>, i: nat, m: nat, token: Bytes)
    requires WinsAt(steps, i, token) && m <= |steps|
  {
    var r := At(steps, i).requests[token];
    r.id in At(steps, m).rows && At(steps, m).rows[r.id] == ClaimedRow(r.fingerprint, token, steps[i].lockTTL, steps[i].now)
  }

  lemma HoldKept(steps: seq<Step>, i: nat, m: nat, token: Bytes)
    requires WinsAt(steps, i, token) && i < m < |steps| && HeldAt(steps, i, m, token) && LeavesHoldAt(steps, i, m, token)
    ensures HeldAt(steps, i, m + 1, token)
  {
    Unfold(steps, m);
  }

  lemma HoldDecides(steps: seq<Step>, i: nat, j: nat, token: Bytes)
    requires WinsAt(steps, i, token) && i < j <= |steps| && HeldAt(steps, i, j, token)
    ensures var r := At(steps, i).requests[token];
      ClaimsKeyAt(steps, j, r.id) ==>
        (WinsAt(steps, j, steps[j].token) <==>
         || ReadsExpiryAt(steps, j, r.id, steps[i].now)
         || ReadsDeadlineAt(steps, j, r.id, r.fingerprint, steps[i].now + steps[i].lockTTL))
  {
  }

  /**
   Exclusion once completed: from a Complete that stored a response for a row stamped `t` until
   step `j`, if no claim of the key and no cleanup read a clock at or past t + its own retention,
   then the completed row is untouched whatever anyone else did (its own holder included), no
   claim of the key ran in between, and a retry deciding at `j` gets exactly that response.
   */
  lemma {:induction false} CompletionExcludes(
    steps: seq<Step>, i: nat, j: nat, id: Bytes, fingerprint: Bytes, response: Response)
    requires StoresAt(steps, i, id, fingerprint, response) && i < j <= |steps|
    requires forall m | i < m < j :: !ReadsExpiryAt(steps, m, id, At(steps, i).rows[id].createdAt)
    ensures id in At(steps, j).rows
    ensures At(steps, j).rows[id] == CompletedRow(At(steps, i).rows[id], response)
    ensures forall m, other | i < m < j && ClaimsKeyAt(steps, m, id) :: !WinsAt(steps, m, other)
    ensures ClaimsKeyAt(steps, j, id) ==>
      (WinsAt(steps, j, steps[j].token) <==> ReadsExpiryAt(steps, j, id, At(steps, i).rows[id].createdAt))
    ensures Decide(At(steps, j).rows[id], fingerprint) == Replayed(response)
    ensures forall fp | fp != fingerprint :: Decide(At(steps, j).rows[id], fp) == Refused(KeyReused)
    decreases j
  {
    if j == i + 1 {
      CompletionStored(steps, i, id, fingerprint, response);
    } else {
      CompletionExcludes(steps, i, j - 1, id, fingerprint, response);
      assert !ReadsExpiryAt(steps, j - 1, id, At(steps, i).rows[id].createdAt);
      CompletionKept(steps, i, j - 1, id, response);
    }
    CompletionDecides(steps, i, j, id, fingerprint, response);
  }

  /** The row a Complete at step `i` left is there before step `m`. */
  predicate CompletedAt(steps: seq<Step>, i: nat, m: nat, id: Bytes, response: Response)
    requires i <= m <= |steps| && id in At(steps, i).rows
  {
    id in At(steps, m).rows && At(steps, m).rows[id] == CompletedRow(At(steps, i).rows[id], response)
  }

  lemma CompletionStored(steps: seq<Step>, i: nat, id: Bytes, fingerprint: Bytes, response: Response)
    requires StoresAt(steps, i, id, fingerprint, response)
    ensures CompletedAt(steps, i, i + 1, id, response) && At(steps, i).rows[id].fingerprint == fingerprint
  {
    ReachableIsSound(steps[..i]);
    assert SoundRow(At(steps, i), id);
    Unfold(steps, i);
  }

  lemma CompletionKept(steps: seq<Step>, i: nat, m: nat, id: Bytes, response: Response)
    requires i < m < |steps| && id in At(steps, i).rows && CompletedAt(steps, i, m, id, response)
    requires !ReadsExpiryAt(steps, m, id, At(steps, i).rows[id].createdAt)
    ensures CompletedAt(steps, i, m + 1, id, response)
  {
    Unfold(steps, m);
  }

  lemma CompletionDecides(steps: seq<Step>, i: nat, j: nat, id: Bytes, fingerprint: Bytes, response: Response)
    requires i < j <= |steps| && StoresAt(steps, i, id, fingerprint, response) && CompletedAt(steps, i, j, id, response)
    ensures ClaimsKeyAt(steps, j, id) ==>
      (WinsAt(steps, j, steps[j].token) <==> ReadsExpiryAt(steps, j, id, At(steps, i).rows[id].createdAt))
    ensures Decide(At(steps, j).rows[id], fingerprint) == Replayed(response)
    ensures forall fp | fp != fingerprint :: Decide(At(steps, j).rows[id], fp) == Refused(KeyReused)
  {
    CompletionStored(steps, i, id, fingerprint, response);
  }

  // ---- Refusals ----

  /** A request with another token won key `id`; `fingerprint` is the one it won it for. */
  ghost predicate WonByAnother(steps: seq<Step>, token: Bytes, id: Bytes, fingerprint: Bytes) {
    exists i: nat, other :: WinsKeyAt(steps, i, other, token, id, fingerprint)
  }

  predicate WinsKeyAt(steps: seq<Step>, i: nat, other: Bytes, token: Bytes, id: Bytes, fingerprint: Bytes) {
    && other != token
    && WinsAt(steps, i, other)
    && At(steps, i).requests[other].id == id
    && At(steps, i).requests[other].fingerprint == fingerprint
  }

  lemma WonExtends(steps: seq<Step>, n: nat, token: Bytes, id: Bytes, fingerprint: Bytes)
    requires n <= |steps| && WonByAnother(steps[..n], token, id, fingerprint)
    ensures WonByAnother(steps, token, id, fingerprint)
  {
    var i: nat, other :| WinsKeyAt(steps[..n], i, other, token, id, fingerprint);
    Prefix(steps, n, i);
    assert WinsKeyAt(steps, i, other, token, id, fingerprint);
  }

  /** Every row was claimed by some request for the row's fingerprint; a request without a lock was not it. */
  lemma {:induction false} RowsWereWon(steps: seq<Step>, token: Bytes, id: Bytes)
    requires id in Run(steps).rows && !IsHolding(Run(steps), token)
    ensures WonByAnother(steps, token, id, Run(steps).rows[id].fingerprint)
  {
    var n := |steps| - 1;
    var w, w', s := Run(steps[..n]), Run(steps), steps[n];
    if id in w.rows && w'.rows[id].fingerprint == w.rows[id].fingerprint {
      RowsWereWon(steps[..n], token, id);
      WonExtends(steps, n, token, id, w.rows[id].fingerprint);
    } else {
      assert WinsKeyAt(steps, n, s.token, token, id, w'.rows[id].fingerprint);
    }
  }

  /** The request has met someone else's row. */
  predicate Met(phase: Phase) {
    phase == Refused(StillInProgress) || phase.Reading? || (phase.Claiming? && phase.attempt > 0)
  }

  lemma {:induction false} MeetingsHaveCause(steps: seq<Step>, token: Bytes)
    requires token in Run(steps).requests && Met(Run(steps).requests[token].phase)
    ensures exists fp :: WonByAnother(steps, token, Run(steps).requests[token].id, fp)
  {
    var n := |steps| - 1;
    var w := Run(steps[..n]);
    var r := Run(steps).requests[token];
    if token in w.requests && Met(w.requests[token].phase) {
      MeetingsHaveCause(steps[..n], token);
      var fp :| WonByAnother(steps[..n], token, r.id, fp);
      WonExtends(steps, n, token, r.id, fp);
    } else {
      RowsWereWon(steps[..n], token, r.id);
      WonExtends(steps, n, token, r.id, w.rows[r.id].fingerprint);
    }
  }

  lemma {:induction false} ReusesHaveCause(steps: seq<Step>, token: Bytes)
    requires token in Run(steps).requests && Run(steps).requests[token].phase == Refused(KeyReused)
    ensures exists fp :: fp != Run(steps).requests[token].fingerprint
                         && WonByAnother(steps, token, Run(steps).requests[token].id, fp)
  {
    var n := |steps| - 1;
    var w := Run(steps[..n]);
    var r := Run(steps).requests[token];
    if token in w.requests && w.requests[token].phase == Refused(KeyReused) {
      ReusesHaveCause(steps[..n], token);
      var fp :| fp != r.fingerprint && WonByAnother(steps[..n], token, r.id, fp);
      WonExtends(steps, n, token, r.id, fp);
    } else {
      RowsWereWon(steps[..n], token, r.id);
      WonExtends(steps, n, token, r.id, w.rows[r.id].fingerprint);
    }
  }

  /**
   No spurious refusal: a request told the key was reused really met a claim of the same key for a
   different fingerprint, and one told the key is in progress (also after three rounds of a key
   that kept changing hands) really met a claim of the same key by another request.
   */
  lemma RefusalsHaveCause(steps: seq<Step>, token: Bytes)
    requires token in Run(steps).requests
    ensures var r := Run(steps).requests[token];
      && (r.phase == Refused(KeyReused) ==>
            exists fp :: fp != r.fingerprint && WonByAnother(steps, token, r.id, fp))
      && (r.phase == Refused(StillInProgress) ==> exists fp :: WonByAnother(steps, token, r.id, fp))
  {
    if Run(steps).requests[token].phase == Refused(KeyReused) {
      ReusesHaveCause(steps, token);
    } else if Run(steps).requests[token].phase == Refused(StillInProgress) {
      MeetingsHaveCause(steps, token);
    }
  }

  // ---- Rounds ----

  /** A claim never runs more than three rounds. */
  lemma {:induction false} ThreeRounds(steps: seq<Step>, token: Bytes)
    requires IsClaiming(Run(steps), token) || IsReading(Run(steps), token)
    ensures Run(steps).requests[token].phase.attempt < 3
  {
    var w := Run(steps[..|steps| - 1]);
    if IsClaiming(w, token) || IsReading(w, token) {
      ThreeRounds(steps[..|steps| - 1], token);
    }
  }

  /**
   A key released between a round's two statements is claimed again: the request goes on to the next round, whose
   claim wins if the key is still free then; only the third round ends with a key in progress.
   */
  lemma ReleasedIsClaimedAgain(steps: seq<Step>, token: Bytes, lockTTL: int, retention: int, now: int)
    requires IsReading(Run(steps), token) && Run(steps).requests[token].id !in Run(steps).rows
    ensures var w := Next(Run(steps), Read(token));
      if Run(steps).requests[token].phase.attempt < 2
      then IsClaiming(w, token) && IsHolding(Next(w, TryClaim(token, lockTTL, retention, now)), token)
      else token in w.requests && w.requests[token].phase == Refused(StillInProgress)
  {
    ThreeRounds(steps, token);
  }

  // ---- The two statements of a round act as one ----

  /** A claim as its documentation describes it: one indivisible look at the row. */
  function AtomicClaim(rows: Table, id: Bytes, fingerprint: Bytes, retention: int, now: int): Phase {
    if ClaimSucceeds(rows, id, fingerprint, retention, now) then Holding
    else Decide(rows[id], fingerprint)
  }

  /** Step `i` is a claim statement of `token` that did not take the key. */
  predicate FailsAt(steps: seq<Step>, i: nat, token: Bytes) {
    && i < |steps|
    && steps[i].TryClaim? && steps[i].token == token
    && IsClaiming(At(steps, i), token)
    && !WinsAt(steps, i, token)
  }

  /** No select of `token` between step `i` and step `j`. */
  predicate Unread(steps: seq<Step>, i: nat, j: nat, token: Bytes)
    requires j <= |steps|
  {
    forall m | i < m < j :: steps[m] != Read(token)
  }

  lemma NextKeepsReading(w: World, s: Step, token: Bytes)
    requires IsReading(w, token) && s != Read(token)
    ensures token in Next(w, s).requests && Next(w, s).requests[token] == w.requests[token]
  {
  }

  /** From a failed claim until its select, the request keeps what the claim read. */
  lemma {:induction false} ReadingStays(steps: seq<Step>, i: nat, j: nat, token: Bytes)
    requires FailsAt(steps, i, token) && i < j <= |steps| && Unread(steps, i, j, token)
    ensures IsReading(At(steps, j), token)
    ensures var r, q := At(steps, j).requests[token], At(steps, i).requests[token];
      && r.id == q.id && r.fingerprint == q.fingerprint
      && r.phase == Reading(q.phase.attempt, steps[i].retention, steps[i].now)
    decreases j
  {
    Unfold(steps, j - 1);
    if j > i + 1 {
      ReadingStays(steps, i, j - 1, token);
      NextKeepsReading(At(steps, j - 1), steps[j - 1], token);
    }
  }

  /** Every request that is about to select has such a claim behind it. */
  lemma {:induction false} ReadingHasClaim(steps: seq<Step>, token: Bytes) returns (i: nat)
    requires IsReading(Run(steps), token)
    ensures FailsAt(steps, i, token) && Unread(steps, i, |steps|, token)
  {
    var n := |steps| - 1;
    var w := Run(steps[..n]);
    if IsReading(w, token) {
      i := ReadingHasClaim(steps[..n], token);
      Prefix(steps, n, i);
      assert forall m | 0 <= m < n :: steps[..n][m] == steps[m];
    } else {
      i := n;
    }
  }

  // ---- Where a row comes from ----

  /** The step is a claim that takes key `id`. */
  predicate Takes(w: World, s: Step, id: Bytes) {
    && s.TryClaim? && IsClaiming(w, s.token) && w.requests[s.token].id == id
    && ClaimSucceeds(w.rows, id, w.requests[s.token].fingerprint, s.retention, s.now)
  }

  /** The step stores a response under key `id`. */
  predicate Stores(w: World, s: Step, id: Bytes) {
    s.Complete? && IsHolding(w, s.token) && w.requests[s.token].id == id && Holds(w.rows, id, s.token)
  }

  lemma RowStep(w: World, s: Step, id: Bytes)
    requires id in Next(w, s).rows
    ensures Takes(w, s, id) ==>
      Next(w, s).rows[id] == ClaimedRow(w.requests[s.token].fingerprint, s.token, s.lockTTL, s.now)
    ensures !Takes(w, s, id) ==>
      && id in w.rows
      && Next(w, s).rows[id] == if Stores(w, s, id) then CompletedRow(w.rows[id], s.response) else w.rows[id]
  {
  }

  predicate TakesAt(steps: seq<Step>, m: nat, id: Bytes) { m < |steps| && Takes(At(steps, m), steps[m], id) }

  predicate StoresIdAt(steps: seq<Step>, m: nat, id: Bytes) { m < |steps| && Stores(At(steps, m), steps[m], id) }

  /** The last claim of `id` to win between steps `i` and `j` is step `m`. */
  predicate LastTakenAt(steps: seq<Step>, i: nat, j: nat, m: nat, id: Bytes) {
    i < m < j && TakesAt(steps, m, id) && forall n: nat | m < n < j :: !TakesAt(steps, n, id)
  }

  predicate Untaken(steps: seq<Step>, i: nat, j: nat, id: Bytes) {
    forall n: nat | i < n < j :: !TakesAt(steps, n, id)
  }

  ghost predicate StoredIn(steps: seq<Step>, i: nat, j: nat, id: Bytes) {
    exists c: nat :: i < c < j && StoresIdAt(steps, c, id)
  }

  /** The row before step `j` is what the claim at step `m` left, perhaps completed since. */
  ghost predicate FromClaim(steps: seq<Step>, m: nat, j: nat, id: Bytes)
    requires TakesAt(steps, m, id) && j <= |steps| && id in At(steps, j).rows
  {
    var row := At(steps, j).rows[id];
    && row.createdAt == steps[m].now
    && row.fingerprint == At(steps, m).requests[steps[m].token].fingerprint
    && (row.status.None? <==> !StoredIn(steps, m, j, id))
    && (row.status.None? ==> row.lockedUntil == Some(steps[m].now + steps[m].lockTTL))
  }

  /** The row before step `j` is the one before step `i`, perhaps completed since. */
  predicate FromBefore(steps: seq<Step>, i: nat, j: nat, id: Bytes)
    requires i <= j <= |steps| && id in At(steps, j).rows
  {
    && id in At(steps, i).rows
    && At(steps, j).rows[id].createdAt == At(steps, i).rows[id].createdAt
    && (At(steps, j).rows[id] == At(steps, i).rows[id] || At(steps, j).rows[id].status.Some?)
  }

  /** The last claim to win since step `i`, at `m`, left the row; or none did, `m` is `i` and it is the row of step `i`. */
  ghost predicate Source(steps: seq<Step>, i: nat, j: nat, m: nat, id: Bytes)
    requires i <= j <= |steps| && id in At(steps, j).rows
  {
    if m == i then Untaken(steps, i, j, id) && FromBefore(steps, i, j, id)
    else LastTakenAt(steps, i, j, m, id) && FromClaim(steps, m, j, id)
  }

  lemma {:induction false} RowHasSource(steps: seq<Step>, i: nat, j: nat, id: Bytes) returns (m: nat)
    requires i < j <= |steps| && id in At(steps, j).rows && !TakesAt(steps, i, id)
    ensures Source(steps, i, j, m, id)
    decreases j
  {
    if j == i + 1 {
      m := i;
      BeforeLasts(steps, i, i, id);
    } else if TakesAt(steps, j - 1, id) {
      m := j - 1;
      ClaimLeaves(steps, m, id);
    } else {
      RowWasThere(steps, j - 1, id);
      m := RowHasSource(steps, i, j - 1, id);
      SourceNext(steps, i, j - 1, m, id);
    }
  }

  lemma RowWasThere(steps: seq<Step>, j: nat, id: Bytes)
    requires j < |steps| && id in At(steps, j + 1).rows && !TakesAt(steps, j, id)
    ensures id in At(steps, j).rows
  {
    Unfold(steps, j);
    RowStep(At(steps, j), steps[j], id);
  }

  lemma SourceNext(steps: seq<Step>, i: nat, j: nat, m: nat, id: Bytes)
    requires i < j < |steps| && id in At(steps, j).rows && Source(steps, i, j, m, id)
    requires !TakesAt(steps, j, id) && id in At(steps, j + 1).rows
    ensures Source(steps, i, j + 1, m, id)
  {
    if m == i {
      BeforeLasts(steps, i, j, id);
    } else {
      SourceLasts(steps, m, j, id);
    }
  }

  lemma ClaimLeaves(steps: seq<Step>, m: nat, id: Bytes)
    requires TakesAt(steps, m, id)
    ensures id in At(steps, m + 1).rows && FromClaim(steps, m, m + 1, id)
  {
    Unfold(steps, m);
    RowStep(At(steps, m), steps[m], id);
  }

  lemma BeforeLasts(steps: seq<Step>, i: nat, j: nat, id: Bytes)
    requires i <= j < |steps| && !TakesAt(steps, j, id) && id in At(steps, j + 1).rows
    requires id in At(steps, j).rows ==> FromBefore(steps, i, j, id)
    ensures FromBefore(steps, i, j + 1, id)
  {
    Unfold(steps, j);
    RowStep(At(steps, j), steps[j], id);
  }

  lemma SourceLasts(steps: seq<Step>, m: nat, j: nat, id: Bytes)
    requires m < j < |steps| && TakesAt(steps, m, id) && id in At(steps, j).rows && FromClaim(steps, m, j, id)
    requires !TakesAt(steps, j, id) && id in At(steps, j + 1).rows
    ensures FromClaim(steps, m, j + 1, id)
  {
    Unfold(steps, j);
    RowStep(At(steps, j), steps[j], id);
    if StoredIn(steps, m, j, id) {
      var c: nat :| m < c < j && StoresIdAt(steps, c, id);
      assert StoredIn(steps, m, j + 1, id);
    }
    if StoresIdAt(steps, j, id) {
      assert StoredIn(steps, m, j + 1, id);
    } else if StoredIn(steps, m, j + 1, id) {
      var c: nat :| m < c < j + 1 && StoresIdAt(steps, c, id);
      assert StoredIn(steps, m, j, id);
    }
  }

  // ---- When a round decides as one statement would ----

  /**
   The claim at step `m` reads a clock so far behind the round's that its row is already there for the round to take: by
   the round's retention, or, for the same fingerprint and unless it completed before step `j`, by its own lock TTL.
   */
  ghost predicate LagsBehind(steps: seq<Step>, i: nat, m: nat, j: nat, token: Bytes)
    requires FailsAt(steps, i, token) && m < |steps| && steps[m].TryClaim? && steps[m].token in At(steps, m).requests
  {
    var r := At(steps, i).requests[token];
    || steps[m].now <= steps[i].now - steps[i].retention
    || (&& steps[m].now + steps[m].lockTTL <= steps[i].now
        && At(steps, m).requests[steps[m].token].fingerprint == r.fingerprint
        && !StoredIn(steps, m, j, r.id))
  }

  /** Some claim took the key between the round's two statements, was the last to, and lags behind the round. */
  ghost predicate Overtaken(steps: seq<Step>, i: nat, j: nat, token: Bytes)
    requires FailsAt(steps, i, token)
  {
    exists m: nat :: LastTakenAt(steps, i, j, m, At(steps, i).requests[token].id) && LagsBehind(steps, i, m, j, token)
  }

  /** The row a round selects is one its claim could have taken exactly when it was overtaken. */
  lemma TakeableExactly(steps: seq<Step>, i: nat, j: nat, token: Bytes)
    requires FailsAt(steps, i, token) && i < j <= |steps| && At(steps, i).requests[token].id in At(steps, j).rows
    ensures var r := At(steps, i).requests[token];
      Claimable(At(steps, j).rows[r.id], r.fingerprint, steps[i].retention, steps[i].now) <==> Overtaken(steps, i, j, token)
  {
    var r := At(steps, i).requests[token];
    var m := RowHasSource(steps, i, j, r.id);
    if Overtaken(steps, i, j, token) {
      var n: nat :| LastTakenAt(steps, i, j, n, r.id) && LagsBehind(steps, i, n, j, token);
      assert n == m;
    }
    if m != i && Claimable(At(steps, j).rows[r.id], r.fingerprint, steps[i].retention, steps[i].now) {
      assert LastTakenAt(steps, i, j, m, r.id) && LagsBehind(steps, i, m, j, token);
    }
  }

  /**
   A round claims and selects in two statements with anything in between. What it decides from a row equals one atomic
   claim at the instant of the select with the round's own clock reading, if and only if the last claim to
   take the key in between does not lag behind that reading by the retention or, still in progress for the same
   fingerprint, by its lock TTL. Readings may otherwise be in any order. (A select that finds no row retries, and after
   the third such round reports a key in progress.)
   */
  lemma RoundIsAtomicExactly(steps: seq<Step>, i: nat, j: nat, token: Bytes)
    requires FailsAt(steps, i, token) && i < j <= |steps| && Unread(steps, i, j, token)
    requires At(steps, i).requests[token].id in At(steps, j).rows
    ensures var r, w := At(steps, i).requests[token], At(steps, j);
      token in Next(w, Read(token)).requests &&
      (Next(w, Read(token)).requests[token].phase == AtomicClaim(w.rows, r.id, r.fingerprint, steps[i].retention, steps[i].now)
       <==> !Overtaken(steps, i, j, token))
  {
    ReadingStays(steps, i, j, token);
    TakeableExactly(steps, i, j, token);
  }

  /** Claims of the round's key in between read clocks less than its retention, and less than their own lock TTL, behind the round's. */
  predicate NoneLags(steps: seq<Step>, i: nat, j: nat, id: Bytes)
    requires i < |steps| && steps[i].TryClaim?
  {
    forall m: nat | i < m < j && ClaimsKeyAt(steps, m, id) ::
      steps[m].now > steps[i].now - steps[i].retention && steps[m].now + steps[m].lockTTL > steps[i].now
  }

  /** So a round is atomic whenever no claim of its key in between lags that far. */
  lemma RoundIsAtomic(steps: seq<Step>, i: nat, j: nat, token: Bytes)
    requires FailsAt(steps, i, token) && i < j <= |steps| && Unread(steps, i, j, token)
    requires At(steps, i).requests[token].id in At(steps, j).rows
    requires NoneLags(steps, i, j, At(steps, i).requests[token].id)
    ensures var r, w := At(steps, i).requests[token], At(steps, j);
      && token in Next(w, Read(token)).requests
      && Next(w, Read(token)).requests[token].phase == AtomicClaim(w.rows, r.id, r.fingerprint, steps[i].retention, steps[i].now)
  {
    RoundIsAtomicExactly(steps, i, j, token);
    if Overtaken(steps, i, j, token) {
      var m: nat :| LastTakenAt(steps, i, j, m, At(steps, i).requests[token].id) && LagsBehind(steps, i, m, j, token);
      assert ClaimsKeyAt(steps, m, At(steps, i).requests[token].id);
    }
  }

  /** Clock readings never go back, and lock TTLs and retentions are positive. */
  predicate OrderlyClocks(steps: seq<Step>) {
    && (forall i | 0 <= i < |steps| && steps[i].TryClaim? :: steps[i].lockTTL > 0 && steps[i].retention > 0)
    && (forall i, j | 0 <= i < j < |steps| && steps[i].TryClaim? && steps[j].TryClaim? :: steps[i].now <= steps[j].now)
  }

  /** With clocks in order none ever lags: then no request ever selects a row it could have taken. */
  lemma StaysUntakeable(steps: seq<Step>, token: Bytes)
    requires OrderlyClocks(steps) && IsReading(Run(steps), token) && Run(steps).requests[token].id in Run(steps).rows
    ensures var r := Run(steps).requests[token];
      !Claimable(Run(steps).rows[r.id], r.fingerprint, r.phase.retention, r.phase.now)
  {
    var i := ReadingHasClaim(steps, token);
    assert steps[..|steps|] == steps;
    ReadingStays(steps, i, |steps|, token);
    TakeableExactly(steps, i, |steps|, token);
  }

  lemma RunMore(steps: seq<Step>, s: Step)
    ensures Run(steps + [s]) == Next(Run(steps), s)
  {
    assert (steps + [s])[..|steps|] == steps;
  }

  const A: Bytes := [1]
  const B: Bytes := [2]
  const C: Bytes := [3]
  const ID: Bytes := [4]
  const FP: Bytes := [5]

  /** B holds the key when A claims it at 100. */
  const MEETING: seq<Step> := [Begin(A, ID, FP), Begin(B, ID, FP), TryClaim(B, 5, 10, 100), TryClaim(A, 5, 10, 100)]

  lemma Meets()
    ensures var w := Run(MEETING);
      && w.requests == map[A := Request(ID, FP, Reading(0, 10, 100)), B := Request(ID, FP, Holding)]
      && Holds(w.rows, ID, B)
  {
    assert A != B;
    assert [] + [MEETING[0]] == MEETING[..1] && MEETING[..1] + [MEETING[1]] == MEETING[..2];
    assert MEETING[..2] + [MEETING[2]] == MEETING[..3] && MEETING[..3] + [MEETING[3]] == MEETING;
    RunMore([], MEETING[0]);
    RunMore(MEETING[..1], MEETING[1]);
    RunMore(MEETING[..2], MEETING[2]);
    RunMore(MEETING[..3], MEETING[3]);
  }

  /**
   With a clock set back it can differ: between the two statements of A's round, which read 100, B releases the key and
   C claims it at 0, and A reports a key in progress that it could have taken.
   */
  lemma ClockSetBack()
    ensures var w := Run(MEETING + [Release(B)] + [Begin(C, ID, FP)] + [TryClaim(C, 5, 10, 0)]);
      && IsReading(w, A) && ID in w.rows && Claimable(w.rows[ID], FP, 10, 100)
      && Next(w, Read(A)).requests[A].phase == Refused(StillInProgress)
  {
    assert A != B && B != C && A != C;
    Meets();
    RunMore(MEETING, Release(B));
    RunMore(MEETING + [Release(B)], Begin(C, ID, FP));
    RunMore(MEETING + [Release(B)] + [Begin(C, ID, FP)], TryClaim(C, 5, 10, 0));
  }

  // ---- Cleanup ----

  /** A cleanup that deletes fewer keys than its limit leaves no expired key behind. */
  lemma SweepIsComplete(w: World, retention: int, now: int, limit: nat, victims: set<Bytes>)
    requires OldestExpired(w.rows, retention, now, limit, victims)
    ensures |victims| < limit ==>
      var rows := Next(w, Sweep(retention, now, limit, victims)).rows;
      forall id | id in rows :: rows[id].createdAt > now - retention
    ensures forall v | v in victims :: v in w.rows && w.rows[v].createdAt <= now - retention
    ensures |victims| <= limit && Next(w, Sweep(retention, now, limit, victims)).rows.Keys == w.rows.Keys - victims
    ensures forall v, e | v in victims && e in w.rows && e !in victims && w.rows[e].createdAt <= now - retention ::
      v in w.rows && w.rows[v].createdAt <= w.rows[e].createdAt
    ensures forall id | id in w.rows && id !in victims ::
      && id in Next(w, Sweep(retention, now, limit, victims)).rows
      && Next(w, Sweep(retention, now, limit, victims)).rows[id] == w.rows[id]
  {
    var expired := Expired(w.rows, retention, now);
    if |victims| < limit {
      assert |expired - victims| == |expired| - |victims| by {
        assert expired == victims + (expired - victims);
      }
      assert expired - victims == {};
    }
  }
}
