/** The middleware around a handler: `serve` runs or replays a request whose key is known. */
module IdempotencyMiddleware {
  import opened Basics
  import opened Http
  import opened IdempotencyTable
  import opened IdempotencyProtocol
  import opened IdempotencyStore
  import opened IdempotencyRecorder

  const MAX_KEY_LENGTH := 255

  // ---- Keys ----

  /** validKey: 1 to 255 visible ASCII characters. */
  method ValidKey(key: Bytes) returns (ok: bool)
    ensures ok <==> 1 <= |key| <= 255 && forall c | c in key :: 0x21 <= c <= 0x7e
    ensures ok ==> NUL !in key
  {
    if key == [] || |key| > MAX_KEY_LENGTH {
      return false;
    }
    for i := 0 to |key|
      invariant forall n | 0 <= n < i :: 0x21 <= key[n] <= 0x7e
    {
      if key[i] < 0x21 || key[i] > 0x7e {
        assert key[i] in key;
        return false;
      }
    }
    return true;
  }

  // ---- serve ----

  /** A handler: what it calls on its writer, whether it then panics, whether it asked not to be stored. */
  datatype Handler = Handler(calls: seq<Call>, panics: bool, dontStore: bool)

  /** What `serve` did with a request. */
  datatype Served =
    | Ran(sent: seq<Sent>)
    | Answered(stored: Response, sent: seq<Sent>)
    | Problem(status: int)

  method RunHandler(rec: Recorder, calls: seq<Call>)
    requires rec.Valid() && rec.calls == [] && ValidCalls(calls)
    modifies rec
    ensures rec.Valid() && rec.calls == calls
  {
    for i := 0 to |calls|
      invariant rec.Valid() && rec.calls == calls[..i]
    {
      assert calls[i] in calls && calls[..i + 1] == calls[..i] + [calls[i]];
      match calls[i] {
        case SetHeaders(h) => rec.ChangeHeaders(h);
        case WriteHeader(code) => rec.WriteHeader(code);
        case Write(b) => rec.Write(b);
        case Flush => rec.FlushUnderneath();
        case Hijack(ok) => rec.HijackUnderneath(ok);
      }
    }
    assert calls[..|calls|] == calls;
  }

  /** A replayed response's headers: the stored ones, the mark of a replay, and what outer middleware set besides. */
  predicate ReplayedHeader(h: Header, outer: Header, stored: Header) {
    && h.Keys == outer.Keys + stored.Keys + {"Idempotent-Replayed"}
    && h["Idempotent-Replayed"] == ["true"]
    && (forall name | name in stored && name != "Idempotent-Replayed" :: h[name] == stored[name])
    && (forall name | name in outer && name !in stored && name != "Idempotent-Replayed" :: h[name] == outer[name])
  }

  /** The calls that replay a response: its status and then its body, with those headers. */
  predicate Replays(sent: seq<Sent>, outer: Header, stored: Response) {
    && |sent| == 2 && sent[0].SentHeader? && sent[1].SentBody? && sent[0].header == sent[1].header
    && ReplayedHeader(sent[0].header, outer, stored.header)
    && sent[0].code == stored.status && sent[1].b == stored.body
  }

  /** Copies the stored headers one by one, marks the replay and writes the response. */
  method Replay(outer: Header, stored: Response) returns (sent: seq<Sent>)
    ensures Replays(sent, outer, stored)
  {
    var h := outer;
    var names := stored.header.Keys;
    while names != {}
      invariant names <= stored.header.Keys && h.Keys == outer.Keys + (stored.header.Keys - names)
      invariant forall name | name in stored.header && name !in names :: h[name] == stored.header[name]
      invariant forall name | name in outer && (name in names || name !in stored.header) :: h[name] == outer[name]
      decreases names
    {
      var name :| name in names;
      h := h[name := stored.header[name]];
      names := names - {name};
    }
    h := h["Idempotent-Replayed" := ["true"]];
    sent := [SentHeader(h, stored.status), SentBody(h, stored.body)];
  }

  /** Outer middleware sets none of the replayed headers, and no encoding, beyond what was stored. */
  predicate AddsNothing(outer: Header, stored: Header) {
    forall name | name in outer && name !in stored ::
      && name != "Content-Type" && name != "Location" && name != "Etag"
      && name != "Content-Encoding" && name != "Transfer-Encoding"
  }

  /**
   What a replay's client gets: always the stored status, and the stored body if the status has one; and, unless outer
   middleware adds replayed headers or an encoding of its own, exactly what a retry is said to get.
   */
  lemma ReplayDelivers(sent: seq<Sent>, outer: Header, stored: Response, detect: Bytes -> string)
    requires Replays(sent, outer, stored) && stored.status >= 200
    ensures Delivered(sent).status == Some(stored.status) && !Delivered(sent).hijacked
    ensures Delivered(sent).body == if BodyAllowed(stored.status) then stored.body else []
    ensures AddsNothing(outer, stored.header) ==> ResponseSeen(Delivered(sent), detect) == RetrySees(stored, detect)
  {
    TwoCalls(sent[0].header, stored);
    assert sent == [SentHeader(sent[0].header, stored.status), SentBody(sent[0].header, stored.body)];
    TwoCalls(stored.header, stored);
    if AddsNothing(outer, stored.header) {
      SameReplayed(sent[0].header, outer, stored, detect);
    }
  }

  lemma TwoCalls(h: Header, stored: Response)
    requires stored.status >= 200
    ensures var lead := if BodyAllowed(stored.status) then stored.body else [];
      Delivered([SentHeader(h, stored.status), SentBody(h, stored.body)])
      == Exchange(Some(stored.status), h, lead, lead, false, false)
  {
    var first, second := SentHeader(h, stored.status), SentBody(h, stored.body);
    DeliveredMore([], first);
    DeliveredMore([first], second);
    assert [] + [first] == [first] && [first] + [second] == [first, second];
    assert [] + stored.body == stored.body;
  }

  lemma SameKept(h: Header, outer: Header, stored: Header)
    requires ReplayedHeader(h, outer, stored) && AddsNothing(outer, stored)
    ensures Replayable(h) == Replayable(stored)
  {
    forall name
      ensures name in Replayable(h) <==> name in Replayable(stored)
    {
      ReplayableExactly(h, name);
      ReplayableExactly(stored, name);
    }
  }

  lemma SameReplayed(h: Header, outer: Header, stored: Response, detect: Bytes -> string)
    requires ReplayedHeader(h, outer, stored.header) && AddsNothing(outer, stored.header)
    ensures forall chunk: Bytes :: Guess(h, stored.status, chunk, detect) == Guess(stored.header, stored.status, chunk, detect)
    ensures forall t: Option<string> :: Replayable(WithType(h, t)) == Replayable(WithType(stored.header, t))
  {
    SameKept(h, outer, stored.header);
    forall t: Option<string>
      ensures Replayable(WithType(h, t)) == Replayable(WithType(stored.header, t))
    {
      ReplayableTyped(h, t);
      ReplayableTyped(stored.header, t);
    }
  }

  /** The lock's last step, from the handler alone: stored exactly when it returned and may be stored. */
  ghost function Settles(h: Handler, outer: Header, max: int, token: Bytes): Step {
    if !h.panics && !h.dontStore && MayStore(h.calls, outer, max)
    then Complete(token, Recorded(h.calls, outer))
    else Release(token)
  }

  /** From step `from` on, the request completes or releases once, as its last step, if it ran, and never otherwise. */
  predicate GivesUpOnce(from: nat, steps: seq<Step>, token: Bytes, ran: bool) {
    forall i | from <= i < |steps| :: GivesUpAt(steps, i, token) <==> ran && i == |steps| - 1
  }

  /** The steps of a request that runs: its claim, the others' while the handler runs, and the settling. */
  function ServeSteps(begin: Step, token: Bytes, plan: Plan, lost: nat, meanwhile: seq<Step>, settle: Step): seq<Step>
    requires lost < |plan.rounds|
  {
    [begin] + ClaimSteps(token, plan, lost, true) + meanwhile + [settle]
  }

  /**
   Store.serve. The handler runs only under a lock; when it ends, by returning or by panicking, the
   lock is settled exactly once. Other callers run between every two statements and while it runs.
   */
  method Serve(
    store: Store, handler: Handler, outer: Header, max: int,
    hash: Bytes -> Bytes, scope: Bytes, key: Bytes, fingerprint: Bytes, token: Bytes, plan: Plan, meanwhile: seq<Step>
  ) returns (served: Served, ghost lost: nat)
    requires store.Valid() && token !in store.requests && ValidPlan(plan, token)
    requires ByOthers(meanwhile, token) && ValidCalls(handler.calls)
    modifies store
    ensures store.Valid() && lost <= CLAIM_ATTEMPTS
    ensures served.Ran? ==>
      && lost < CLAIM_ATTEMPTS
      && store.steps == old(store.steps)
                        + ServeSteps(Begin(token, KeyId(hash, scope, key), fingerprint), token, plan, lost, meanwhile,
                                     Settles(handler, outer, max, token))
      && served.sent == Forwarded(handler.calls, outer)
      && IsHolding(Run(store.steps), token)
    ensures GivesUpOnce(|old(store.steps)|, store.steps, token, served.Ran?)
    ensures served.Answered? ==>
      && WasStored(store.steps, KeyId(hash, scope, key), fingerprint, served.stored)
      && Replays(served.sent, outer, served.stored)
    ensures served.Problem? ==> served.status == 409 || served.status == 422 || served.status == 503
    ensures served == Problem(503) <==> scope == [] || key == [] || fingerprint == []
    ensures served == Problem(503) ==>
      store.steps == old(store.steps) && store.rows == old(store.rows) && store.requests == old(store.requests)
    ensures !served.Ran? && served != Problem(503) ==>
      store.steps == old(store.steps) + [Begin(token, KeyId(hash, scope, key), fingerprint)] + ClaimSteps(token, plan, lost, false)
    ensures served == Problem(422) <==>
      token in store.requests && store.requests[token].phase == Refused(KeyReused)
    ensures served == Problem(409) <==>
      token in store.requests && store.requests[token].phase == Refused(StillInProgress)
  {
    var claim;
    claim, lost := store.Claim(hash, scope, key, fingerprint, token, plan);
    ghost var begin := Begin(token, KeyId(hash, scope, key), fingerprint);
    if claim.Locked? {
      var sent := RunUnderLock(store, handler, outer, max, token, meanwhile);
      served := Ran(sent);
      SettledOnce(old(store.steps), begin, token, plan, lost, meanwhile, Settles(handler, outer, max, token));
    } else {
      served := AnswerTo(claim, outer);
      NeverSettled(old(store.steps), begin, token, plan, lost);
    }
  }

  /** What a request that does not run is answered. */
  method AnswerTo(claim: ClaimResult, outer: Header) returns (served: Served)
    requires !claim.Locked?
    ensures !served.Ran?
    ensures served.Answered? <==> claim.Stored?
    ensures served.Problem? ==> served.status == 409 || served.status == 422 || served.status == 503
    ensures claim.Stored? ==> served.stored == claim.response && Replays(served.sent, outer, claim.response)
    ensures served == Problem(422) <==> claim == Failed(Refusal(KeyReused))
    ensures served == Problem(409) <==> claim == Failed(Refusal(StillInProgress))
    ensures served == Problem(503) <==> claim == Failed(InvalidArguments)
  {
    match claim {
      case Failed(InvalidArguments) => served := Problem(503);
      case Failed(Refusal(KeyReused)) => served := Problem(422);
      case Failed(Refusal(StillInProgress)) => served := Problem(409);
      case Stored(stored) =>
        var sent := Replay(outer, stored);
        served := Answered(stored, sent);
    }
  }

  /** The handler runs, others meanwhile, and the lock is settled. */
  method RunUnderLock(store: Store, handler: Handler, outer: Header, max: int, token: Bytes, meanwhile: seq<Step>)
    returns (sent: seq<Sent>)
    requires store.Valid() && token in store.requests && store.requests[token].phase.Holding?
    requires ByOthers(meanwhile, token) && ValidCalls(handler.calls)
    modifies store
    ensures store.Valid() && sent == Forwarded(handler.calls, outer)
    ensures store.steps == old(store.steps) + meanwhile + [Settles(handler, outer, max, token)]
    ensures token in store.requests && store.requests[token] == old(store.requests)[token]
  {
    var rec := new Recorder(max, outer);
    RunHandler(rec, handler.calls);
    store.Interleave(meanwhile, token);
    var finished := !handler.panics;
    var storable := rec.Storable();
    if !finished || !storable || handler.dontStore {
      store.ReleaseLock(token);
    } else {
      var _ := store.CompleteLock(token, Response(rec.status, rec.header, rec.body));
    }
    sent := rec.sent;
  }

  lemma SettledOnce(
    before: seq<Step>, begin: Step, token: Bytes, plan: Plan, lost: nat, meanwhile: seq<Step>, settle: Step)
    requires begin.Begin? && ValidPlan(plan, token) && lost < CLAIM_ATTEMPTS && ByOthers(meanwhile, token)
    requires (settle.Complete? || settle.Release?) && settle.token == token
    ensures var steps := before + ServeSteps(begin, token, plan, lost, meanwhile, settle);
      && steps == before + [begin] + ClaimSteps(token, plan, lost, true) + meanwhile + [settle]
      && GivesUpOnce(|before|, steps, token, true)
  {
    var claiming := [begin] + ClaimSteps(token, plan, lost, true);
    var steps := before + ServeSteps(begin, token, plan, lost, meanwhile, settle);
    assert steps == before + claiming + meanwhile + [settle];
    ClaimKeeps(begin, token, plan, lost, true);
    forall i | |before| <= i < |steps| - 1
      ensures !GivesUpAt(steps, i, token)
    {
      if i < |before| + |claiming| {
        assert steps[i] == claiming[i - |before|];
      } else {
        assert steps[i] == meanwhile[i - |before| - |claiming|];
      }
    }
  }

  lemma NeverSettled(before: seq<Step>, begin: Step, token: Bytes, plan: Plan, lost: nat)
    requires begin.Begin? && ValidPlan(plan, token) && lost <= CLAIM_ATTEMPTS
    ensures GivesUpOnce(|before|, before, token, false)
    ensures GivesUpOnce(|before|, before + [begin] + ClaimSteps(token, plan, lost, false), token, false)
  {
    var claiming := [begin] + ClaimSteps(token, plan, lost, false);
    var steps := before + [begin] + ClaimSteps(token, plan, lost, false);
    assert steps == before + claiming;
    ClaimKeeps(begin, token, plan, lost, false);
    forall i | |before| <= i < |steps|
      ensures !GivesUpAt(steps, i, token)
    {
      assert steps[i] == claiming[i - |before|];
    }
  }

  // ---- What is stored, and for whom ----

  /** A served request's lock ends in a stored response exactly when the handler returned, did not opt out and may be stored. */
  lemma StoredExactly(h: Handler, outer: Header, max: int, token: Bytes)
    ensures Settles(h, outer, max, token) == Complete(token, Recorded(h.calls, outer)) <==>
      !h.panics && !h.dontStore && MayStore(h.calls, outer, max)
    ensures Settles(h, outer, max, token) == Release(token) <==>
      h.panics || h.dontStore || !MayStore(h.calls, outer, max)
  {
  }

  /**
   A retry gets what was recorded: from a serve that stored its response at step `i`, until a clock past the retention is
   read, any request with the same key and fingerprint that selects the row is answered with that recording, and any with
   another fingerprint is refused.
   */
  lemma ServedIsReplayed(steps: seq<Step>, i: nat, j: nat, h: Handler, outer: Header, max: int, id: Bytes, fingerprint: Bytes)
    requires i < j <= |steps| && steps[i].Complete? && steps[i] == Settles(h, outer, max, steps[i].token)
    requires StoresAt(steps, i, id, fingerprint, steps[i].response)
    requires forall m | i < m < j :: !ReadsExpiryAt(steps, m, id, At(steps, i).rows[id].createdAt)
    ensures id in At(steps, j).rows
    ensures Decide(At(steps, j).rows[id], fingerprint) == Replayed(Recorded(h.calls, outer))
    ensures forall fp | fp != fingerprint :: Decide(At(steps, j).rows[id], fp) == Refused(KeyReused)
  {
    CompletionExcludes(steps, i, j, id, fingerprint, steps[i].response);
  }

  // ---- What is ever replayed ----

  /** The response is what a handler sent that returned, did not opt out and may be stored. */
  ghost predicate FromAHandler(r: Response, max: int) {
    exists h: Handler, outer: Header :: Accounts(h, outer, r, max)
  }

  ghost predicate Accounts(h: Handler, outer: Header, r: Response, max: int) {
    && !h.panics && !h.dontStore && MayStore(h.calls, outer, max) && r == Recorded(h.calls, outer)
    && ForbiddenOnlySlips(h, outer)
  }

  /** What forbids storing reached the first client exactly when a flush or a protocol switch let it out early. */
  ghost predicate ForbiddenOnlySlips(h: Handler, outer: Header) {
    ValidCalls(h.calls) && Saw(h.calls, outer).status.Some? ==>
      (Unstorable(Saw(h.calls, outer).header) <==> SlipsOut(h.calls, outer))
  }

  /** No released status, no server error, only the replayed headers, nothing over the cap. */
  predicate WorthKeeping(r: Response, max: int) {
    && r.status < 500 && r.status !in RELEASED_STATUSES
    && r.header.Keys <= {"Content-Type", "Location", "Etag"}
    && (r.body != [] ==> |r.body| <= max)
  }

  lemma SettledIsWorthKeeping(h: Handler, outer: Header, max: int, token: Bytes)
    requires Settles(h, outer, max, token).Complete?
    ensures WorthKeeping(Settles(h, outer, max, token).response, max)
    ensures !h.panics && !h.dontStore && !Unstorable(HeadersThen(h.calls, outer)) && ForbiddenOnlySlips(h, outer)
  {
    if ValidCalls(h.calls) && Saw(h.calls, outer).status.Some? {
      ForbiddenExactly(h.calls, outer, max);
    }
    if Written(h.calls) != [] {
      WrittenBySome(h.calls);
    }
  }

  lemma {:induction false} WrittenBySome(calls: seq<Call>)
    requires Written(calls) != []
    ensures WroteSome(calls)
  {
    var c := calls[|calls| - 1];
    assert c in calls;
    if !c.Write? {
      WrittenBySome(calls[..|calls| - 1]);
      var w :| w in calls[..|calls| - 1] && w.Write?;
      assert w in calls;
    }
  }

  /** Every Complete of the run is the settling step of a serve. */
  ghost predicate OnlyServed(steps: seq<Step>, max: int) {
    forall s | s in steps && s.Complete? :: exists h: Handler, outer: Header :: s == Settles(h, outer, max, s.token)
  }

  /**
   End to end: whatever interleaves, a replayed response is the recording of a handler that returned
   without panicking or opting out, whose status, size and headers, as recorded, allow storing: no server error or
   released status, no cookie, no no-store, nothing over the cap. A cookie or no-store reached its first client exactly
   when a flush or a protocol switch let it out before the recorder looked.
   */
  lemma ReplaysAreWorthKeeping(steps: seq<Step>, token: Bytes, max: int)
    requires OnlyServed(steps, max)
    requires token in Run(steps).requests && Run(steps).requests[token].phase.Replayed?
    ensures FromAHandler(Run(steps).requests[token].phase.response, max)
    ensures WorthKeeping(Run(steps).requests[token].phase.response, max)
  {
    ReplayIsFaithful(steps, token);
    var r := Run(steps).requests[token];
    var j: nat :| StoresAt(steps, j, r.id, r.fingerprint, r.phase.response);
    assert steps[j] in steps;
    var h: Handler, outer: Header :| steps[j] == Settles(h, outer, max, steps[j].token);
    SettledIsWorthKeeping(h, outer, max, steps[j].token);
    assert Accounts(h, outer, r.phase.response, max);
  }
}
