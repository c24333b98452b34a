/**
 The recorder between a handler and its client: it passes the response through while keeping what is
 needed to store it. What it keeps and what the client gets are both functions of the handler's calls.
 */
module IdempotencyRecorder {
  import opened Basics
  import opened Strings
  import opened Http
  import opened IdempotencyTable

  const REPLAYED_HEADERS: seq<string> := ["Content-Type", "Location", "Etag"]
  const RELEASED_STATUSES: seq<int> := [401, 403, 408, 429]

  // ---- Cache-Control ----

  function Values(h: Header, name: string): seq<string> {
    if name in h then h[name] else []
  }

  predicate IsNoStore(directive: string) {
    EqualFold(TrimSpace(directive), "no-store")
  }

  predicate Blank(s: string) {
    forall i | 0 <= i < |s| :: s[i] == ' ' || s[i] == '\t' || s[i] == '\n' || s[i] == '\r' || s[i] as int == 11 || s[i] as int == 12
  }

  /** The word, in either case. */
  predicate SpellsNoStore(w: string) {
    |w| == 8 && forall k | 0 <= k < 8 :: w[k] == "no-store"[k] || w[k] == "NO-STORE"[k]
  }

  lemma {:induction false} TrimLeftIs(s: string) returns (i: nat)
    ensures i <= |s| && TrimLeft(s) == s[i..] && Blank(s[..i]) && (i < |s| ==> !IsSpace(s[i]))
  {
    if s != [] && IsSpace(s[0]) {
      i := TrimLeftIs(s[1..]);
      assert s[..i + 1] == [s[0]] + s[1..][..i] && s[1..][i..] == s[i + 1..];
      i := i + 1;
    } else {
      i := 0;
    }
  }

  lemma {:induction false} TrimRightIs(s: string) returns (j: nat)
    ensures j <= |s| && TrimRight(s) == s[..j] && Blank(s[j..]) && (j > 0 ==> !IsSpace(s[j - 1]))
  {
    if s != [] && IsSpace(s[|s| - 1]) {
      var t := s[..|s| - 1];
      j := TrimRightIs(t);
      assert s[j..] == t[j..] + [s[|s| - 1]] && t[..j] == s[..j];
    } else {
      j := |s|;
    }
  }

  /** A directive forbids storing exactly when it is that word between blanks. */
  lemma NoStoreExactly(d: string)
    ensures IsNoStore(d) <==>
      exists i, j | 0 <= i <= j <= |d| :: Blank(d[..i]) && Blank(d[j..]) && SpellsNoStore(d[i..j])
  {
    var i := TrimLeftIs(d);
    var rest := d[i..];
    var n := TrimRightIs(rest);
    var j := i + n;
    assert rest[..n] == d[i..j] && rest[n..] == d[j..] && TrimSpace(d) == d[i..j];
    FoldsNoStore(d[i..j]);
    if x, y :| 0 <= x <= y <= |d| && Blank(d[..x]) && Blank(d[y..]) && SpellsNoStore(d[x..y]) {
      OneTrim(d, i, j, x, y);
    }
  }

  lemma FoldsNoStore(w: string)
    ensures EqualFold(w, "no-store") <==> SpellsNoStore(w)
  {
    if |w| == 8 {
      assert forall k | 0 <= k < 8 :: Lower(w[k]) == Lower("no-store"[k]) <==> w[k] == "no-store"[k] || w[k] == "NO-STORE"[k];
    }
  }

  /** A word without blanks at its ends sits in one place between blanks. */
  lemma OneTrim(d: string, i: nat, j: nat, x: nat, y: nat)
    requires i <= j <= |d| && Blank(d[..i]) && Blank(d[j..]) && (i < j ==> !IsSpace(d[i]) && !IsSpace(d[j - 1]))
    requires x <= y <= |d| && Blank(d[..x]) && Blank(d[y..]) && SpellsNoStore(d[x..y])
    requires i < |d| ==> !IsSpace(d[i])
    ensures i == x && j == y
  {
    var w := d[x..y];
    assert w[0] == d[x] && w[7] == d[y - 1];
    assert !IsSpace(d[x]) && !IsSpace(d[y - 1]);
    assert forall k | 0 <= k < i :: d[..i][k] == d[k];
    assert forall k | 0 <= k < x :: d[..x][k] == d[k];
    assert forall k | j <= k < |d| :: d[j..][k - j] == d[k];
    assert forall k | y <= k < |d| :: d[y..][k - y] == d[k];
  }

  /** Some comma-separated directive of some Cache-Control value is no-store. */
  ghost predicate ForbidsStoring(h: Header) {
    exists v, i: nat, j: nat | v in Values(h, "Cache-Control") ::
      PieceAt(v, ',', i, j) && IsNoStore(v[i..j])
  }

  ghost predicate ValueForbids(v: string) {
    exists i: nat, j: nat :: PieceAt(v, ',', i, j) && IsNoStore(v[i..j])
  }

  method ValueNoStore(v: string) returns (found: bool)
    ensures found <==> ValueForbids(v)
  {
    var directives := Split(v, ',');
    for n := 0 to |directives|
      invariant forall m | 0 <= m < n :: !IsNoStore(directives[m])
    {
      if IsNoStore(directives[n]) {
        ghost var i, j := SplitIsPieces(v, ',', n);
        return true;
      }
    }
    if ValueForbids(v) {
      ghost var i: nat, j: nat :| PieceAt(v, ',', i, j) && IsNoStore(v[i..j]);
      PiecesAreSplit(v, ',', i, j);
      assert false;
    }
    return false;
  }

  /** noStore: exactly a Cache-Control no-store directive. */
  method NoStore(h: Header) returns (found: bool)
    ensures found <==> ForbidsStoring(h)
  {
    var values := Values(h, "Cache-Control");
    for n := 0 to |values|
      invariant forall m | 0 <= m < n :: !ValueForbids(values[m])
    {
      var here := ValueNoStore(values[n]);
      if here {
        assert values[n] in values;
        return true;
      }
    }
    assert forall v | v in values :: !ValueForbids(v);
    return false;
  }

  // ---- What a handler does ----

  /**
   What a handler may call. Flushing and taking over the connection go past the recorder: an
   http.ResponseController unwraps it and reaches the writer underneath.
   */
  datatype Call =
    | SetHeaders(h: Header)
    | WriteHeader(code: int)
    | Write(b: Bytes)
    | Flush
    | Hijack(ok: bool)

  /** Codes net/http accepts; it panics on any other. */
  predicate ValidCalls(calls: seq<Call>) {
    forall c | c in calls && c.WriteHeader? :: 100 <= c.code <= 999
  }

  predicate Decides(c: Call) {
    c.Write? || (c.WriteHeader? && c.code >= 200)
  }

  /** The first final status a handler chose: a Write first means 200. */
  function FinalStatus(calls: seq<Call>): Option<int> {
    if calls == [] then None
    else if Decides(calls[0]) then Some(if calls[0].Write? then STATUS_OK else calls[0].code)
    else FinalStatus(calls[1..])
  }

  /** The handler's headers when it chose its status, or at the end when it never did. */
  function HeadersThen(calls: seq<Call>, h: Header): Header {
    if calls == [] then h
    else if calls[0].SetHeaders? then HeadersThen(calls[1..], calls[0].h)
    else if Decides(calls[0]) then h
    else HeadersThen(calls[1..], h)
  }

  function HeadersNow(calls: seq<Call>, h: Header): Header {
    if calls == [] then h
    else if calls[|calls| - 1].SetHeaders? then calls[|calls| - 1].h
    else HeadersNow(calls[..|calls| - 1], h)
  }

  /** Everything a handler wrote, in order. */
  function Written(calls: seq<Call>): Bytes {
    if calls == [] then []
    else Written(calls[..|calls| - 1]) + if calls[|calls| - 1].Write? then calls[|calls| - 1].b else []
  }

  predicate WroteSome(calls: seq<Call>) {
    exists c | c in calls :: c.Write?
  }

  /** The headers worth replaying. */
  function Replayable(h: Header): Header {
    map name | name in h && name in REPLAYED_HEADERS && |h[name]| > 0 :: h[name]
  }

  /** Exactly Content-Type, Location and ETag are replayed, with the values they had. */
  lemma ReplayableExactly(h: Header, name: string)
    ensures name in Replayable(h) <==>
      name in h && |h[name]| > 0 && (name == "Content-Type" || name == "Location" || name == "Etag")
    ensures name in Replayable(h) ==> Replayable(h)[name] == h[name]
  {
    assert REPLAYED_HEADERS[0] == "Content-Type" && REPLAYED_HEADERS[1] == "Location" && REPLAYED_HEADERS[2] == "Etag";
  }

  ghost predicate Unstorable(h: Header) {
    |Values(h, "Set-Cookie")| > 0 || ForbidsStoring(h)
  }

  lemma {:induction false} StatusExtends(calls: seq<Call>, c: Call, h: Header)
    ensures FinalStatus(calls).Some? ==>
      FinalStatus(calls + [c]) == FinalStatus(calls) && HeadersThen(calls + [c], h) == HeadersThen(calls, h)
    ensures FinalStatus(calls).None? ==>
      && FinalStatus(calls + [c]) == FinalStatus([c])
      && HeadersThen(calls, h) == HeadersNow(calls, h)
      && HeadersThen(calls + [c], h) == HeadersThen([c], HeadersNow(calls, h))
  {
    if calls != [] {
      assert (calls + [c])[1..] == calls[1..] + [c];
      var h' := if calls[0].SetHeaders? then calls[0].h else h;
      StatusExtends(calls[1..], c, h');
      NowFrom(calls, h);
    }
  }

  lemma {:induction false} NowFrom(calls: seq<Call>, h: Header)
    requires calls != []
    ensures HeadersNow(calls, h) == HeadersNow(calls[1..], if calls[0].SetHeaders? then calls[0].h else h)
  {
    if |calls| > 1 {
      assert calls[1..][..|calls| - 2] == calls[..|calls| - 1][1..];
      NowFrom(calls[..|calls| - 1], h);
    }
  }

  // ---- What the client sees ----

  /** What reaches the writer underneath for one call, given the status decided before and the headers now. */
  function ForwardedFor(status: Option<int>, h: Header, c: Call): seq<Sent> {
    match c
    case SetHeaders(_) => []
    case WriteHeader(code) => [SentHeader(h, code)]
    case Write(b) => if status.None? then [SentHeader(h, STATUS_OK), SentBody(h, b)] else [SentBody(h, b)]
    case Flush => [SentFlush(h)]
    case Hijack(ok) => if ok then [SentHijack(h)] else []
  }

  function Forwarded(calls: seq<Call>, outer: Header): seq<Sent> {
    if calls == [] then []
    else
      var before := calls[..|calls| - 1];
      Forwarded(before, outer) + ForwardedFor(FinalStatus(before), HeadersNow(before, outer), calls[|calls| - 1])
  }

  /** The exchange when the handler is done: one that never spoke answers 200. */
  function Saw(calls: seq<Call>, outer: Header): Exchange {
    Commit(Delivered(Forwarded(calls, outer)), STATUS_OK, HeadersNow(calls, outer))
  }

  // ---- The same, from the handler's calls alone ----

  predicate TakesOver(c: Call) { c.Hijack? && c.ok }

  /** The calls that commit a response, or the connection, under the recorder. */
  predicate Commits(c: Call) {
    Decides(c) || c.Flush? || TakesOver(c) || (c.WriteHeader? && c.code == SWITCHING_PROTOCOLS)
  }

  function FirstCommit(calls: seq<Call>): Option<Call> {
    if calls == [] then None else if Commits(calls[0]) then Some(calls[0]) else FirstCommit(calls[1..])
  }

  /** The headers a response went out with: those at the first committing call, or at the end. */
  function HeadersSent(calls: seq<Call>, h: Header): Header {
    if calls == [] then h
    else if calls[0].SetHeaders? then HeadersSent(calls[1..], calls[0].h)
    else if Commits(calls[0]) then h
    else HeadersSent(calls[1..], h)
  }

  /** None: the handler took the connection over before any status. */
  function SeenStatus(calls: seq<Call>): Option<int> {
    match FirstCommit(calls)
    case None => Some(STATUS_OK)
    case Some(c) => if c.WriteHeader? then Some(c.code) else if c.Hijack? then None else Some(STATUS_OK)
  }

  predicate TookOver(calls: seq<Call>) { exists c | c in calls :: TakesOver(c) }

  predicate Flushed(calls: seq<Call>) { exists c | c in calls :: c.Flush? }

  /** What was written before the first flush. */
  function FirstChunk(calls: seq<Call>): Bytes {
    if calls == [] then []
    else
      var before, c := calls[..|calls| - 1], calls[|calls| - 1];
      FirstChunk(before) + if c.Write? && !Flushed(before) then c.b else []
  }

  /** What of some bytes a client gets: none when the status has no body. */
  function Seen(calls: seq<Call>, b: Bytes): Bytes {
    if SeenStatus(calls).Some? && BodyAllowed(SeenStatus(calls).value) then b else []
  }

  lemma {:induction false} CommitExtends(calls: seq<Call>, c: Call, h: Header)
    ensures FirstCommit(calls).Some? ==>
      FirstCommit(calls + [c]) == FirstCommit(calls) && HeadersSent(calls + [c], h) == HeadersSent(calls, h)
    ensures FirstCommit(calls).None? ==>
      && FirstCommit(calls + [c]) == (if Commits(c) then Some(c) else None)
      && HeadersSent(calls, h) == HeadersNow(calls, h)
      && HeadersSent(calls + [c], h) == (if c.SetHeaders? then c.h else HeadersNow(calls, h))
      && FinalStatus(calls).None?
  {
    if calls == [] {
      assert [c][1..] == [] && [] + [c] == [c];
    } else {
      assert (calls + [c])[1..] == calls[1..] + [c];
      CommitExtends(calls[1..], c, if calls[0].SetHeaders? then calls[0].h else h);
      NowFrom(calls, h);
    }
  }

  lemma CallsExtend(calls: seq<Call>, c: Call)
    ensures TookOver(calls + [c]) <==> TookOver(calls) || TakesOver(c)
    ensures Flushed(calls + [c]) <==> Flushed(calls) || c.Flush?
    ensures FirstChunk(calls + [c]) == FirstChunk(calls) + if c.Write? && !Flushed(calls) then c.b else []
    ensures Written(calls + [c]) == Written(calls) + if c.Write? then c.b else []
  {
    assert (calls + [c])[..|calls|] == calls;
    assert forall x :: x in calls + [c] <==> x in calls || x == c;
  }

  /** The exchange underneath, read off the calls. */
  ghost predicate Mirrors(x: Exchange, calls: seq<Call>, outer: Header) {
    && (x.hijacked <==> TookOver(calls))
    && (FirstCommit(calls).None? ==> x == Silent && Written(calls) == [] && FirstChunk(calls) == [] && !Flushed(calls))
    && (FirstCommit(calls).Some? ==> MirrorsStatus(x, calls, outer) && (!x.hijacked ==> MirrorsBody(x, calls)))
  }

  ghost predicate MirrorsStatus(x: Exchange, calls: seq<Call>, outer: Header) {
    && x.status == SeenStatus(calls)
    && (x.status.Some? ==> x.header == HeadersSent(calls, outer))
    && (x.status.None? ==> x.hijacked)
  }

  ghost predicate MirrorsBody(x: Exchange, calls: seq<Call>) {
    x.body == Seen(calls, Written(calls)) && x.lead == Seen(calls, FirstChunk(calls)) && (x.flushed <==> Flushed(calls))
  }

  /** The exchange after one more call. */
  function Answered(x: Exchange, calls: seq<Call>, outer: Header, c: Call): Exchange {
    Through(x, ForwardedFor(FinalStatus(calls), HeadersNow(calls, outer), c))
  }

  lemma CommittedStays(x: Exchange, calls: seq<Call>, outer: Header, c: Call)
    requires Mirrors(x, calls, outer) && FirstCommit(calls).Some?
    ensures var y := Answered(x, calls, outer, c);
      y.status == x.status && y.header == x.header && (y.hijacked <==> x.hijacked || TakesOver(c))
  {
  }

  lemma CommittedBody(x: Exchange, calls: seq<Call>, outer: Header, c: Call)
    requires Mirrors(x, calls, outer) && FirstCommit(calls).Some? && !x.hijacked && !TakesOver(c)
    ensures var y := Answered(x, calls, outer, c);
      && (y.flushed <==> x.flushed || c.Flush?)
      && (if c.Write? && BodyAllowed(x.status.value)
          then y.body == x.body + c.b && y.lead == (if x.flushed then x.lead else x.lead + c.b)
          else y.body == x.body && y.lead == x.lead)
  {
  }

  lemma MirrorsCommitted(x: Exchange, calls: seq<Call>, outer: Header, c: Call)
    requires Mirrors(x, calls, outer) && FirstCommit(calls).Some?
    ensures Mirrors(Answered(x, calls, outer, c), calls + [c], outer)
  {
    CommitExtends(calls, c, outer);
    CallsExtend(calls, c);
    CommittedStays(x, calls, outer, c);
    if !x.hijacked && !TakesOver(c) {
      CommittedBody(x, calls, outer, c);
    }
  }

  /** The first call to commit anything commits its own status and the headers of that moment. */
  lemma FirstAnswered(h: Header, c: Call)
    requires c.WriteHeader? ==> 100 <= c.code <= 999
    ensures var y := Through(Silent, ForwardedFor(None, h, c));
      && (!Commits(c) ==> y == Silent)
      && (TakesOver(c) ==> y == Silent.(hijacked := true))
      && (c.Flush? ==> y == Exchange(Some(STATUS_OK), h, [], [], true, false))
      && (c.Write? ==> y == Exchange(Some(STATUS_OK), h, c.b, c.b, false, false))
      && (c.WriteHeader? && Commits(c) ==> y == Exchange(Some(c.code), h, [], [], false, false))
  {
    if c.Write? { assert [] + c.b == c.b; }
  }

  lemma MirrorsFirst(x: Exchange, calls: seq<Call>, outer: Header, c: Call)
    requires Mirrors(x, calls, outer) && FirstCommit(calls).None?
    requires c.WriteHeader? ==> 100 <= c.code <= 999
    ensures Mirrors(Answered(x, calls, outer, c), calls + [c], outer)
  {
    CommitExtends(calls, c, outer);
    CallsExtend(calls, c);
    FirstAnswered(HeadersNow(calls, outer), c);
  }

  /** One or two calls on the writer underneath. */
  function Through(x: Exchange, sent: seq<Sent>): Exchange
    requires |sent| <= 2
  {
    if |sent| == 0 then x else if |sent| == 1 then Deliver(x, sent[0]) else Deliver(Deliver(x, sent[0]), sent[1])
  }

  lemma ThroughDelivers(sent: seq<Sent>, more: seq<Sent>)
    requires |more| <= 2
    ensures Delivered(sent + more) == Through(Delivered(sent), more)
  {
    if |more| == 0 {
      assert sent + more == sent;
    } else if |more| == 1 {
      DeliveredMore(sent, more[0]);
      assert more == [more[0]];
    } else {
      DeliveredMore(sent, more[0]);
      DeliveredMore(sent + [more[0]], more[1]);
      assert sent + more == sent + [more[0]] + [more[1]];
    }
  }

  lemma AnsweredMore(calls: seq<Call>, c: Call, outer: Header)
    ensures Delivered(Forwarded(calls + [c], outer)) == Answered(Delivered(Forwarded(calls, outer)), calls, outer, c)
  {
    assert (calls + [c])[..|calls|] == calls;
    ThroughDelivers(Forwarded(calls, outer), ForwardedFor(FinalStatus(calls), HeadersNow(calls, outer), c));
  }

  lemma MirrorsMore(x: Exchange, calls: seq<Call>, outer: Header, c: Call)
    requires Mirrors(x, calls, outer) && (c.WriteHeader? ==> 100 <= c.code <= 999)
    ensures Mirrors(Answered(x, calls, outer, c), calls + [c], outer)
  {
    if FirstCommit(calls).Some? {
      MirrorsCommitted(x, calls, outer, c);
    } else {
      MirrorsFirst(x, calls, outer, c);
    }
  }

  /** For every sequence of calls: the status, headers and body the client gets, from the calls alone. */
  lemma {:induction false} ClientSees(calls: seq<Call>, outer: Header)
    requires ValidCalls(calls)
    ensures Mirrors(Delivered(Forwarded(calls, outer)), calls, outer)
  {
    if calls != [] {
      var before, c := calls[..|calls| - 1], calls[|calls| - 1];
      assert calls == before + [c];
      assert c in calls && forall x | x in before :: x in calls;
      ClientSees(before, outer);
      AnsweredMore(before, c, outer);
      MirrorsMore(Delivered(Forwarded(before, outer)), before, outer, c);
    }
  }

  // ---- Does a retry get the same response? ----

  function RecordedStatus(calls: seq<Call>): (s: int)
    ensures s >= 200
  {
    FinalStatusIsFinal(calls);
    if FinalStatus(calls).Some? then FinalStatus(calls).value else STATUS_OK
  }

  lemma {:induction false} FinalStatusIsFinal(calls: seq<Call>)
    ensures FinalStatus(calls).Some? ==> FinalStatus(calls).value >= 200
  {
    if calls != [] { FinalStatusIsFinal(calls[1..]); }
  }

  /** What is stored. */
  function Recorded(calls: seq<Call>, outer: Header): Response {
    Response(RecordedStatus(calls), Replayable(HeadersThen(calls, outer)), Written(calls))
  }

  /** What a client got, in the headers worth replaying and with the type net/http adds; None without a response. */
  function ResponseSeen(x: Exchange, detect: Bytes -> string): Option<Response> {
    if x.hijacked || x.status.None? then None
    else Some(Response(x.status.value, Replayable(WithType(x.header, Guess(x.header, x.status.value, x.lead, detect))), x.body))
  }

  function FirstSaw(calls: seq<Call>, outer: Header, detect: Bytes -> string): Option<Response> {
    ResponseSeen(Saw(calls, outer), detect)
  }

  /** What a retry's client gets from a stored response. */
  function RetrySees(r: Response, detect: Bytes -> string): Option<Response> {
    ResponseSeen(Delivered([SentHeader(r.header, r.status), SentBody(r.header, r.body)]), detect)
  }

  /** The first call to commit a status was the recorded one, or a flush that committed the same status. */
  predicate StatusKept(calls: seq<Call>) {
    match FirstCommit(calls)
    case None => true
    case Some(c) => Decides(c) || (c.Flush? && RecordedStatus(calls) == STATUS_OK)
  }

  /** The type a retry gets on top: guessed from the whole body, if none was recorded. */
  function RetryType(calls: seq<Call>, outer: Header, detect: Bytes -> string): Option<string> {
    if CONTENT_TYPE !in Replayable(HeadersThen(calls, outer)) && BodyAllowed(RecordedStatus(calls)) && Written(calls) != []
    then Some(detect(Head(Written(calls)))) else None
  }

  /** The headers a retry gets. */
  function RetryHeaders(calls: seq<Call>, outer: Header, detect: Bytes -> string): Header {
    WithType(Replayable(HeadersThen(calls, outer)), RetryType(calls, outer, detect))
  }

  /** The handler set a type or wrote nothing, or what was written before the first flush has the type of it all. */
  predicate TypeKept(calls: seq<Call>, outer: Header, detect: Bytes -> string) {
    || CONTENT_TYPE in Replayable(HeadersThen(calls, outer))
    || !BodyAllowed(RecordedStatus(calls)) || Written(calls) == []
    || (&& Sniffed(HeadersThen(calls, outer), RecordedStatus(calls))
        && FirstChunk(calls) != []
        && detect(Head(FirstChunk(calls))) == detect(Head(Written(calls))))
  }

  /** A flush that came first let out the headers a retry gets; otherwise those recorded went out, and the type is kept. */
  predicate HeadersKept(calls: seq<Call>, outer: Header, detect: Bytes -> string) {
    if FirstCommit(calls) == Some(Flush) then Replayable(HeadersSent(calls, outer)) == RetryHeaders(calls, outer, detect)
    else TypeKept(calls, outer, detect)
  }

  lemma StatusIsKept(calls: seq<Call>)
    ensures SeenStatus(calls) == Some(RecordedStatus(calls)) <==> StatusKept(calls)
  {
    DecidedFirst(calls);
  }

  /** A deciding call that commits first is the one recorded, with the same headers. */
  lemma {:induction false} DecidedFirst(calls: seq<Call>)
    ensures FirstCommit(calls).None? ==> FinalStatus(calls).None?
    ensures FirstCommit(calls).Some? ==> Commits(FirstCommit(calls).value)
    ensures FirstCommit(calls).Some? && Decides(FirstCommit(calls).value) ==>
      FinalStatus(calls) == Some(if FirstCommit(calls).value.Write? then STATUS_OK else FirstCommit(calls).value.code)
  {
    if calls != [] { DecidedFirst(calls[1..]); }
  }

  lemma {:induction false} SameHeaders(calls: seq<Call>, h: Header)
    requires FirstCommit(calls).None? || Decides(FirstCommit(calls).value)
    ensures HeadersSent(calls, h) == HeadersThen(calls, h)
  {
    if calls != [] && !Commits(calls[0]) {
      SameHeaders(calls[1..], if calls[0].SetHeaders? then calls[0].h else h);
    }
  }

  lemma ReplayableTyped(h: Header, t: Option<string>)
    ensures Replayable(WithType(h, t)) == WithType(Replayable(h), t)
  {
    assert CONTENT_TYPE == REPLAYED_HEADERS[0];
  }

  lemma ReplayableTwice(h: Header)
    ensures Replayable(Replayable(h)) == Replayable(h)
    ensures CONTENT_TYPE in Replayable(h) ==> CONTENT_TYPE in h
    ensures "Content-Encoding" !in Replayable(h) && "Transfer-Encoding" !in Replayable(h)
  {
  }

  /** A recorded response's type is guessed unless it was recorded. */
  lemma RetryGuess(calls: seq<Call>, outer: Header, detect: Bytes -> string)
    ensures var r := Recorded(calls, outer);
      Guess(r.header, r.status, if BodyAllowed(r.status) then r.body else [], detect) == RetryType(calls, outer, detect)
  {
    ReplayableTwice(HeadersThen(calls, outer));
  }

  lemma RetryOf(calls: seq<Call>, outer: Header, detect: Bytes -> string)
    ensures RetrySees(Recorded(calls, outer), detect) ==
      Some(Response(RecordedStatus(calls), RetryHeaders(calls, outer, detect),
                    if BodyAllowed(RecordedStatus(calls)) then Written(calls) else []))
  {
    var r := Recorded(calls, outer);
    var first, second := SentHeader(r.header, r.status), SentBody(r.header, r.body);
    DeliveredMore([], first);
    DeliveredMore([first], second);
    assert [] + [first] == [first] && [first] + [second] == [first, second];
    assert [] + r.body == r.body;
    ReplayableTwice(HeadersThen(calls, outer));
    RetryGuess(calls, outer, detect);
    ReplayableTyped(r.header, RetryType(calls, outer, detect));
  }

  /** The type net/http added for the first client. */
  function FirstType(calls: seq<Call>, outer: Header, detect: Bytes -> string): Option<string> {
    if SeenStatus(calls).None? then None
    else Guess(HeadersSent(calls, outer), SeenStatus(calls).value, Seen(calls, FirstChunk(calls)), detect)
  }

  lemma SeenOf(calls: seq<Call>, outer: Header, detect: Bytes -> string)
    requires ValidCalls(calls)
    ensures Saw(calls, outer).hijacked <==> TookOver(calls)
    ensures Saw(calls, outer).status == SeenStatus(calls)
    ensures SeenStatus(calls).Some? ==> Saw(calls, outer).header == HeadersSent(calls, outer)
    ensures FirstSaw(calls, outer, detect) ==
      if TookOver(calls) then None
      else Some(Response(SeenStatus(calls).value,
                         WithType(Replayable(HeadersSent(calls, outer)), FirstType(calls, outer, detect)),
                         Seen(calls, Written(calls))))
  {
    ClientSees(calls, outer);
    CommitExtends(calls, Flush, outer);
    if !TookOver(calls) {
      ReplayableTyped(HeadersSent(calls, outer), FirstType(calls, outer, detect));
    }
  }

  /** A flush before any write leaves nothing to guess a type from. */
  lemma {:induction false} FlushedFirst(calls: seq<Call>)
    requires FirstCommit(calls) == Some(Flush)
    ensures FirstChunk(calls) == [] && Flushed(calls)
  {
    var before, c := calls[..|calls| - 1], calls[|calls| - 1];
    assert calls == before + [c];
    CommitExtends(before, c, map[]);
    CallsExtend(before, c);
    if FirstCommit(before).Some? {
      FlushedFirst(before);
    } else {
      NothingFirst(before);
    }
  }

  lemma {:induction false} NothingFirst(calls: seq<Call>)
    requires FirstCommit(calls).None?
    ensures Written(calls) == [] && FirstChunk(calls) == []
  {
    if calls != [] {
      var before, c := calls[..|calls| - 1], calls[|calls| - 1];
      assert calls == before + [c];
      CommitExtends(before, c, map[]);
      CallsExtend(before, c);
      NothingFirst(before);
    }
  }

  /** With the recorded headers sent, the types agree exactly when the type is kept. */
  lemma TypesAgree(calls: seq<Call>, outer: Header, detect: Bytes -> string)
    requires SeenStatus(calls) == Some(RecordedStatus(calls)) && HeadersSent(calls, outer) == HeadersThen(calls, outer)
    ensures WithType(Replayable(HeadersThen(calls, outer)), FirstType(calls, outer, detect)) == RetryHeaders(calls, outer, detect)
            <==> TypeKept(calls, outer, detect)
  {
    var stored := Replayable(HeadersThen(calls, outer));
    ReplayableTwice(HeadersThen(calls, outer));
    ChunkIsWritten(calls);
    if CONTENT_TYPE !in stored {
      TypesDiffer(stored, FirstType(calls, outer, detect), RetryType(calls, outer, detect));
    }
  }

  lemma {:induction false} ChunkIsWritten(calls: seq<Call>)
    ensures Written(calls) == [] ==> FirstChunk(calls) == []
  {
    if calls != [] { ChunkIsWritten(calls[..|calls| - 1]); }
  }

  /**
   When a retry gets the response the first client got, for every sequence of calls and every way net/http guesses types:
   exactly when the connection was not taken over, the first call to commit anything was the one whose status was
   recorded (or nothing was, or a flush committed the recorded status), and the headers are kept. Otherwise the handler
   reached past the recorder, or sent 101 Switching Protocols, which net/http takes as final and the recorder does not.
   */
  lemma RetryGetsTheSame(calls: seq<Call>, outer: Header, detect: Bytes -> string)
    requires ValidCalls(calls)
    ensures Saw(calls, outer).status == Some(Recorded(calls, outer).status) <==> StatusKept(calls)
    ensures FirstSaw(calls, outer, detect) == RetrySees(Recorded(calls, outer), detect) <==>
      !TookOver(calls) && StatusKept(calls) && HeadersKept(calls, outer, detect)
  {
    SeenOf(calls, outer, detect);
    RetryOf(calls, outer, detect);
    StatusIsKept(calls);
    if FirstCommit(calls) == Some(Flush) {
      FlushedFirst(calls);
    } else if StatusKept(calls) {
      SameHeaders(calls, outer);
      TypesAgree(calls, outer, detect);
    }
  }

  // ---- Can a stored response have carried what must not be stored? ----

  /** A flush, or a protocol switch, let headers out that forbid storing before the recorder looked at them. */
  ghost predicate SlipsOut(calls: seq<Call>, outer: Header) {
    && FirstCommit(calls).Some? && !Decides(FirstCommit(calls).value)
    && Unstorable(HeadersSent(calls, outer))
  }

  /** A response that may be stored reached its client with a cookie or no-store exactly when it slipped out. */
  lemma ForbiddenExactly(calls: seq<Call>, outer: Header, max: int)
    requires ValidCalls(calls) && MayStore(calls, outer, max) && Saw(calls, outer).status.Some?
    ensures Unstorable(Saw(calls, outer).header) <==> SlipsOut(calls, outer)
  {
    SeenOf(calls, outer, _ => "");
    if FirstCommit(calls).None? || Decides(FirstCommit(calls).value) {
      SameHeaders(calls, outer);
    }
  }

  // ---- The recorder ----

  /** What may be stored, from the handler's calls alone. */
  ghost predicate MayStore(calls: seq<Call>, outer: Header, max: int) {
    var status := RecordedStatus(calls);
    && status < 500
    && status !in RELEASED_STATUSES
    && !Unstorable(HeadersThen(calls, outer))
    && !(WroteSome(calls) && |Written(calls)| > max)
  }

  /**
   What may be stored, spelled out: no server error, none of 401, 403, 408 and 429, no cookie, no no-store directive, no
   body over the cap.
   */
  lemma StorableExactly(calls: seq<Call>, outer: Header, max: int)
    ensures MayStore(calls, outer, max) <==>
      var status, h := RecordedStatus(calls), HeadersThen(calls, outer);
      && status < 500 && status != 401 && status != 403 && status != 408 && status != 429
      && ("Set-Cookie" in h ==> h["Set-Cookie"] == [])
      && !("Cache-Control" in h && exists v, i: nat, j: nat | v in h["Cache-Control"] :: PieceAt(v, ',', i, j) && IsNoStore(v[i..j]))
      && (WroteSome(calls) ==> |Written(calls)| <= max)
  {
    assert RELEASED_STATUSES[0] == 401 && RELEASED_STATUSES[1] == 403 && RELEASED_STATUSES[2] == 408 && RELEASED_STATUSES[3] == 429;
  }

  /** The recorder's fields after `calls`. */
  ghost predicate Matches(calls: seq<Call>, outer: Header, max: int, f: Fields) {
    ValidCalls(calls) && MatchesStatus(calls, outer, f) && MatchesBytes(calls, max, f)
  }

  ghost predicate MatchesStatus(calls: seq<Call>, outer: Header, f: Fields) {
    && f.sent == Forwarded(calls, outer)
    && f.live == HeadersNow(calls, outer)
    && f.status == (if FinalStatus(calls).Some? then FinalStatus(calls).value else 0)
    && (FinalStatus(calls).Some? ==> f.status >= 200 && HasSnapshot(f, HeadersThen(calls, outer)))
  }

  ghost predicate MatchesBytes(calls: seq<Call>, max: int, f: Fields) {
    && (f.overflow <==> WroteSome(calls) && |Written(calls)| > max)
    && f.body == if f.overflow then [] else Written(calls)
  }

  datatype Fields = Fields(
    status: int, header: Header, body: Bytes, unstorable: bool, overflow: bool, live: Header, sent: seq<Sent>)

  ghost predicate HasSnapshot(f: Fields, h: Header) {
    f.header == Replayable(h) && (f.unstorable <==> Unstorable(h))
  }

  /** The fields after one more call: a snapshot when it decides the status, the bytes kept, the call forwarded. */
  ghost function After(f: Fields, c: Call, max: int): Fields {
    var snapped := if f.status == 0 && Decides(c) then Snapped(f, if c.Write? then STATUS_OK else c.code) else f;
    var kept := if c.Write? then Keep(snapped, c.b, max) else snapped;
    kept.(live := if c.SetHeaders? then c.h else f.live,
          sent := f.sent + ForwardedFor(if f.status == 0 then None else Some(f.status), f.live, c))
  }

  /** The final status, and what its headers say, once. */
  ghost function Snapped(f: Fields, code: int): Fields {
    f.(status := code, header := Replayable(f.live), unstorable := Unstorable(f.live))
  }

  /** The bytes are kept until they exceed the cap; then none are. */
  function Keep(f: Fields, b: Bytes, max: int): Fields {
    if f.overflow then f
    else if |f.body| + |b| > max then f.(overflow := true, body := [])
    else f.(body := f.body + b)
  }

  lemma StatusNext(calls: seq<Call>, outer: Header, f: Fields, c: Call, max: int)
    requires MatchesStatus(calls, outer, f)
    ensures MatchesStatus(calls + [c], outer, After(f, c, max))
  {
    assert (calls + [c])[..|calls|] == calls;
    StatusExtends(calls, c, outer);
  }

  lemma BytesNext(calls: seq<Call>, max: int, f: Fields, c: Call)
    requires MatchesBytes(calls, max, f)
    ensures MatchesBytes(calls + [c], max, After(f, c, max))
  {
    assert (calls + [c])[..|calls|] == calls;
    assert forall x :: x in calls + [c] <==> x in calls || x == c;
  }

  /** One more call keeps the fields equal to what the calls say. */
  lemma MatchesNext(calls: seq<Call>, outer: Header, max: int, f: Fields, c: Call)
    requires Matches(calls, outer, max, f) && ValidCalls([c])
    ensures Matches(calls + [c], outer, max, After(f, c, max))
  {
    assert c in [c] && forall x :: x in calls + [c] <==> x in calls || x == c;
    StatusNext(calls, outer, f, c, max);
    BytesNext(calls, max, f, c);
  }

  /** The fields after all of a handler's calls. */
  ghost function AfterAll(calls: seq<Call>, outer: Header, max: int): Fields {
    if calls == [] then Fields(0, map[], [], false, false, outer, [])
    else After(AfterAll(calls[..|calls| - 1], outer, max), calls[|calls| - 1], max)
  }

  /**
   Over any calls: the status is the first final one, the headers are the replayed ones of that moment, the body
   is every byte written unless they exceed the cap, and everything was forwarded.
   */
  lemma {:induction false} AllMatch(calls: seq<Call>, outer: Header, max: int)
    requires ValidCalls(calls)
    ensures Matches(calls, outer, max, AfterAll(calls, outer, max))
  {
    if calls != [] {
      var before, c := calls[..|calls| - 1], calls[|calls| - 1];
      assert calls == before + [c];
      assert c in calls && forall x | x in before :: x in calls;
      AllMatch(before, outer, max);
      MatchesNext(before, outer, max, AfterAll(before, outer, max), c);
    }
  }

  // ---- Stored responses no client saw ----

  lemma NothingForbids()
    ensures !Unstorable(map[])
  {
  }

  /** A protocol switch: the client saw 101 and retries get the status sent after it. */
  lemma SwitchedThenDone(max: nat)
    ensures var calls := [WriteHeader(SWITCHING_PROTOCOLS), WriteHeader(200)];
      && ValidCalls(calls) && MayStore(calls, map[], max)
      && Saw(calls, map[]).status == Some(101) && Recorded(calls, map[]).status == 200
  {
    var a, b := WriteHeader(SWITCHING_PROTOCOLS), WriteHeader(200);
    assert [a, b][1..] == [b];
    assert FirstCommit([a, b]) == Some(a) && FinalStatus([b]) == Some(200);
    assert HeadersThen([b], map[]) == map[];
    SeenOf([a, b], map[], _ => "");
    NothingForbids();
  }

  /** A flush, then a failure: the client saw 200 and retries get 404. */
  lemma FlushedThenFailed(max: nat)
    ensures var calls := [Flush, WriteHeader(404)];
      && ValidCalls(calls) && MayStore(calls, map[], max)
      && Saw(calls, map[]).status == Some(200) && Recorded(calls, map[]).status == 404
  {
    var b := WriteHeader(404);
    assert [Flush, b][1..] == [b];
    assert FirstCommit([Flush, b]) == Some(Flush) && FinalStatus([b]) == Some(404);
    assert HeadersThen([b], map[]) == map[];
    SeenOf([Flush, b], map[], _ => "");
    NothingForbids();
  }

  /** A connection taken over: its client got no response and retries get an empty 200. */
  lemma TakenOverThenStored(max: nat)
    ensures var calls := [Hijack(true)];
      && ValidCalls(calls) && MayStore(calls, map[], max)
      && Saw(calls, map[]).status == None && Recorded(calls, map[]) == Response(200, map[], [])
  {
    var calls := [Hijack(true)];
    assert calls[1..] == [] && calls[..0] == [];
    assert FirstCommit(calls) == Some(Hijack(true)) && FinalStatus(calls) == None;
    assert HeadersThen(calls, map[]) == map[] && Replayable(map[]) == map[];
    SeenOf(calls, map[], _ => "");
    NothingForbids();
  }

  const COOKIE: Header := map["Set-Cookie" := ["s=1"]]

  /** A cookie flushed and then taken back: the client got it, and the response is stored. */
  lemma CookieFlushedThenStored(b: Bytes, max: nat)
    requires |b| <= max
    ensures var calls := [SetHeaders(COOKIE), Flush, SetHeaders(map[]), Write(b)];
      && ValidCalls(calls) && MayStore(calls, map[], max)
      && Saw(calls, map[]).status == Some(200) && Unstorable(Saw(calls, map[]).header)
  {
    var s, u, w := SetHeaders(COOKIE), SetHeaders(map[]), Write(b);
    var calls := [s, Flush, u, w];
    assert calls[1..] == [Flush, u, w] && [Flush, u, w][1..] == [u, w] && [u, w][1..] == [w];
    assert FirstCommit([Flush, u, w]) == Some(Flush) && HeadersSent([Flush, u, w], COOKIE) == COOKIE;
    assert FinalStatus([w]) == Some(200) && FinalStatus([u, w]) == Some(200) && FinalStatus([Flush, u, w]) == Some(200);
    assert HeadersThen([u, w], COOKIE) == HeadersThen([w], map[]) == map[];
    assert HeadersThen([Flush, u, w], COOKIE) == map[];
    assert calls[..3] == [s, Flush, u] && [s, Flush, u][..2] == [s, Flush] && [s, Flush][..1] == [s];
    assert Written([s]) == [] && Written([s, Flush]) == [] && Written([s, Flush, u]) == [];
    assert |Values(COOKIE, "Set-Cookie")| == 1;
    SeenOf(calls, map[], _ => "");
    NothingForbids();
  }

  /** Plain writes without headers, part of them flushed, whose first part has another type than the whole. */
  lemma PartsDiffer(calls: seq<Call>, max: nat, detect: Bytes -> string)
    requires ValidCalls(calls) && FirstCommit(calls).Some? && FirstCommit(calls).value.Write? && FinalStatus(calls) == Some(200)
    requires HeadersThen(calls, map[]) == map[] && Written(calls) != [] && |Written(calls)| <= max
    requires detect(Head(FirstChunk(calls))) != detect(Head(Written(calls)))
    ensures MayStore(calls, map[], max) && StatusKept(calls)
    ensures FirstSaw(calls, map[], detect) != RetrySees(Recorded(calls, map[]), detect)
  {
    assert CONTENT_TYPE !in Replayable(map[]);
    RetryGetsTheSame(calls, map[], detect);
    NothingForbids();
  }

  lemma TwoParts(a: Bytes, b: Bytes)
    ensures var calls := [Write(a), Flush, Write(b)];
      Written(calls) == a + b && FirstChunk(calls) == a
  {
    var calls := [Write(a), Flush, Write(b)];
    CallsExtend([], Write(a));
    CallsExtend([Write(a)], Flush);
    CallsExtend([Write(a), Flush], Write(b));
    assert [] + [Write(a)] == [Write(a)] && [Write(a)] + [Flush] == [Write(a), Flush] && [Write(a), Flush] + [Write(b)] == calls;
  }

  lemma TwoPartsDecide(a: Bytes, b: Bytes)
    ensures var calls := [Write(a), Flush, Write(b)];
      && ValidCalls(calls) && FirstCommit(calls) == Some(Write(a)) && FinalStatus(calls) == Some(200)
      && HeadersThen(calls, map[]) == map[]
  {
  }

  /** A page flushed in two parts: its client got the first part's type and retries get the whole page's. */
  lemma SniffedInParts(a: Bytes, b: Bytes, max: nat, detect: Bytes -> string)
    requires a != [] && |a + b| <= max && detect(Head(a)) != detect(Head(a + b))
    ensures var calls := [Write(a), Flush, Write(b)];
      && ValidCalls(calls) && MayStore(calls, map[], max) && StatusKept(calls)
      && FirstSaw(calls, map[], detect) != RetrySees(Recorded(calls, map[]), detect)
  {
    TwoParts(a, b);
    TwoPartsDecide(a, b);
    PartsDiffer([Write(a), Flush, Write(b)], max, detect);
  }

  class Recorder {
    const max: int
    ghost const outer: Header
    var status: int
    var header: Header
    var body: Bytes
    var unstorable: bool
    var overflow: bool
    var live: Header // the header map of the writer underneath, which the handler changes
    var sent: seq<Sent> // the calls made on that writer
    ghost var calls: seq<Call>

    ghost function View(): Fields
      reads this
    {
      Fields(status, header, body, unstorable, overflow, live, sent)
    }

    ghost predicate Valid()
      reads this
    {
      ValidCalls(calls) && View() == AfterAll(calls, outer, max)
    }

    constructor (max: int, h: Header)
      ensures Valid() && calls == [] && outer == h && this.max == max
    {
      this.max, outer, live := max, h, h;
      status, header, body, unstorable, overflow := 0, map[], [], false, false;
      sent, calls := [], [];
    }

    ghost method Record(c: Call)
      requires ValidCalls(calls) && ValidCalls([c]) && View() == After(AfterAll(calls, outer, max), c, max)
      modifies this`calls
      ensures Valid() && calls == old(calls) + [c]
    {
      assert (calls + [c])[..|calls|] == calls;
      assert c in [c] && forall x :: x in calls + [c] <==> x in calls || x == c;
      calls := calls + [c];
    }

    /** The handler changes its header map. */
    method ChangeHeaders(h: Header)
      requires Valid()
      modifies this
      ensures Valid() && calls == old(calls) + [SetHeaders(h)]
    {
      live := h;
      Record(SetHeaders(h));
    }

    /** snapshot: the final status and the headers sent with it. */
    method Snapshot(code: int)
      modifies this`status, this`header, this`unstorable
      ensures View() == Snapped(old(View()), code)
    {
      status := code;
      var noStore := NoStore(live);
      unstorable := |Values(live, "Set-Cookie")| > 0 || noStore;
      CopyHeaders();
    }

    method CopyHeaders()
      modifies this`header
      ensures header == Replayable(live)
    {
      header := map[];
      for n := 0 to |REPLAYED_HEADERS|
        invariant header == map name | name in live && name in REPLAYED_HEADERS[..n] && |live[name]| > 0 :: live[name]
      {
        var name := REPLAYED_HEADERS[n];
        var v := Values(live, name);
        if |v| > 0 {
          header := header[name := v];
        }
        assert REPLAYED_HEADERS[..n + 1] == REPLAYED_HEADERS[..n] + [name];
      }
    }

    method WriteHeader(code: int)
      requires Valid() && 100 <= code <= 999
      modifies this
      ensures Valid() && calls == old(calls) + [Call.WriteHeader(code)]
    {
      if status == 0 && code >= 200 {
        Snapshot(code);
      }
      sent := sent + [SentHeader(live, code)];
      Record(Call.WriteHeader(code));
    }

    /** The part of Write that keeps the bytes, or gives up on them past the cap. */
    method KeepBytes(b: Bytes)
      modifies this`body, this`overflow
      ensures View() == Keep(old(View()), b, max)
    {
      if !overflow {
        if |body| + |b| > max {
          overflow := true;
          body := [];
        } else {
          body := body + b;
        }
      }
    }

    method Write(b: Bytes)
      requires Valid()
      modifies this
      ensures Valid() && calls == old(calls) + [Call.Write(b)]
    {
      if status == 0 {
        Snapshot(STATUS_OK);
        sent := sent + [SentHeader(live, STATUS_OK)];
      }
      KeepBytes(b);
      sent := sent + [SentBody(live, b)];
      Record(Call.Write(b));
    }

    /** The handler unwraps the recorder and flushes the writer underneath. */
    method FlushUnderneath()
      requires Valid()
      modifies this
      ensures Valid() && calls == old(calls) + [Flush]
    {
      sent := sent + [SentFlush(live)];
      Record(Flush);
    }

    /** The handler unwraps the recorder and takes the connection over, if the server lets it. */
    method HijackUnderneath(ok: bool)
      requires Valid()
      modifies this
      ensures Valid() && calls == old(calls) + [Hijack(ok)]
    {
      if ok {
        sent := sent + [SentHijack(live)];
      }
      Record(Hijack(ok));
    }

    /** storable, which also settles the status of a handler that wrote nothing. */
    method Storable() returns (ok: bool)
      requires Valid()
      modifies this`status, this`header, this`unstorable
      ensures ok <==> MayStore(calls, outer, max)
      ensures ok ==> Response(status, header, body) == Recorded(calls, outer)
      ensures sent == Forwarded(calls, outer)
    {
      AllMatch(calls, outer, max);
      StatusExtends(calls, SetHeaders(map[]), outer);
      if status == 0 {
        Snapshot(STATUS_OK);
      }
      ok := status < 500 && status !in RELEASED_STATUSES && !unstorable && !overflow;
    }
  }
}
