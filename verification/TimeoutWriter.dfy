/**
 The request timeout: a handler and a deadline callback race for one response. Every call a
 handler makes, and the callback, takes the writer's mutex, so a request is a sequence of calls;
 each call carries whether the request's context had reported its deadline when it ran. Any
 sequence is allowed.
 */
module TimeoutWriter {
  import opened Basics
  import opened Http
  import opened Strings

  const SERVICE_UNAVAILABLE := 503

  datatype Writer = Writer(
    outer: Header,   // the underlying header map before the handler ran
    h: Header,       // the handler's own map, until the response starts
    under: Header,    // the header map of the writer underneath
    started: bool,
    timedOut: bool,
    answered: bool,
    wire: seq<Sent>  // the calls made on the writer underneath
  )

  datatype Call =
    | SetHeaders(headers: Header)
    | WriteHeader(code: int, expired: bool)
    | Write(b: Bytes, expired: bool)
    | Flush(expired: bool)
    | Hijack(ok: bool, expired: bool)
    | Touch(expired: bool) // read and write deadlines, full duplex
    | Deadline // the timer's callback

  /** The headers of the timeout response: the outer middleware's and three fixed fields. */
  function AnswerHeader(outer: Header, body: Bytes): Header {
    outer["Content-Type" := ["application/problem+json"]]
         ["Cache-Control" := ["no-store"]]
         ["Content-Length" := [Decimal(|body|)]]
  }

  function Answer(outer: Header, body: Bytes): seq<Sent> {
    var h := AnswerHeader(outer, body);
    [SentHeader(h, SERVICE_UNAVAILABLE), SentBody(h, body), SentFlush(h)]
  }

  function New(outer: Header): Writer {
    Writer(outer, outer, outer, false, false, false, [])
  }

  /** refuseLocked. */
  predicate Refuses(w: Writer, expired: bool) {
    w.timedOut || (!w.started && expired)
  }

  function Answered(w: Writer, body: Bytes): Writer {
    if w.answered then w
    else w.(answered := true, under := AnswerHeader(w.outer, body), wire := w.wire + Answer(w.outer, body))
  }

  function Started(w: Writer): Writer {
    if w.started then w else w.(under := w.h, started := true)
  }

  /** One call under the mutex; `body` is the encoded problem of the timeout response. */
  function Next(w: Writer, c: Call, body: Bytes): Writer {
    match c
    case SetHeaders(headers) => if w.started then w.(under := headers) else w.(h := headers)
    case WriteHeader(code, expired) =>
      if w.started then w
      else if Refuses(w, expired) then w.(timedOut := true)
      else if Informational(code) then w.(under := w.h, wire := w.wire + [SentHeader(w.h, code)])
      else w.(under := w.h, started := true, wire := w.wire + [SentHeader(w.h, code)])
    case Write(b, expired) =>
      if !w.started && Refuses(w, expired) then w.(timedOut := true)
      else var s := Started(w); s.(wire := s.wire + [SentBody(s.under, b)])
    case Flush(expired) =>
      if !w.started && Refuses(w, expired) then w.(timedOut := true)
      else var s := Started(w); s.(wire := s.wire + [SentFlush(s.under)])
    case Hijack(ok, expired) =>
      if !w.started && Refuses(w, expired) then w.(timedOut := true)
      else if ok then w.(started := true, wire := w.wire + [SentHijack(w.under)])
      else w
    case Touch(expired) =>
      if !w.started && Refuses(w, expired) then w.(timedOut := true) else w
    case Deadline =>
      if w.started then w else Answered(w.(timedOut := true), body)
  }

  function Run(outer: Header, calls: seq<Call>, body: Bytes): Writer {
    if calls == [] then New(outer)
    else Next(Run(outer, calls[..|calls| - 1], body), calls[|calls| - 1], body)
  }

  /** finish: the handler returned or panicked and the callback can no longer run. */
  function Finish(w: Writer, returned: bool, expired: bool, body: Bytes): Writer {
    if w.started || w.answered then w
    else if Refuses(w, expired) then
      if returned then Answered(w.(timedOut := true), body) else w.(timedOut := true)
    else w.(under := w.h)
  }

  // ---- Who speaks, decided from the calls alone ----

  datatype Verdict = Open | HandlerSpoke | TimedOut

  /** What one call settles while nothing is settled. */
  function Settles(c: Call): Verdict {
    match c
    case SetHeaders(_) => Open
    case WriteHeader(code, expired) => if expired then TimedOut else if Informational(code) then Open else HandlerSpoke
    case Write(_, expired) => if expired then TimedOut else HandlerSpoke
    case Flush(expired) => if expired then TimedOut else HandlerSpoke
    case Hijack(ok, expired) => if expired then TimedOut else if ok then HandlerSpoke else Open
    case Touch(expired) => if expired then TimedOut else Open
    case Deadline => TimedOut
  }

  /** The first call that settles anything settles everything. */
  function Judge(calls: seq<Call>): Verdict {
    if calls == [] then Open
    else if Settles(calls[0]) != Open then Settles(calls[0])
    else Judge(calls[1..])
  }

  lemma {:induction false} JudgeExtends(calls: seq<Call>, c: Call)
    ensures Judge(calls + [c]) == if Judge(calls) != Open then Judge(calls) else Settles(c)
  {
    if calls != [] {
      assert (calls + [c])[1..] == calls[1..] + [c];
      JudgeExtends(calls[1..], c);
    }
  }

  /** Everything the handler wrote, in order. */
  function Written(calls: seq<Call>): Bytes {
    if calls == [] then []
    else Written(calls[..|calls| - 1]) + if calls[|calls| - 1].Write? then calls[|calls| - 1].b else []
  }

  function BodyOf(wire: seq<Sent>): Bytes {
    if wire == [] then []
    else BodyOf(wire[..|wire| - 1]) + if wire[|wire| - 1].SentBody? then wire[|wire| - 1].b else []
  }

  predicate OnlyInformational(wire: seq<Sent>) {
    forall e | e in wire :: e.SentHeader? && Informational(e.code)
  }

  /** How many final statuses were sent explicitly. */
  function Finals(wire: seq<Sent>): nat {
    if wire == [] then 0
    else
      var e := wire[|wire| - 1];
      Finals(wire[..|wire| - 1]) + if e.SentHeader? && !Informational(e.code) then 1 else 0
  }

  lemma {:induction false} SilentWire(wire: seq<Sent>)
    requires OnlyInformational(wire)
    ensures Finals(wire) == 0 && BodyOf(wire) == []
  {
    if wire != [] {
      assert wire[|wire| - 1] in wire;
      SilentWire(wire[..|wire| - 1]);
    }
  }

  lemma WireExtends(wire: seq<Sent>, e: Sent)
    ensures Finals(wire + [e]) == Finals(wire) + if e.SentHeader? && !Informational(e.code) then 1 else 0
    ensures BodyOf(wire + [e]) == BodyOf(wire) + if e.SentBody? then e.b else []
  {
    assert (wire + [e])[..|wire|] == wire;
  }

  lemma {:induction false} AnswerShape(infos: seq<Sent>, outer: Header, body: Bytes)
    requires OnlyInformational(infos)
    ensures Finals(infos + Answer(outer, body)) == 1 && BodyOf(infos + Answer(outer, body)) == body
  {
    SilentWire(infos);
    var h := AnswerHeader(outer, body);
    WireExtends(infos, SentHeader(h, SERVICE_UNAVAILABLE));
    WireExtends(infos + [SentHeader(h, SERVICE_UNAVAILABLE)], SentBody(h, body));
    WireExtends(infos + [SentHeader(h, SERVICE_UNAVAILABLE)] + [SentBody(h, body)], SentFlush(h));
    assert infos + Answer(outer, body) == infos + [SentHeader(h, SERVICE_UNAVAILABLE)] + [SentBody(h, body)] + [SentFlush(h)];
  }

  /** The wire carries one voice: nobody's yet, the handler's, or the timeout response's. */
  ghost predicate OneVoice(w: Writer, calls: seq<Call>, body: Bytes) {
    match Judge(calls)
    case Open => !w.started && !w.timedOut && !w.answered && OnlyInformational(w.wire)
    case HandlerSpoke => w.started && !w.timedOut && !w.answered && Finals(w.wire) <= 1
    case TimedOut =>
      && !w.started && w.timedOut
      && if w.answered then AnsweredOnce(w, body) else OnlyInformational(w.wire)
  }

  /** The 503 went out once, after nothing but informational responses, with its own headers. */
  ghost predicate AnsweredOnce(w: Writer, body: Bytes) {
    w.under == AnswerHeader(w.outer, body) && exists infos :: OnlyInformational(infos) && w.wire == infos + Answer(w.outer, body)
  }

  lemma NextOneVoice(w: Writer, calls: seq<Call>, c: Call, body: Bytes)
    requires OneVoice(w, calls, body)
    ensures OneVoice(Next(w, c, body), calls + [c], body)
  {
    JudgeExtends(calls, c);
    var w' := Next(w, c, body);
    if Judge(calls) == Open {
      SilentWire(w.wire);
    }
    if |w'.wire| == |w.wire| + 1 {
      assert w'.wire == w.wire + [w'.wire[|w.wire|]];
      WireExtends(w.wire, w'.wire[|w.wire|]);
    }
  }

  lemma {:induction false} RunOneVoice(outer: Header, calls: seq<Call>, body: Bytes)
    ensures Run(outer, calls, body).outer == outer && OneVoice(Run(outer, calls, body), calls, body)
  {
    if calls != [] {
      var before, c := calls[..|calls| - 1], calls[|calls| - 1];
      assert calls == before + [c];
      RunOneVoice(outer, before, body);
      OneVoiceMore(outer, before, c, body);
    }
  }

  lemma OneVoiceMore(outer: Header, calls: seq<Call>, c: Call, body: Bytes)
    requires Run(outer, calls, body).outer == outer && OneVoice(Run(outer, calls, body), calls, body)
    ensures Run(outer, calls + [c], body).outer == outer && OneVoice(Run(outer, calls + [c], body), calls + [c], body)
  {
    var w := Run(outer, calls, body);
    RunExtends(outer, calls, c, body);
    NextOneVoice(w, calls, c, body);
    NextKeepsOuter(w, c, body);
  }

  lemma NextKeepsOuter(w: Writer, c: Call, body: Bytes)
    ensures Next(w, c, body).outer == w.outer
  {
  }

  /** What a call that is not refused puts on the wire. */
  function Emitted(w: Writer, c: Call): seq<Sent> {
    match c
    case WriteHeader(code, _) => if w.started then [] else [SentHeader(w.h, code)]
    case Write(b, _) => [SentBody(Started(w).under, b)]
    case Flush(_) => [SentFlush(Started(w).under)]
    case Hijack(ok, _) => if ok then [SentHijack(w.under)] else []
    case _ => []
  }

  lemma NextEmits(w: Writer, c: Call, body: Bytes)
    requires !w.timedOut && !Next(w, c, body).timedOut
    ensures Next(w, c, body).wire == w.wire + Emitted(w, c)
  {
  }

  /** Only a write emits body bytes, and it emits all of them. */
  lemma EmittedBody(w: Writer, c: Call)
    ensures BodyOf(w.wire + Emitted(w, c)) == BodyOf(w.wire) + if c.Write? then c.b else []
  {
    var emitted := Emitted(w, c);
    if emitted == [] {
      assert w.wire + emitted == w.wire;
    } else {
      assert emitted == [emitted[0]];
      WireExtends(w.wire, emitted[0]);
    }
  }

  lemma WrittenExtends(calls: seq<Call>, c: Call)
    ensures Written(calls + [c]) == Written(calls) + if c.Write? then c.b else []
  {
    assert (calls + [c])[..|calls|] == calls;
  }

  lemma RunExtends(outer: Header, calls: seq<Call>, c: Call, body: Bytes)
    ensures Run(outer, calls + [c], body) == Next(Run(outer, calls, body), c, body)
  {
    assert (calls + [c])[..|calls|] == calls;
  }

  lemma {:induction false} RunWrites(outer: Header, calls: seq<Call>, body: Bytes)
    requires Judge(calls) != TimedOut
    ensures BodyOf(Run(outer, calls, body).wire) == Written(calls)
  {
    if calls != [] {
      var before, c := calls[..|calls| - 1], calls[|calls| - 1];
      assert calls == before + [c];
      JudgeExtends(before, c);
      RunWrites(outer, before, body);
      RunOneVoice(outer, before, body);
      RunOneVoice(outer, calls, body);
      var w := Run(outer, before, body);
      NextEmits(w, c, body);
      EmittedBody(w, c);
      WrittenExtends(before, c);
    }
  }

  /**
   Single voice, over every sequence of handler calls interleaved with the deadline callback: the
   first settling call alone decides who speaks; started and timedOut are never both true; at most
   one final status is sent explicitly; and the bytes on the wire are exactly the handler's writes
   in order or, once the request timed out, exactly the timeout body or nothing: never a mix.
   */
  lemma SingleVoice(outer: Header, calls: seq<Call>, body: Bytes)
    ensures var w := Run(outer, calls, body);
      && w.outer == outer
      && OneVoice(w, calls, body)
      && (w.started <==> Judge(calls) == HandlerSpoke)
      && (w.timedOut <==> Judge(calls) == TimedOut)
      && Finals(w.wire) <= 1
      && BodyOf(w.wire) == if !w.timedOut then Written(calls) else if w.answered then body else []
  {
    RunOneVoice(outer, calls, body);
    Shape(Run(outer, calls, body), calls, body);
    if Judge(calls) != TimedOut {
      RunWrites(outer, calls, body);
    }
  }

  lemma Shape(w: Writer, calls: seq<Call>, body: Bytes)
    requires OneVoice(w, calls, body)
    ensures Judge(calls) == Open ==> Finals(w.wire) == 0 && BodyOf(w.wire) == []
    ensures Judge(calls) == TimedOut ==>
      Finals(w.wire) == (if w.answered then 1 else 0) && BodyOf(w.wire) == if w.answered then body else []
  {
    match Judge(calls)
    case Open => SilentWire(w.wire);
    case HandlerSpoke =>
    case TimedOut =>
      if w.answered {
        var infos :| OnlyInformational(infos) && w.wire == infos + Answer(w.outer, body);
        AnswerShape(infos, w.outer, body);
      } else {
        SilentWire(w.wire);
      }
  }

  /**
   Timeout answer: if the deadline came before the response started (as some call, the callback or
   finish itself saw it) and the handler returned, the wire ends with exactly one 503 whose headers
   are the outer middleware's plus the three fixed fields, preceded only by informational
   responses, whatever the handler put in its header map. A handler that panics after the deadline
   gets it only if the callback ran. One that returns in time without speaking sends nothing and
   leaves its headers for the implicit 200; one that spoke is left alone.
   */
  lemma TimeoutAnswer(outer: Header, calls: seq<Call>, returned: bool, expired: bool, body: Bytes)
    ensures var w := Run(outer, calls, body);
      var end := Finish(w, returned, expired, body);
      var late := Judge(calls) == TimedOut || (Judge(calls) == Open && expired);
      && (late && returned ==>
            && Finals(end.wire) == 1 && BodyOf(end.wire) == body
            && AnsweredOnce(end, body) && end.outer == outer
            && end.under == AnswerHeader(outer, body))
      && (late && !returned ==> end.wire == w.wire)
      && (!late && Judge(calls) == Open ==> OnlyInformational(end.wire) && end.under == w.h && !end.answered)
      && (Judge(calls) == HandlerSpoke ==> end == w)
  {
    SingleVoice(outer, calls, body);
    var w := Run(outer, calls, body);
    var end := Finish(w, returned, expired, body);
    if (Judge(calls) == TimedOut || (Judge(calls) == Open && expired)) && returned {
      if !w.answered {
        assert OnlyInformational(w.wire) && end.wire == w.wire + Answer(w.outer, body);
      }
      var infos :| OnlyInformational(infos) && end.wire == infos + Answer(end.outer, body);
      AnswerShape(infos, end.outer, body);
    }
  }

  lemma {:induction false} InformationalDeliversNothing(wire: seq<Sent>)
    requires OnlyInformational(wire)
    ensures Delivered(wire) == Silent
  {
    if wire != [] {
      assert wire[|wire| - 1] in wire;
      InformationalDeliversNothing(wire[..|wire| - 1]);
    }
  }

  /** The headers every timeout response has: the outer middleware's, with these three fields. */
  predicate TimeoutHeaders(h: Header, outer: Header, body: Bytes) {
    && h.Keys == outer.Keys + {"Content-Type", "Cache-Control", "Content-Length"}
    && h["Content-Type"] == ["application/problem+json"]
    && h["Cache-Control"] == ["no-store"]
    && h["Content-Length"] == [Decimal(|body|)]
    && forall name | name in outer && name != "Content-Type" && name != "Cache-Control" && name != "Content-Length" ::
         h[name] == outer[name]
  }

  lemma AnswerDelivers(infos: seq<Sent>, outer: Header, body: Bytes)
    requires OnlyInformational(infos)
    ensures var x := Delivered(infos + Answer(outer, body));
      && x.status == Some(503) && x.body == body && x.flushed && !x.hijacked && TimeoutHeaders(x.header, outer, body)
  {
    InformationalDeliversNothing(infos);
    var a := Answer(outer, body);
    DeliveredMore(infos, a[0]);
    DeliveredMore(infos + [a[0]], a[1]);
    DeliveredMore(infos + [a[0]] + [a[1]], a[2]);
    assert infos + a == infos + [a[0]] + [a[1]] + [a[2]];
    assert [] + body == body;
  }

  /**
   What the client gets of a late handler that returned, over every sequence of calls: 503 with the timeout body,
   flushed, and the outer headers with the three fixed fields, whatever the handler put in its header map.
   */
  lemma TimeoutDelivers(outer: Header, calls: seq<Call>, expired: bool, body: Bytes)
    requires Judge(calls) == TimedOut || (Judge(calls) == Open && expired)
    ensures var end := Finish(Run(outer, calls, body), true, expired, body);
      var x := Delivered(end.wire);
      && x.status == Some(503) && x.body == body && x.flushed && !x.hijacked && TimeoutHeaders(x.header, outer, body)
  {
    TimeoutAnswer(outer, calls, true, expired, body);
    var end := Finish(Run(outer, calls, body), true, expired, body);
    var infos :| OnlyInformational(infos) && end.wire == infos + Answer(end.outer, body);
    AnswerDelivers(infos, outer, body);
  }

  // ---- Transparency ----

  /** The handler's headers now, if it had the writer underneath to itself. */
  function Live(calls: seq<Call>, outer: Header): Header {
    if calls == [] then outer
    else if calls[|calls| - 1].SetHeaders? then calls[|calls| - 1].headers
    else Live(calls[..|calls| - 1], outer)
  }

  function DirectFor(h: Header, c: Call): seq<Sent> {
    match c
    case WriteHeader(code, _) => [SentHeader(h, code)]
    case Write(b, _) => [SentBody(h, b)]
    case Flush(_) => [SentFlush(h)]
    case Hijack(ok, _) => if ok then [SentHijack(h)] else []
    case _ => []
  }

  /** The same calls made on the writer underneath, without the middleware. */
  function Direct(calls: seq<Call>, outer: Header): seq<Sent> {
    if calls == [] then []
    else
      var before := calls[..|calls| - 1];
      Direct(before, outer) + DirectFor(Live(before, outer), calls[|calls| - 1])
  }

  /** The header map a handler is given. */
  function Visible(w: Writer): Header { if w.started then w.under else w.h }

  /** The exchange `x` so far is the middleware's and the direct one; `live` are the handler's headers. */
  predicate Alike(w: Writer, x: Exchange, live: Header) {
    && (w.started <==> x.status.Some? || x.hijacked)
    && (!x.hijacked ==> Visible(w) == live)
  }

  function One(x: Exchange, sent: seq<Sent>): Exchange
    requires |sent| <= 1
  {
    if sent == [] then x else Deliver(x, sent[0])
  }

  lemma OneMore(sent: seq<Sent>, more: seq<Sent>)
    requires |more| <= 1
    ensures Delivered(sent + more) == One(Delivered(sent), more)
  {
    if more == [] {
      assert sent + more == sent;
    } else {
      DeliveredMore(sent, more[0]);
      assert more == [more[0]];
    }
  }

  /** One call makes the same of the exchange either way. */
  lemma NextAlike(w: Writer, x: Exchange, live: Header, c: Call, body: Bytes)
    requires Alike(w, x, live) && !w.timedOut && !Next(w, c, body).timedOut
    ensures One(x, Emitted(w, c)) == One(x, DirectFor(live, c))
    ensures Alike(Next(w, c, body), One(x, Emitted(w, c)), if c.SetHeaders? then c.headers else live)
  {
  }

  lemma DirectMore(calls: seq<Call>, c: Call, outer: Header)
    ensures Direct(calls + [c], outer) == Direct(calls, outer) + DirectFor(Live(calls, outer), c)
    ensures Live(calls + [c], outer) == if c.SetHeaders? then c.headers else Live(calls, outer)
  {
    assert (calls + [c])[..|calls|] == calls;
  }

  /**
   Transparency: unless the request timed out, the client gets exactly what it would get without the middleware:
   status, headers, body and flushes of the same calls made directly. The handler sees the same header map
   until it takes the connection over.
   */
  lemma {:induction false} Transparent(outer: Header, calls: seq<Call>, body: Bytes)
    requires Judge(calls) != TimedOut
    ensures Delivered(Run(outer, calls, body).wire) == Delivered(Direct(calls, outer))
    ensures Alike(Run(outer, calls, body), Delivered(Direct(calls, outer)), Live(calls, outer))
  {
    if calls != [] {
      var before, c := calls[..|calls| - 1], calls[|calls| - 1];
      assert calls == before + [c];
      JudgeExtends(before, c);
      RunOneVoice(outer, before, body);
      RunOneVoice(outer, calls, body);
      Transparent(outer, before, body);
      TransparentMore(outer, before, c, body);
    }
  }

  lemma TransparentMore(outer: Header, calls: seq<Call>, c: Call, body: Bytes)
    requires !Run(outer, calls, body).timedOut && !Run(outer, calls + [c], body).timedOut
    requires Delivered(Run(outer, calls, body).wire) == Delivered(Direct(calls, outer))
    requires Alike(Run(outer, calls, body), Delivered(Direct(calls, outer)), Live(calls, outer))
    ensures Delivered(Run(outer, calls + [c], body).wire) == Delivered(Direct(calls + [c], outer))
    ensures Alike(Run(outer, calls + [c], body), Delivered(Direct(calls + [c], outer)), Live(calls + [c], outer))
  {
    var w, live := Run(outer, calls, body), Live(calls, outer);
    RunExtends(outer, calls, c, body);
    DirectMore(calls, c, outer);
    NextEmits(w, c, body);
    NextAlike(w, Delivered(w.wire), live, c, body);
    OneMore(w.wire, Emitted(w, c));
    OneMore(Direct(calls, outer), DirectFor(live, c));
  }

  /** And so does the end: one that returned in time, or had started, leaves the client the response of the direct calls. */
  lemma TransparentEnd(outer: Header, calls: seq<Call>, returned: bool, expired: bool, body: Bytes)
    requires Judge(calls) != TimedOut && !(Judge(calls) == Open && expired)
    ensures var end := Finish(Run(outer, calls, body), returned, expired, body);
      Commit(Delivered(end.wire), STATUS_OK, end.under) == Commit(Delivered(Direct(calls, outer)), STATUS_OK, Live(calls, outer))
  {
    Transparent(outer, calls, body);
    RunOneVoice(outer, calls, body);
  }

  // ---- The writer as updated in place ----

  datatype Result = Ok | ErrHandlerTimeout | ErrUnderneath

  class TimeoutWriter {
    const outer: Header
    const body: Bytes
    var h: Header
    var under: Header
    var started: bool
    var timedOut: bool
    var answered: bool
    var wire: seq<Sent>

    ghost function View(): Writer
      reads this
    {
      Writer(outer, h, under, started, timedOut, answered, wire)
    }

    constructor (outer: Header, body: Bytes)
      ensures View() == New(outer) && this.body == body
    {
      this.outer, this.body, h, under := outer, body, outer, outer;
      started, timedOut, answered, wire := false, false, false, [];
    }

    method ChangeHeaders(headers: Header)
      modifies this
      ensures View() == Next(old(View()), SetHeaders(headers), body)
    {
      if started { under := headers; } else { h := headers; }
    }

    /** answerLocked. */
    method AnswerLocked()
      modifies this`answered, this`under, this`wire
      ensures View() == Answered(old(View()), body)
    {
      if answered {
        return;
      }
      answered := true;
      under := outer;
      under := under["Content-Type" := ["application/problem+json"]];
      under := under["Cache-Control" := ["no-store"]];
      under := under["Content-Length" := [Decimal(|body|)]];
      ghost var before := wire;
      wire := wire + [SentHeader(under, SERVICE_UNAVAILABLE)];
      wire := wire + [SentBody(under, body)];
      wire := wire + [SentFlush(under)];
      assert wire == before + Answer(outer, body);
    }

    /** refuseLocked: settles on the timeout when the context reports the deadline first. */
    method RefuseLocked(expired: bool) returns (refused: bool)
      modifies this`timedOut
      ensures refused == timedOut == Refuses(old(View()), expired)
    {
      if !timedOut && !started && expired {
        timedOut := true;
      }
      return timedOut;
    }

    method StartLocked()
      modifies this`under, this`started
      ensures under == h && started
    {
      under := h;
      started := true;
    }

    /** timeOut, from the timer's goroutine. */
    method TimeOut()
      modifies this
      ensures View() == Next(old(View()), Deadline, body)
    {
      if started {
        return;
      }
      timedOut := true;
      AnswerLocked();
    }

    method WriteHeader(code: int, expired: bool)
      modifies this
      ensures View() == Next(old(View()), Call.WriteHeader(code, expired), body)
    {
      if started {
        return;
      }
      var refused := RefuseLocked(expired);
      if refused {
        return;
      }
      if code >= 100 && code < 200 && code != 101 {
        under := h;
        wire := wire + [SentHeader(under, code)];
        return;
      }
      StartLocked();
      wire := wire + [SentHeader(under, code)];
    }

    /** Late writes are discarded and report success. */
    method Write(b: Bytes, expired: bool) returns (n: nat)
      modifies this
      ensures View() == Next(old(View()), Call.Write(b, expired), body)
      ensures n == |b|
    {
      if !started {
        var refused := RefuseLocked(expired);
        if refused {
          return |b|;
        }
        StartLocked();
      }
      wire := wire + [SentBody(under, b)];
      return |b|;
    }

    method FlushError(expired: bool) returns (err: Result)
      modifies this
      ensures View() == Next(old(View()), Flush(expired), body)
      ensures err == ErrHandlerTimeout <==> timedOut && !started
    {
      if !started {
        var refused := RefuseLocked(expired);
        if refused {
          return ErrHandlerTimeout;
        }
        StartLocked();
      }
      wire := wire + [SentFlush(under)];
      return Ok;
    }

    /** `ok` is whether the writer underneath gives the connection up. */
    method HijackConn(ok: bool, expired: bool) returns (err: Result)
      modifies this
      ensures View() == Next(old(View()), Hijack(ok, expired), body)
      ensures err == ErrHandlerTimeout <==> timedOut && !started
      ensures err == Ok ==> ok && started
    {
      if !started {
        var refused := RefuseLocked(expired);
        if refused {
          return ErrHandlerTimeout;
        }
      }
      if !ok {
        return ErrUnderneath;
      }
      started := true;
      wire := wire + [SentHijack(under)];
      return Ok;
    }

    /** SetReadDeadline, SetWriteDeadline and EnableFullDuplex. */
    method TouchConn(expired: bool) returns (err: Result)
      modifies this
      ensures View() == Next(old(View()), Touch(expired), body)
      ensures err == ErrHandlerTimeout <==> timedOut && !started
    {
      if !started {
        var refused := RefuseLocked(expired);
        if refused {
          return ErrHandlerTimeout;
        }
      }
      return Ok;
    }

    method FinishResponse(returned: bool, expired: bool)
      modifies this
      ensures View() == Finish(old(View()), returned, expired, body)
    {
      if started || answered {
        return;
      }
      var refused := RefuseLocked(expired);
      if refused {
        if returned {
          AnswerLocked();
        }
      } else {
        under := h;
      }
    }

    method Perform(c: Call)
      modifies this
      ensures View() == Next(old(View()), c, body)
    {
      match c {
        case SetHeaders(headers) => ChangeHeaders(headers);
        case WriteHeader(code, expired) => WriteHeader(code, expired);
        case Write(b, expired) => var _ := Write(b, expired);
        case Flush(expired) => var _ := FlushError(expired);
        case Hijack(ok, expired) => var _ := HijackConn(ok, expired);
        case Touch(expired) => var _ := TouchConn(expired);
        case Deadline => TimeOut();
      }
    }
  }

  /**
   One request through the middleware: the handler's calls interleaved with the callback, then
   finish. What the client gets follows from the calls alone.
   */
  method ServeHTTP(outer: Header, calls: seq<Call>, returned: bool, expired: bool, body: Bytes)
    returns (wire: seq<Sent>, headers: Header)
    ensures Finals(wire) <= 1
    ensures Judge(calls) == HandlerSpoke ==> BodyOf(wire) == Written(calls)
    ensures (Judge(calls) == TimedOut || (Judge(calls) == Open && expired)) && returned ==>
      BodyOf(wire) == body && headers == AnswerHeader(outer, body) && Finals(wire) == 1
    ensures Judge(calls) == Open && !expired ==> OnlyInformational(wire)
    ensures (Judge(calls) == TimedOut || (Judge(calls) == Open && expired)) && returned ==>
      var x := Delivered(wire);
      x.status == Some(503) && x.body == body && x.flushed && TimeoutHeaders(x.header, outer, body)
    ensures wire == Finish(Run(outer, calls, body), returned, expired, body).wire
    ensures headers == Finish(Run(outer, calls, body), returned, expired, body).under
    ensures Judge(calls) != TimedOut && !(Judge(calls) == Open && expired) ==>
      Commit(Delivered(wire), STATUS_OK, headers) == Commit(Delivered(Direct(calls, outer)), STATUS_OK, Live(calls, outer))
  {
    var tw := new TimeoutWriter(outer, body);
    for i := 0 to |calls|
      invariant tw.body == body && tw.View() == Run(outer, calls[..i], body)
    {
      tw.Perform(calls[i]);
      assert calls[..i + 1][..i] == calls[..i];
    }
    assert calls[..|calls|] == calls;
    SingleVoice(outer, calls, body);
    TimeoutAnswer(outer, calls, returned, expired, body);
    if Judge(calls) != TimedOut && !(Judge(calls) == Open && expired) {
      TransparentEnd(outer, calls, returned, expired, body);
    } else {
      TimeoutDelivers(outer, calls, expired, body);
    }
    tw.FinishResponse(returned, expired);
    wire, headers := tw.wire, tw.under;
  }
}
