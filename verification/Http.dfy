/**
 HTTP as net/http serves it: which statuses are final, and what a client gets from the calls made on the
 writer of its request.
 */
module Http {
  import opened Basics

  type Header = map<string, seq<string>>

  const STATUS_OK := 200
  const SWITCHING_PROTOCOLS := 101

  /** Informational statuses do not start a response; 101 Switching Protocols does. */
  predicate Informational(code: int) { 100 <= code < 200 && code != SWITCHING_PROTOCOLS }

  /** Statuses whose responses have no body: net/http drops what is written. */
  predicate BodyAllowed(code: int) { code >= 200 && code != 204 && code != 304 }

  /** A call on the writer, with its header map at that moment. */
  datatype Sent =
    | SentHeader(header: Header, code: int)
    | SentBody(header: Header, b: Bytes)
    | SentFlush(header: Header)
    | SentHijack(header: Header)

  /**
   One request's response so far: its status once committed, the headers it went out with, its body and the part of it
   written before the first flush. What a client gets on a connection the handler took over is up to the handler.
   */
  datatype Exchange = Exchange(status: Option<int>, header: Header, body: Bytes, lead: Bytes, flushed: bool, hijacked: bool)

  const Silent := Exchange(None, map[], [], [], false, false)

  /** The first status stays; nothing is sent on a connection the handler took over. */
  function Commit(x: Exchange, code: int, h: Header): (r: Exchange)
    ensures r.hijacked || r.status.Some?
  {
    if x.hijacked || x.status.Some? then x else x.(status := Some(code), header := h)
  }

  function Deliver(x: Exchange, s: Sent): Exchange {
    match s
    case SentHeader(h, code) => if Informational(code) then x else Commit(x, code, h)
    case SentBody(h, b) =>
      var r := Commit(x, STATUS_OK, h);
      if r.hijacked || !BodyAllowed(r.status.value) then r
      else r.(body := r.body + b, lead := if r.flushed then r.lead else r.lead + b)
    case SentFlush(h) =>
      var r := Commit(x, STATUS_OK, h);
      if r.hijacked then r else r.(flushed := true)
    case SentHijack(_) => x.(hijacked := true)
  }

  // ---- The type net/http adds ----

  const CONTENT_TYPE := "Content-Type"
  const SNIFF_LENGTH := 512

  /** http.Header.Get finds something. */
  predicate IsSet(h: Header, name: string) { name in h && |h[name]| > 0 && h[name][0] != "" }

  /** A response whose type net/http guesses: one with a body, no type, no content or transfer encoding. */
  predicate Sniffed(h: Header, code: int) {
    && BodyAllowed(code) && CONTENT_TYPE !in h
    && !IsSet(h, "Content-Encoding") && !IsSet(h, "Transfer-Encoding")
  }

  /** The bytes the guess is made from. */
  function Head(b: Bytes): Bytes { if |b| <= SNIFF_LENGTH then b else b[..SNIFF_LENGTH] }

  /** The type guessed from the first chunk, if there is one to guess from. */
  function Guess(h: Header, code: int, chunk: Bytes, detect: Bytes -> string): Option<string> {
    if Sniffed(h, code) && chunk != [] then Some(detect(Head(chunk))) else None
  }

  function WithType(h: Header, t: Option<string>): Header {
    if t.Some? then h[CONTENT_TYPE := [t.value]] else h
  }

  lemma TypesDiffer(h: Header, a: Option<string>, b: Option<string>)
    requires CONTENT_TYPE !in h
    ensures WithType(h, a) == WithType(h, b) <==> a == b
  {
    assert a.Some? ==> WithType(h, a)[CONTENT_TYPE][0] == a.value;
    assert b.Some? ==> WithType(h, b)[CONTENT_TYPE][0] == b.value;
  }

  function Delivered(sent: seq<Sent>): Exchange {
    if sent == [] then Silent else Deliver(Delivered(sent[..|sent| - 1]), sent[|sent| - 1])
  }

  lemma DeliveredMore(sent: seq<Sent>, s: Sent)
    ensures Delivered(sent + [s]) == Deliver(Delivered(sent), s)
  {
    assert (sent + [s])[..|sent|] == sent;
  }
}
