/**
 The dev console's buffer: a ring of the most recent items that hands new ones to subscribers without
 ever blocking the writer. A subscriber that does not keep up loses items, and the losses are counted.
 */
module RingBuffer {

  /** A subscription: its channel's capacity, what the channel holds, what was dropped and not yet reported. */
  datatype Subscription<T> = Subscription(size: nat, queue: seq<T>, dropped: nat)

  /**
   What happened to a subscription: what was added while it was subscribed, what its reader got, what it was told it missed,
   and how often an item came while its channel was full.
   */
  datatype Log<T> = Log(offered: seq<T>, received: seq<T>, reported: nat, overflows: nat)

  /** `part` is `whole` with some items left out. */
  ghost predicate Subsequence<T>(part: seq<T>, whole: seq<T>) {
    || part == []
    || (whole != [] && Subsequence(part, whole[..|whole| - 1]))
    || (whole != [] && part[|part| - 1] == whole[|whole| - 1] && Subsequence(part[..|part| - 1], whole[..|whole| - 1]))
  }

  lemma SubsequenceExtends<T>(part: seq<T>, whole: seq<T>, v: T)
    requires Subsequence(part, whole)
    ensures Subsequence(part, whole + [v]) && Subsequence(part + [v], whole + [v])
  {
    assert (whole + [v])[..|whole|] == whole && (part + [v])[..|part|] == part;
  }

  /** A subsequence is no longer than the whole, and only then equal to it. */
  lemma {:induction false} SubsequenceLength<T>(part: seq<T>, whole: seq<T>)
    requires Subsequence(part, whole)
    ensures |part| <= |whole| && (|part| == |whole| ==> part == whole)
  {
    if part != [] {
      var w := whole[..|whole| - 1];
      if Subsequence(part, w) {
        SubsequenceLength(part, w);
      } else {
        SubsequenceLength(part[..|part| - 1], w);
        assert part == part[..|part| - 1] + [part[|part| - 1]] && whole == w + [whole[|whole| - 1]];
      }
    }
  }

  /**
   Conservation: everything added while subscribed was received, is queued, was reported dropped or waits
   to be reported, what was received followed by what is queued is in the order it was added, and an item was dropped
   exactly each time one came while the channel was full.
   */
  ghost predicate Conserved<T>(s: Subscription<T>, log: Log<T>) {
    && |s.queue| <= s.size
    && |log.offered| == |log.received| + |s.queue| + log.reported + s.dropped
    && Subsequence(log.received + s.queue, log.offered)
    && log.reported + s.dropped == log.overflows
  }

  /** Nothing is missing or out of order unless an item came while the channel was full. */
  lemma LosslessUnlessDropped<T>(s: Subscription<T>, log: Log<T>)
    requires Conserved(s, log)
    ensures log.overflows == 0 <==> log.received + s.queue == log.offered
  {
    SubsequenceLength(log.received + s.queue, log.offered);
  }

  /** The select in add: a waiting reader, else room in the channel, else a drop. */
  function Offer<T>(s: Subscription<T>, v: T, waiting: bool): Subscription<T> {
    if waiting && s.queue == [] then s
    else if |s.queue| < s.size then s.(queue := s.queue + [v])
    else s.(dropped := s.dropped + 1)
  }

  function OfferedTo<T>(subs: map<nat, Subscription<T>>, to: set<nat>, v: T, waiting: set<nat>): map<nat, Subscription<T>> {
    map id | id in subs :: if id in to then Offer(subs[id], v, id in waiting) else subs[id]
  }

  /** The channel holds all it can, and no reader waits for the item. */
  predicate Full<T>(s: Subscription<T>, waiting: bool) { |s.queue| >= s.size && !(waiting && |s.queue| == 0) }

  function Offered<T>(s: Subscription<T>, log: Log<T>, v: T, waiting: bool): Log<T> {
    log.(offered := log.offered + [v],
         received := if waiting && s.queue == [] then log.received + [v] else log.received,
         overflows := log.overflows + if Full(s, waiting) then 1 else 0)
  }

  lemma OfferConserves<T>(s: Subscription<T>, log: Log<T>, v: T, waiting: bool)
    requires Conserved(s, log)
    ensures Conserved(Offer(s, v, waiting), Offered(s, log, v, waiting))
  {
    SubsequenceExtends(log.received + s.queue, log.offered, v);
    var s', log' := Offer(s, v, waiting), Offered(s, log, v, waiting);
    if waiting && s.queue == [] {
      assert log'.received + s'.queue == (log.received + s.queue) + [v];
    } else if |s.queue| < s.size {
      assert log'.received + s'.queue == (log.received + s.queue) + [v];
    }
  }

  function OfferedLogs<T>(
    subs: map<nat, Subscription<T>>, logs: map<nat, Log<T>>, to: set<nat>, v: T, waiting: set<nat>): map<nat, Log<T>>
    requires subs.Keys == logs.Keys
  {
    map id | id in logs :: if id in to then Offered(subs[id], logs[id], v, id in waiting) else logs[id]
  }

  /** An offer to some subscribers keeps every account. */
  lemma OffersConserve<T>(subs: map<nat, Subscription<T>>, logs: map<nat, Log<T>>, to: set<nat>, v: T, waiting: set<nat>)
    requires subs.Keys == logs.Keys && forall id | id in subs :: Conserved(subs[id], logs[id])
    ensures forall id | id in subs ::
      Conserved(OfferedTo(subs, to, v, waiting)[id], OfferedLogs(subs, logs, to, v, waiting)[id])
  {
    forall id | id in subs
      ensures Conserved(OfferedTo(subs, to, v, waiting)[id], OfferedLogs(subs, logs, to, v, waiting)[id])
    {
      OfferConserves(subs[id], logs[id], v, id in waiting);
    }
  }

  /** The last `n` items, or all of them. */
  function Last<T>(items: seq<T>, n: nat): seq<T> {
    if |items| <= n then items else items[|items| - n..]
  }

  /** A ring's items, oldest first. */
  function RingView<T>(slots: seq<T>, next: nat, full: bool): seq<T>
    requires next <= |slots|
  {
    if full then slots[next..] + slots[..next] else slots[..next]
  }

  /** Storing in the next slot appends, and drops the oldest item of a full ring. */
  lemma RingStores<T>(slots: seq<T>, next: nat, full: bool, v: T)
    requires next < |slots|
    ensures var wraps := next + 1 == |slots|;
      RingView(slots[next := v], if wraps then 0 else next + 1, full || wraps) ==
      (if full then RingView(slots, next, full)[1..] else RingView(slots, next, full)) + [v]
  {
    var slots' := slots[next := v];
    assert slots'[..next + 1] == slots[..next] + [v];
    assert slots'[next + 1..] == slots[next + 1..];
    if full {
      assert RingView(slots, next, full)[1..] == slots[next + 1..] + slots[..next];
    }
  }

  lemma LastAppends<T>(items: seq<T>, v: T, n: nat)
    requires n > 0
    ensures Last(items + [v], n) == (if |items| < n then Last(items, n) else Last(items, n)[1..]) + [v]
  {
  }

  class Buffer<T(0)> {
    const items: array<T>
    var next: nat
    var full: bool
    var active: set<nat>
    var subs: map<nat, Subscription<T>>
    ghost var added: seq<T>
    ghost var logs: map<nat, Log<T>>

    ghost predicate Ring()
      reads this`next, this`full, this`added, items
    {
      && next < items.Length
      && (full <==> |added| >= items.Length)
      && (!full ==> next == |added|)
      && RingView(items[..], next, full) == Last(added, items.Length)
    }

    ghost predicate Accounts()
      reads this`active, this`subs, this`logs
    {
      && subs.Keys == logs.Keys && active <= subs.Keys
      && forall id | id in subs :: Conserved(subs[id], logs[id])
    }

    ghost predicate Valid()
      reads this, items
    {
      Ring() && Accounts()
    }

    constructor (capacity: nat)
      requires capacity > 0
      ensures Valid() && fresh(items) && items.Length == capacity && added == [] && subs == map[]
    {
      items := new T[capacity];
      next, full, active, subs := 0, false, {}, map[];
      added, logs := [], map[];
    }

    /** Stores v in the slot of the oldest item once the ring is full. */
    method Store(v: T)
      requires Ring()
      modifies this`next, this`full, this`added, items
      ensures Ring() && added == old(added) + [v]
    {
      ghost var slots, at, was := items[..], next, full;
      items[next] := v;
      assert items[..] == slots[at := v];
      next := next + 1;
      if next == items.Length {
        next, full := 0, true;
      }
      RingStores(slots, at, was, v);
      LastAppends(added, v, items.Length);
      added := added + [v];
      assert RingView(items[..], next, full) == Last(added, items.Length);
    }

    /** Offers v to every active subscription. */
    method OfferAll(v: T, waiting: set<nat>)
      requires active <= subs.Keys
      modifies this`subs
      ensures subs == OfferedTo(old(subs), active, v, waiting)
    {
      var todo := active;
      while todo != {}
        invariant todo <= active
        invariant subs == OfferedTo(old(subs), active - todo, v, waiting)
        decreases todo
      {
        var id :| id in todo;
        var s := subs[id];
        if id in waiting && s.queue == [] {
          // handed to the reader
        } else if |s.queue| < s.size {
          subs := subs[id := s.(queue := s.queue + [v])];
        } else {
          subs := subs[id := s.(dropped := s.dropped + 1)];
        }
        todo := todo - {id};
      }
    }

    /** add; `waiting` are the subscriptions whose reader is blocked on the channel. */
    method Add(v: T, waiting: set<nat>)
      requires Valid()
      modifies this`next, this`full, this`added, this`subs, this`logs, items
      ensures Valid() && added == old(added) + [v]
      ensures subs == OfferedTo(old(subs), active, v, waiting)
      ensures logs == OfferedLogs(old(subs), old(logs), active, v, waiting)
    {
      Store(v);
      OffersConserve(subs, logs, active, v, waiting);
      logs := OfferedLogs(subs, logs, active, v, waiting);
      OfferAll(v, waiting);
    }

    /** list: exactly the most recent items, oldest first. */
    method List() returns (out: seq<T>)
      requires Valid()
      ensures out == Last(added, items.Length)
    {
      if !full {
        return items[..next];
      }
      out := items[next..];
      out := out + items[..next];
    }

    method Subscribe(size: nat, id: nat)
      requires Valid() && id !in subs
      modifies this
      ensures Valid() && subs == old(subs)[id := Subscription(size, [], 0)] && active == old(active) + {id}
      ensures logs == old(logs)[id := Log([], [], 0, 0)] && added == old(added)
    {
      subs := subs[id := Subscription(size, [], 0)];
      logs := logs[id := Log([], [], 0, 0)];
      active := active + {id};
    }

    /** unsubscribe: nothing more is offered; what is queued can still be read. */
    method Unsubscribe(id: nat)
      requires Valid()
      modifies this`active
      ensures Valid() && active == old(active) - {id}
    {
      active := active - {id};
    }

    /** The reader takes the next item from its channel. */
    method Receive(id: nat) returns (v: T)
      requires Valid() && id in subs && subs[id].queue != []
      modifies this`subs, this`logs
      ensures Valid() && v == old(subs)[id].queue[0]
      ensures subs == old(subs)[id := old(subs)[id].(queue := old(subs)[id].queue[1..])]
      ensures logs == old(logs)[id := old(logs)[id].(received := old(logs)[id].received + [v])]
    {
      var s := subs[id];
      v := s.queue[0];
      ghost var log := logs[id];
      assert (log.received + [v]) + s.queue[1..] == log.received + s.queue;
      subs := subs[id := s.(queue := s.queue[1..])];
      logs := logs[id := log.(received := log.received + [v])];
    }

    /** takeDropped. */
    method TakeDropped(id: nat) returns (n: nat)
      requires Valid() && id in subs
      modifies this`subs, this`logs
      ensures Valid() && n == old(subs)[id].dropped
      ensures subs == old(subs)[id := old(subs)[id].(dropped := 0)]
      ensures logs == old(logs)[id := old(logs)[id].(reported := old(logs)[id].reported + n)]
    {
      n := subs[id].dropped;
      logs := logs[id := logs[id].(reported := logs[id].reported + n)];
      subs := subs[id := subs[id].(dropped := 0)];
    }
  }
}
