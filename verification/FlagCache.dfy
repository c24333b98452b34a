/**
 Instances keeping flag states in memory while the database changes under them. Every read of the
 database (one key after a notification, the row a writer got back, or a full reload) may be delivered
 to an instance late, more than once, out of order or never.
 */
module FlagCache {
  import opened Basics
  import opened FlagState
  import FlagStore
  import opened VersionedCache

  /** stored: a NULL or invalid state leaves the declared default in force. */
  datatype Stored = Stored(state: Option<Compiled>, invalid: bool, updatedAt: int, updatedBy: string)

  /** decodeRow. */
  function DecodeRow(row: FlagStore.StateRow): Entry<Stored> {
    var decoded := if row.state.Some? then Decode(row.state.value) else None;
    Entry(Stored(if decoded.Some? then Some(Compile(decoded.value)) else None,
                 row.state.Some? && decoded.None?,
                 row.updatedAt, row.updatedBy),
          row.version)
  }

  /** The state a row holds, if it holds an acceptable one. */
  function Meant(row: FlagStore.StateRow): Option<State> {
    if row.state.Some? && row.state.value.Json? && ValidState(Normalize(row.state.value.state))
    then Some(row.state.value.state) else None
  }

  /** What a row decides: its state by the documented rules, or the declared default's answer. */
  function RowAnswer(row: FlagStore.StateRow, declared: Compiled, hash: string -> nat, key: string, a: Actor): (bool, Reason) {
    if Meant(row).Some? then ByTheRules(Meant(row).value, hash, key, a) else Evaluate(declared, hash, key, a)
  }

  /** The state in force for a cached entry. */
  function InForce(e: Stored, declared: Compiled): Compiled { if e.state.Some? then e.state.value else declared }

  /**
   What decodeRow leaves in the cache: a state exactly when the row holds an acceptable one, marked invalid exactly when it
   holds another, deciding for every actor as the row's state does by the documented rules.
   */
  lemma DecodedRowDecides(row: FlagStore.StateRow, declared: Compiled, hash: string -> nat, key: string, a: Actor)
    ensures var e := DecodeRow(row);
      && e.version == row.version && e.value.updatedAt == row.updatedAt && e.value.updatedBy == row.updatedBy
      && (e.value.state.Some? <==> Meant(row).Some?)
      && (e.value.invalid <==> row.state.Some? && Meant(row).None?)
      && Evaluate(InForce(e.value, declared), hash, key, a) == RowAnswer(row, declared, hash, key, a)
  {
    if Meant(row).Some? {
      var s := Meant(row).value;
      EvaluateFollowsTheRules(s, hash, key, a);
    }
  }

  /** The row a history entry left. */
  function RowOf(h: FlagStore.HistoryRow): FlagStore.StateRow {
    FlagStore.StateRow(h.newState, h.version, h.changedAt, h.actor)
  }

  type Cache = Snapshot<Stored>

  datatype Fleet = Fleet(db: FlagStore.Db, readings: seq<Cache>, caches: map<nat, Cache>)

  datatype Step =
    | Change(s: FlagStore.Step)            // a transaction step; the row a commit returns is a reading
    | ReadKey(key: string)                 // reloadKey's select
    | ReadAll                              // Reload's select
    | Deliver(instance: nat, reading: nat) // apply or replaceAll

  const Start := Fleet(FlagStore.Empty, [], map[])

  function CacheOf(f: Fleet, instance: nat): Cache {
    if instance in f.caches then f.caches[instance] else map[]
  }

  /** A full reload: the rows of declared flags; others are unknown keys. */
  function Reload(db: FlagStore.Db, declared: set<string>): Cache {
    map k | k in db.rows && k in declared :: DecodeRow(db.rows[k])
  }

  function Next(f: Fleet, s: Step, declared: set<string>): Fleet {
    match s
    case Change(c) =>
      var db := FlagStore.Next(f.db, c);
      if |db.history| > |f.db.history| && db.history[|db.history| - 1].key in declared then
        var h := db.history[|db.history| - 1];
        f.(db := db, readings := f.readings + [map[h.key := DecodeRow(RowOf(h))]])
      else f.(db := db)
    case ReadKey(key) =>
      if key in declared && key in f.db.rows
      then f.(readings := f.readings + [map[key := DecodeRow(f.db.rows[key])]])
      else f
    case ReadAll => f.(readings := f.readings + [Reload(f.db, declared)])
    case Deliver(instance, n) =>
      if n < |f.readings|
      then f.(caches := f.caches[instance := Merge(CacheOf(f, instance), f.readings[n])])
      else f
  }

  function Run(steps: seq<Step>, declared: set<string>): Fleet {
    if steps == [] then Start else Next(Run(steps[..|steps| - 1], declared), steps[|steps| - 1], declared)
  }

  function At(steps: seq<Step>, i: nat, declared: set<string>): Fleet
    requires i <= |steps|
  {
    Run(steps[..i], declared)
  }

  lemma Unfold(steps: seq<Step>, i: nat, declared: set<string>)
    requires i < |steps|
    ensures At(steps, i + 1, declared) == Next(At(steps, i, declared), steps[i], declared)
  {
    assert steps[..i + 1][..i] == steps[..i];
  }

  /** The database steps of a run. */
  function Changes(steps: seq<Step>): seq<FlagStore.Step> {
    if steps == [] then []
    else Changes(steps[..|steps| - 1]) + if steps[|steps| - 1].Change? then [steps[|steps| - 1].s] else []
  }

  lemma {:induction false} DatabaseRuns(steps: seq<Step>, declared: set<string>)
    ensures Run(steps, declared).db == FlagStore.Run(Changes(steps))
    ensures FlagStore.Sound(Run(steps, declared).db)
  {
    FlagStore.HistoryIsAChain(Changes(steps));
    if steps != [] {
      var before, s := steps[..|steps| - 1], steps[|steps| - 1];
      DatabaseRuns(before, declared);
      if s.Change? {
        assert Changes(steps)[..|Changes(before)|] == Changes(before);
      } else {
        assert Changes(steps) == Changes(before);
      }
    }
  }

  /** The entry is what the flag's history recorded under its version. */
  predicate Recorded(db: FlagStore.Db, key: string, e: Entry<Stored>) {
    var h := FlagStore.Entries(db.history, key);
    1 <= e.version <= |h| && e == DecodeRow(RowOf(h[e.version - 1]))
  }

  predicate AllRecorded(db: FlagStore.Db, m: Cache) {
    forall k | k in m :: Recorded(db, k, m[k])
  }

  ghost predicate FleetRecorded(f: Fleet) {
    && (forall i | 0 <= i < |f.readings| :: AllRecorded(f.db, f.readings[i]))
    && (forall x | x in f.caches :: AllRecorded(f.db, f.caches[x]))
  }

  lemma RowsAreRecorded(db: FlagStore.Db, key: string)
    requires FlagStore.Sound(db) && key in db.rows
    ensures Recorded(db, key, DecodeRow(db.rows[key]))
    ensures db.rows[key].version == |FlagStore.Entries(db.history, key)|
  {
    assert FlagStore.RowMatches(db, key);
  }

  lemma RecordedPersists(db: FlagStore.Db, db': FlagStore.Db, m: Cache)
    requires AllRecorded(db, m)
    requires forall k :: FlagStore.Entries(db.history, k) <= FlagStore.Entries(db'.history, k)
    ensures AllRecorded(db', m)
  {
    forall k | k in m ensures Recorded(db', k, m[k]) {
      assert Recorded(db, k, m[k]);
    }
  }

  lemma {:induction false} HistoriesGrow(steps: seq<FlagStore.Step>, s: FlagStore.Step)
    ensures forall k ::
      FlagStore.Entries(FlagStore.Run(steps).history, k) <= FlagStore.Entries(FlagStore.Next(FlagStore.Run(steps), s).history, k)
  {
    forall k
      ensures FlagStore.Entries(FlagStore.Run(steps).history, k) <= FlagStore.Entries(FlagStore.Next(FlagStore.Run(steps), s).history, k)
    {
      FlagStore.StepGrows(steps, s, k);
    }
  }

  lemma LastEntry(db: FlagStore.Db)
    requires db.history != [] && FlagStore.Sound(db)
    ensures var h := db.history[|db.history| - 1]; Recorded(db, h.key, DecodeRow(RowOf(h)))
  {
    var h := db.history[|db.history| - 1];
    var before := db.history[..|db.history| - 1];
    assert db.history == before + [h];
    FlagStore.EntriesExtend(before, h, h.key);
    var own := FlagStore.Entries(db.history, h.key);
    assert FlagStore.RowMatches(db, h.key) && FlagStore.Linked(own, |own| - 1);
  }

  lemma ChangeRecorded(f: Fleet, c: FlagStore.Step, declared: set<string>)
    requires FleetRecorded(f) && FlagStore.Sound(FlagStore.Next(f.db, c))
    requires forall k :: FlagStore.Entries(f.db.history, k) <= FlagStore.Entries(FlagStore.Next(f.db, c).history, k)
    ensures FleetRecorded(Next(f, Change(c), declared))
  {
    var f' := Next(f, Change(c), declared);
    forall i | 0 <= i < |f'.readings| ensures AllRecorded(f'.db, f'.readings[i]) {
      if i < |f.readings| {
        RecordedPersists(f.db, f'.db, f.readings[i]);
      } else {
        LastEntry(f'.db);
      }
    }
    forall x | x in f'.caches ensures AllRecorded(f'.db, f'.caches[x]) {
      RecordedPersists(f.db, f'.db, f.caches[x]);
    }
  }

  lemma ReadRecorded(f: Fleet, s: Step, declared: set<string>)
    requires FleetRecorded(f) && FlagStore.Sound(f.db) && (s.ReadKey? || s.ReadAll?)
    ensures FleetRecorded(Next(f, s, declared))
  {
    forall k | k in f.db.rows ensures Recorded(f.db, k, DecodeRow(f.db.rows[k])) { RowsAreRecorded(f.db, k); }
  }

  lemma DeliverRecorded(f: Fleet, s: Step, declared: set<string>)
    requires FleetRecorded(f) && s.Deliver?
    ensures FleetRecorded(Next(f, s, declared))
  {
    var f' := Next(f, s, declared);
    if s.reading < |f.readings| {
      assert AllRecorded(f.db, CacheOf(f, s.instance)) && AllRecorded(f.db, f.readings[s.reading]);
      forall x | x in f'.caches ensures AllRecorded(f'.db, f'.caches[x]) { }
    }
  }

  /**
   Cache agreement: under any loss, duplication or reordering, every cached entry and every reading in
   flight is exactly what the flag's history recorded under that entry's version.
   */
  lemma {:induction false} CachesAgree(steps: seq<Step>, declared: set<string>)
    ensures FleetRecorded(Run(steps, declared))
  {
    if steps != [] {
      var before, s := steps[..|steps| - 1], steps[|steps| - 1];
      CachesAgree(before, declared);
      DatabaseRuns(before, declared);
      if s.Change? {
        DatabaseRuns(steps, declared);
        HistoriesGrow(Changes(before), s.s);
        ChangeRecorded(Run(before, declared), s.s, declared);
      } else if s.Deliver? {
        DeliverRecorded(Run(before, declared), s, declared);
      } else {
        ReadRecorded(Run(before, declared), s, declared);
      }
    }
  }

  /** What one step delivers to an instance. */
  function Delivery(f: Fleet, s: Step, instance: nat): seq<Cache> {
    if s.Deliver? && s.instance == instance && s.reading < |f.readings| then [f.readings[s.reading]] else []
  }

  /** The readings delivered to an instance, in order. */
  function DeliveredTo(steps: seq<Step>, instance: nat, declared: set<string>): seq<Cache> {
    if steps == [] then []
    else
      var before := steps[..|steps| - 1];
      DeliveredTo(before, instance, declared) + Delivery(Run(before, declared), steps[|steps| - 1], instance)
  }

  lemma NextDelivers(f: Fleet, s: Step, instance: nat, declared: set<string>)
    ensures CacheOf(Next(f, s, declared), instance) == MergeAll(CacheOf(f, instance), Delivery(f, s, instance))
    ensures f.readings <= Next(f, s, declared).readings
  {
    if Delivery(f, s, instance) != [] {
      var r := f.readings[s.reading];
      assert [r][..0] == [];
      assert MergeAll(CacheOf(f, instance), [r]) == Merge(MergeAll(CacheOf(f, instance), []), r);
    }
  }

  lemma {:induction false} MergeAllAdds(cur: Cache, xs: seq<Cache>, ys: seq<Cache>)
    requires |ys| <= 1
    ensures MergeAll(cur, xs + ys) == MergeAll(MergeAll(cur, xs), ys)
  {
    if ys == [] {
      assert xs + ys == xs;
    } else {
      assert (xs + ys)[..|xs|] == xs && ys[..0] == [];
    }
  }

  /** An instance holds exactly the merge of what was delivered to it. */
  lemma {:induction false} CacheIsMerge(steps: seq<Step>, instance: nat, declared: set<string>)
    ensures CacheOf(Run(steps, declared), instance) == MergeAll(map[], DeliveredTo(steps, instance, declared))
  {
    if steps != [] {
      var before, s := steps[..|steps| - 1], steps[|steps| - 1];
      CacheIsMerge(before, instance, declared);
      NextDelivers(Run(before, declared), s, instance, declared);
      MergeAllAdds(map[], DeliveredTo(before, instance, declared), Delivery(Run(before, declared), s, instance));
    }
  }

  lemma {:induction false} DeliveriesAreReadings(steps: seq<Step>, instance: nat, declared: set<string>)
    ensures forall r | r in DeliveredTo(steps, instance, declared) :: r in Run(steps, declared).readings
  {
    if steps != [] {
      var before, s := steps[..|steps| - 1], steps[|steps| - 1];
      DeliveriesAreReadings(before, instance, declared);
      NextDelivers(Run(before, declared), s, instance, declared);
    }
  }

  /** What a flag's history says a version holds. */
  function Truth(db: FlagStore.Db, key: string, version: int): Stored {
    var h := FlagStore.Entries(db.history, key);
    if 1 <= version <= |h| then DecodeRow(RowOf(h[version - 1])).value else Stored(None, false, 0, "")
  }

  /**
   Two instances that were delivered the same readings, in whatever order and however often each, hold the same flags
   at the same versions.
   */
  lemma InstancesAgree(steps: seq<Step>, x: nat, y: nat, declared: set<string>)
    requires forall r :: r in DeliveredTo(steps, x, declared) <==> r in DeliveredTo(steps, y, declared)
    ensures CacheOf(Run(steps, declared), x) == CacheOf(Run(steps, declared), y)
  {
    var f := Run(steps, declared);
    var truth := (key: string, version: int) => Truth(f.db, key, version);
    CacheIsMerge(steps, x, declared);
    CacheIsMerge(steps, y, declared);
    DeliveriesAreReadings(steps, x, declared);
    CachesAgree(steps, declared);
    forall r | r in DeliveredTo(steps, x, declared)
      ensures Agrees(r, truth)
    {
      var i :| 0 <= i < |f.readings| && f.readings[i] == r;
      assert AllRecorded(f.db, f.readings[i]);
    }
    DeliveryOrderIsIrrelevant(map[], DeliveredTo(steps, x, declared), DeliveredTo(steps, y, declared), truth);
  }

  /** A cached entry is never dropped and never replaced by an older version. */
  lemma {:induction false} NeverOlder(steps: seq<Step>, i: nat, j: nat, instance: nat, key: string, declared: set<string>)
    requires i <= j <= |steps| && key in CacheOf(At(steps, i, declared), instance)
    ensures key in CacheOf(At(steps, j, declared), instance)
    ensures CacheOf(At(steps, i, declared), instance)[key].version <= CacheOf(At(steps, j, declared), instance)[key].version
    decreases j - i
  {
    if i < j {
      Unfold(steps, i, declared);
      NeverOlder(steps, i + 1, j, instance, key, declared);
    }
  }

  lemma {:induction false} ReadingsStay(steps: seq<Step>, i: nat, j: nat, declared: set<string>)
    requires i <= j <= |steps|
    ensures At(steps, i, declared).readings <= At(steps, j, declared).readings
    decreases j - i
  {
    if i < j {
      Unfold(steps, i, declared);
      ReadingsStay(steps, i + 1, j, declared);
    }
  }

  /** Step `r` reads the flag's row: a reload, the read a notification asks for, or the row a change returns. */
  predicate ReadsRow(steps: seq<Step>, r: nat, key: string, declared: set<string>) {
    && r < |steps| && key in declared && key in At(steps, r + 1, declared).db.rows
    && match steps[r]
       case ReadAll => true
       case ReadKey(k) => k == key
       case Change(c) =>
         && c.Finish? && FlagStore.IsOpen(At(steps, r, declared).db, c.tx)
         && At(steps, r, declared).db.txs[c.tx].key == key
         && FlagStore.Decision(At(steps, r, declared).db.rows, At(steps, r, declared).db.txs[c.tx]) == FlagStore.Changed
       case Deliver(_, _) => false
  }

  /**
   Catching up: once the reading made by a reload, a notification's read or a change at step `r` was delivered at step
   `d`, the instance holds the flag at least as new as that step saw or left it, for the rest of the run; and
   while the database has not moved past that, it holds exactly the current row.
   */
  lemma ReadingCatchesUp(
    steps: seq<Step>, r: nat, d: nat, j: nat, instance: nat, key: string, declared: set<string>)
    requires ReadsRow(steps, r, key, declared) && r < d < j <= |steps|
    requires steps[d] == Deliver(instance, |At(steps, r, declared).readings|)
    ensures key in CacheOf(At(steps, j, declared), instance)
    ensures CacheOf(At(steps, j, declared), instance)[key].version >= At(steps, r + 1, declared).db.rows[key].version
    ensures key in At(steps, j, declared).db.rows
            && At(steps, j, declared).db.rows[key].version == At(steps, r + 1, declared).db.rows[key].version ==>
      CacheOf(At(steps, j, declared), instance)[key] == DecodeRow(At(steps, j, declared).db.rows[key])
  {
    DeliveredReading(steps, r, d, instance, key, declared);
    NeverOlder(steps, d + 1, j, instance, key, declared);
    CachesAgree(steps[..j], declared);
    DatabaseRuns(steps[..j], declared);
    var f := At(steps, j, declared);
    if key in f.db.rows {
      RowsAreRecorded(f.db, key);
      NewestIsCurrent(f, instance, key);
    }
  }

  lemma ReadingMade(steps: seq<Step>, r: nat, key: string, declared: set<string>)
    requires ReadsRow(steps, r, key, declared)
    ensures var n, f := |At(steps, r, declared).readings|, At(steps, r + 1, declared);
      n < |f.readings| && key in f.readings[n] && f.readings[n][key] == DecodeRow(f.db.rows[key])
  {
    Unfold(steps, r, declared);
  }

  lemma DeliveredReading(steps: seq<Step>, r: nat, d: nat, instance: nat, key: string, declared: set<string>)
    requires ReadsRow(steps, r, key, declared) && r < d < |steps|
    requires steps[d] == Deliver(instance, |At(steps, r, declared).readings|)
    ensures key in CacheOf(At(steps, d + 1, declared), instance)
    ensures CacheOf(At(steps, d + 1, declared), instance)[key].version >= At(steps, r + 1, declared).db.rows[key].version
  {
    ReadingMade(steps, r, key, declared);
    ReadingsStay(steps, r + 1, d, declared);
    Unfold(steps, d, declared);
  }

  /**
   After a reload: every declared flag is at least as new as the reload saw it for the rest of the run, and while its row
   has not changed since the instance decides it for every actor as that row's state does.
   */
  lemma ReloadCatchesUp(
    steps: seq<Step>, r: nat, d: nat, j: nat, instance: nat, key: string, declared: set<string>,
    default_: Compiled, hash: string -> nat, a: Actor)
    requires r < d < j <= |steps|
    requires steps[r] == ReadAll && steps[d] == Deliver(instance, |At(steps, r, declared).readings|)
    requires key in declared && key in At(steps, r, declared).db.rows
    ensures key in CacheOf(At(steps, j, declared), instance)
    ensures CacheOf(At(steps, j, declared), instance)[key].version >= At(steps, r, declared).db.rows[key].version
    ensures key in At(steps, j, declared).db.rows
            && At(steps, j, declared).db.rows[key].version == At(steps, r, declared).db.rows[key].version ==>
      && CacheOf(At(steps, j, declared), instance)[key] == DecodeRow(At(steps, j, declared).db.rows[key])
      && Evaluate(InForce(CacheOf(At(steps, j, declared), instance)[key].value, default_), hash, key, a)
         == RowAnswer(At(steps, j, declared).db.rows[key], default_, hash, key, a)
  {
    Unfold(steps, r, declared);
    ReadingCatchesUp(steps, r, d, j, instance, key, declared);
    if key in At(steps, j, declared).db.rows {
      DecodedRowDecides(At(steps, j, declared).db.rows[key], default_, hash, key, a);
    }
  }

  lemma NewestIsCurrent(f: Fleet, instance: nat, key: string)
    requires FleetRecorded(f) && FlagStore.Sound(f.db) && key in CacheOf(f, instance) && key in f.db.rows
    ensures CacheOf(f, instance)[key].version <= f.db.rows[key].version
    ensures CacheOf(f, instance)[key].version == f.db.rows[key].version ==>
      CacheOf(f, instance)[key] == DecodeRow(f.db.rows[key])
  {
    RowsAreRecorded(f.db, key);
    assert AllRecorded(f.db, f.caches[instance]);
  }

  // ---- The registry as updated in place ----

  class Registry {
    var live: Option<Cache>
    var unknown: seq<string>

    ghost function View(): Cache
      reads this
    {
      if live.Some? then live.value else map[]
    }

    constructor ()
      ensures View() == map[]
    {
      live, unknown := None, [];
    }

    /** apply: one flag's state, unless a newer version is known. */
    method Apply(key: string, st: Entry<Stored>)
      modifies this`live
      ensures View() == Merge(old(View()), map[key := st])
    {
      var next: Cache := map[];
      if live.Some? {
        var cur := live.value;
        if key in cur && cur[key].version > st.version {
          assert cur == Merge(cur, map[key := st]);
          return;
        }
        next := cur;
      }
      next := next[key := st];
      live := Some(next);
      assert next == Merge(old(View()), map[key := st]);
    }

    /** replaceAll: a full reload, keeping any newer version already applied. */
    method ReplaceAll(loaded: Cache, unknownKeys: seq<string>)
      modifies this
      ensures View() == Merge(old(View()), loaded) && unknown == unknownKeys
    {
      var next := loaded;
      if live.Some? {
        var cur := live.value;
        var keys := cur.Keys;
        while keys != {}
          invariant keys <= cur.Keys
          invariant next.Keys == loaded.Keys + (cur.Keys - keys)
          invariant forall k | k in next && (k in keys || k !in cur) :: next[k] == loaded[k]
          invariant forall k | k in cur && k !in keys :: next[k] == Merge(cur, loaded)[k]
          decreases keys
        {
          var key :| key in keys;
          var old_ := cur[key];
          if key !in next || old_.version > next[key].version {
            next := next[key := old_];
          }
          keys := keys - {key};
        }
      }
      live := Some(next);
      unknown := unknownKeys;
      assert next == Merge(old(View()), loaded);
    }

    /** The state in force for a flag: its stored one, or the declared default. */
    method Current(key: string, declared: Compiled) returns (c: Compiled)
      ensures c == if key in View() then InForce(View()[key].value, declared) else declared
    {
      c := declared;
      if live.Some? {
        var snap := live.value;
        if key in snap && snap[key].value.state.Some? {
          c := snap[key].value.state.value;
        }
      }
    }
  }
}
