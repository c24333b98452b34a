/**
 Flag changes in the database: concurrent transactions with a version check, a history row and row
 locks. Selecting a row for update locks it until the transaction ends; selecting a row that does not
 exist locks nothing, so two first changes of one flag race and the second insert violates the
 primary key. Old history rows may be deleted at any time. A run is any sequence of steps; a step that is
 not enabled (a blocked transaction, an unknown one) does nothing.
 */
module FlagStore {
  import opened Basics
  import opened FlagState
  import opened Strings

  /** A flags_states row; a NULL state is the declared default. Version 0 stands for no row. */
  datatype StateRow = StateRow(state: Option<Raw>, version: nat, updatedAt: int, updatedBy: string)

  const NO_ROW := StateRow(None, 0, 0, "")

  datatype HistoryRow = HistoryRow(
    key: string, oldState: Option<Raw>, newState: Option<Raw>, version: nat, changedAt: int, actor: string)

  datatype Outcome = Open | Changed | Unchanged | Conflict | Aborted

  /** One transaction of `write`: what its caller asked for and the row it selected. */
  datatype Tx = Tx(key: string, version: nat, newState: Option<Raw>, actor: string, now: int, current: StateRow, outcome: Outcome)

  datatype Db = Db(
    rows: map<string, StateRow>,
    history: seq<HistoryRow>, // every change ever recorded, by id
    pruned: set<nat>,         // the ids deleted since
    locks: map<string, nat>,
    txs: map<nat, Tx>
  )

  datatype Step =
    | Begin(tx: nat, key: string, version: nat, newState: Option<Raw>, actor: string, now: int)
    | Finish(tx: nat)
    | Abort(tx: nat)
    | Prune(before: int, limit: nat)

  const Empty := Db(map[], [], {}, map[], map[])

  /** The transaction's decision, given the rows when it writes. */
  function Decision(rows: map<string, StateRow>, t: Tx): Outcome {
    if t.version != t.current.version then Conflict
    else if SameState(t.current.state, t.newState) then Unchanged
    else if t.current.version == 0 && t.key in rows then Conflict // the insert violates the primary key
    else Changed
  }

  /** insertState or updateState. */
  function NewRow(t: Tx): StateRow {
    StateRow(t.newState, t.current.version + 1, t.now, t.actor)
  }

  function NewHistory(t: Tx): HistoryRow {
    HistoryRow(t.key, t.current.state, t.newState, t.current.version + 1, t.now, t.actor)
  }

  predicate IsOpen(db: Db, tx: nat) { tx in db.txs && db.txs[tx].outcome == Open }

  /** Ends a transaction, giving up the lock it holds, if any. */
  function Ended(db: Db, tx: nat, outcome: Outcome): Db
    requires tx in db.txs
  {
    var t := db.txs[tx];
    db.(txs := db.txs[tx := t.(outcome := outcome)],
        locks := if t.current.version > 0 then db.locks - {t.key} else db.locks)
  }

  function Next(db: Db, s: Step): Db {
    match s
    case Begin(tx, key, version, newState, actor, now) =>
      if tx in db.txs || key in db.locks then db
      else
        var current := if key in db.rows then db.rows[key] else NO_ROW;
        db.(txs := db.txs[tx := Tx(key, version, newState, actor, now, current, Open)],
            locks := if key in db.rows then db.locks[key := tx] else db.locks)
    case Finish(tx) =>
      if !IsOpen(db, tx) then db
      else
        var t := db.txs[tx];
        var outcome := Decision(db.rows, t);
        var written :=
          if outcome == Changed
          then db.(rows := db.rows[t.key := NewRow(t)], history := db.history + [NewHistory(t)])
          else db;
        Ended(written, tx, outcome)
    case Abort(tx) =>
      if IsOpen(db, tx) then Ended(db, tx, Aborted) else db
    case Prune(before, limit) => db.(pruned := db.pruned + Batch(db.history, db.pruned, before, limit, 0))
  }

  /** A history row a retention job may delete. */
  predicate Old(history: seq<HistoryRow>, pruned: set<nat>, before: int, i: nat) {
    i < |history| && i !in pruned && history[i].changedAt < before
  }

  /** The ids one delete takes: the first `limit` old ones, from id `from` on. */
  function Batch(history: seq<HistoryRow>, pruned: set<nat>, before: int, limit: nat, from: nat): set<nat>
    decreases |history| - from
  {
    if from >= |history| || limit == 0 then {}
    else if Old(history, pruned, before, from) then {from} + Batch(history, pruned, before, limit - 1, from + 1)
    else Batch(history, pruned, before, limit, from + 1)
  }

  function Run(steps: seq<Step>): Db {
    if steps == [] then Empty else Next(Run(steps[..|steps| - 1]), steps[|steps| - 1])
  }

  // ---- History chains ----

  /** A flag's own history, oldest first. */
  function Entries(history: seq<HistoryRow>, key: string): seq<HistoryRow> {
    if history == [] then []
    else
      var last := history[|history| - 1];
      Entries(history[..|history| - 1], key) + if last.key == key then [last] else []
  }

  lemma EntriesExtend(history: seq<HistoryRow>, h: HistoryRow, key: string)
    ensures Entries(history + [h], key) == if h.key == key then Entries(history, key) + [h] else Entries(history, key)
  {
    assert (history + [h])[..|history|] == history;
  }

  /** Versions count from 1, each old state is the previous new one, the first is the default, and every entry changes something. */
  predicate Chain(h: seq<HistoryRow>) {
    forall i | 0 <= i < |h| :: Linked(h, i)
  }

  predicate Linked(h: seq<HistoryRow>, i: nat)
    requires i < |h|
  {
    && h[i].version == i + 1
    && h[i].oldState == (if i == 0 then None else h[i - 1].newState)
    && !SameState(h[i].oldState, h[i].newState)
  }

  lemma ChainExtends(h: seq<HistoryRow>, e: HistoryRow)
    requires Chain(h)
    requires e.version == |h| + 1 && e.oldState == (if h == [] then None else h[|h| - 1].newState)
    requires !SameState(e.oldState, e.newState)
    ensures Chain(h + [e])
  {
    forall i | 0 <= i < |h + [e]|
      ensures Linked(h + [e], i)
    {
      if i < |h| { assert Linked(h, i); }
    }
  }

  /** The row a history stands for. */
  function Latest(h: seq<HistoryRow>): StateRow {
    if h == [] then NO_ROW
    else var e := h[|h| - 1]; StateRow(e.newState, e.version, e.changedAt, e.actor)
  }

  predicate RowMatches(db: Db, key: string) {
    var h := Entries(db.history, key);
    && Chain(h)
    && (key in db.rows <==> h != [])
    && (key in db.rows ==> db.rows[key] == Latest(h) && db.rows[key].version == |h|)
  }

  /** An open transaction that selected a row holds its lock, and the row is still as selected. */
  predicate TxSound(db: Db, tx: nat)
    requires tx in db.txs
  {
    var t := db.txs[tx];
    && (t.outcome == Open && t.current.version > 0 ==>
          && t.key in db.locks && db.locks[t.key] == tx
          && t.key in db.rows && db.rows[t.key] == t.current)
    && (t.outcome == Open && t.current.version == 0 ==> t.current == NO_ROW)
    && (t.outcome == Changed ==> t.key in db.rows && db.rows[t.key].version > t.version)
  }

  predicate LockSound(db: Db, key: string)
    requires key in db.locks
  {
    var tx := db.locks[key];
    && IsOpen(db, tx)
    && db.txs[tx].key == key && db.txs[tx].current.version > 0
  }

  /** At most one of the transactions asking to change one version of a flag has changed it. */
  predicate OneWinner(db: Db) {
    forall a, b | a in db.txs && b in db.txs && a != b && db.txs[a].outcome == Changed && db.txs[b].outcome == Changed ::
      db.txs[a].key == db.txs[b].key ==> db.txs[a].version != db.txs[b].version
  }

  ghost predicate Sound(db: Db) {
    && (forall key :: RowMatches(db, key))
    && (forall tx | tx in db.txs :: TxSound(db, tx))
    && (forall key | key in db.locks :: LockSound(db, key))
    && OneWinner(db)
  }

  lemma BeginTxs(db: Db, s: Step, tx: nat)
    requires Sound(db) && s.Begin? && tx in Next(db, s).txs
    ensures TxSound(Next(db, s), tx)
  {
    assert RowMatches(db, s.key);
    if tx in db.txs { assert TxSound(db, tx); }
  }

  lemma BeginLocks(db: Db, s: Step, key: string)
    requires Sound(db) && s.Begin? && key in Next(db, s).locks
    ensures LockSound(Next(db, s), key)
  {
    assert RowMatches(db, s.key);
    if key in db.locks { assert LockSound(db, key); }
  }

  lemma BeginSound(db: Db, s: Step)
    requires Sound(db) && s.Begin?
    ensures Sound(Next(db, s))
  {
    var db' := Next(db, s);
    forall key ensures RowMatches(db', key) { assert RowMatches(db, key); }
    forall tx | tx in db'.txs ensures TxSound(db', tx) { BeginTxs(db, s, tx); }
    forall key | key in db'.locks ensures LockSound(db', key) { BeginLocks(db, s, key); }
  }

  /** Ending a transaction without writing. */
  lemma EndSound(db: Db, tx: nat, outcome: Outcome)
    requires Sound(db) && IsOpen(db, tx) && outcome in {Unchanged, Conflict, Aborted}
    ensures Sound(Ended(db, tx, outcome))
  {
    var db' := Ended(db, tx, outcome);
    assert TxSound(db, tx);
    forall key ensures RowMatches(db', key) { assert RowMatches(db, key); }
    forall x | x in db'.txs ensures TxSound(db', x) { assert TxSound(db, x); }
    forall key | key in db'.locks ensures LockSound(db', key) { assert LockSound(db, key); }
  }

  function Written(db: Db, t: Tx): Db {
    db.(rows := db.rows[t.key := NewRow(t)], history := db.history + [NewHistory(t)])
  }

  lemma ChangeRows(db: Db, tx: nat, key: string)
    requires Sound(db) && IsOpen(db, tx) && Decision(db.rows, db.txs[tx]) == Changed
    ensures RowMatches(Written(db, db.txs[tx]), key)
  {
    assert RowMatches(db, key);
    if key == db.txs[tx].key {
      ChangeExtends(db, tx);
      RowWritten(db, db.txs[tx]);
    } else {
      EntriesExtend(db.history, NewHistory(db.txs[tx]), key);
    }
  }

  lemma RowWritten(db: Db, t: Tx)
    requires t.current.version == |Entries(db.history, t.key)| && Chain(Entries(db.history, t.key) + [NewHistory(t)])
    ensures RowMatches(Written(db, t), t.key)
  {
    EntriesExtend(db.history, NewHistory(t), t.key);
  }

  /** What a changing transaction selected is what its flag's history ends with. */
  lemma ChangeExtends(db: Db, tx: nat)
    requires Sound(db) && IsOpen(db, tx) && Decision(db.rows, db.txs[tx]) == Changed
    ensures var t := db.txs[tx];
      var h := Entries(db.history, t.key);
      t.current.version == |h| && Chain(h + [NewHistory(t)])
  {
    var t := db.txs[tx];
    assert TxSound(db, tx) && RowMatches(db, t.key);
    ChainExtends(Entries(db.history, t.key), NewHistory(t));
  }

  lemma ChangeTxs(db: Db, tx: nat, x: nat)
    requires Sound(db) && IsOpen(db, tx) && Decision(db.rows, db.txs[tx]) == Changed && x in db.txs
    ensures TxSound(Ended(Written(db, db.txs[tx]), tx, Changed), x)
  {
    assert TxSound(db, tx) && TxSound(db, x) && RowMatches(db, db.txs[tx].key);
  }

  lemma ChangeWinner(db: Db, tx: nat)
    requires Sound(db) && IsOpen(db, tx) && Decision(db.rows, db.txs[tx]) == Changed
    ensures OneWinner(Ended(Written(db, db.txs[tx]), tx, Changed))
  {
    var db' := Ended(Written(db, db.txs[tx]), tx, Changed);
    assert TxSound(db, tx) && RowMatches(db, db.txs[tx].key);
    forall a, b | a in db'.txs && b in db'.txs && a != b && db'.txs[a].outcome == Changed && db'.txs[b].outcome == Changed
      ensures db'.txs[a].key == db'.txs[b].key ==> db'.txs[a].version != db'.txs[b].version
    {
      assert TxSound(db, a) && TxSound(db, b);
    }
  }

  lemma NextSound(db: Db, s: Step)
    requires Sound(db)
    ensures Sound(Next(db, s))
  {
    match s {
      case Begin(_, _, _, _, _, _) => BeginSound(db, s);
      case Abort(tx) => if IsOpen(db, tx) { EndSound(db, tx, Aborted); }
      case Prune(_, _) =>
        var db' := Next(db, s);
        forall key ensures RowMatches(db', key) { assert RowMatches(db, key); }
        forall tx | tx in db'.txs ensures TxSound(db', tx) { assert TxSound(db, tx); }
        forall key | key in db'.locks ensures LockSound(db', key) { assert LockSound(db, key); }
      case Finish(tx) =>
        if IsOpen(db, tx) {
          var t := db.txs[tx];
          if Decision(db.rows, t) == Changed {
            var db' := Ended(Written(db, t), tx, Changed);
            assert Next(db, s) == db';
            forall key ensures RowMatches(db', key) { ChangeRows(db, tx, key); }
            forall x | x in db'.txs ensures TxSound(db', x) { ChangeTxs(db, tx, x); }
            forall key | key in db'.locks ensures LockSound(db', key) {
              assert LockSound(db, key) && TxSound(db, tx);
            }
            ChangeWinner(db, tx);
          } else {
            EndSound(db, tx, Decision(db.rows, t));
          }
        }
    }
  }

  /**
   Optimistic concurrency, over every interleaving of transactions: each flag's history is an unbroken
   chain of real changes with versions 1, 2, 3, ... whose first old state is the declared default; the
   row is exactly the last link, and exists exactly when there is one; and of the transactions asking
   to change one version of one flag at most one changed it.
   */
  lemma {:induction false} HistoryIsAChain(steps: seq<Step>)
    ensures Sound(Run(steps))
  {
    if steps == [] {
      forall key ensures RowMatches(Empty, key) { }
    } else {
      HistoryIsAChain(steps[..|steps| - 1]);
      NextSound(Run(steps[..|steps| - 1]), steps[|steps| - 1]);
    }
  }

  /** A flag's row and history, one step later. */
  predicate Grows(db: Db, db': Db, key: string) {
    && Entries(db.history, key) <= Entries(db'.history, key)
    && (key in db.rows ==>
          && key in db'.rows
          && db.rows[key].version <= db'.rows[key].version <= db.rows[key].version + 1
          && (db'.rows[key].version == db.rows[key].version ==> db'.rows[key] == db.rows[key]))
  }

  lemma ChangeGrows(db: Db, t: Tx, key: string)
    requires t.key in db.rows ==> db.rows[t.key].version == t.current.version
    ensures Grows(db, Written(db, t), key)
  {
    EntriesExtend(db.history, NewHistory(t), key);
  }

  lemma NextGrows(db: Db, s: Step, key: string)
    requires Sound(db)
    ensures Grows(db, Next(db, s), key)
  {
    if s.Finish? && IsOpen(db, s.tx) && Decision(db.rows, db.txs[s.tx]) == Changed {
      var t := db.txs[s.tx];
      assert TxSound(db, s.tx) && RowMatches(db, t.key);
      ChangeGrows(db, t, key);
      assert Next(db, s) == Ended(Written(db, t), s.tx, Changed);
    }
  }

  /** Rows never vanish, versions rise by exactly one per commit and histories only grow at the end. */
  lemma StepGrows(steps: seq<Step>, s: Step, key: string)
    ensures Grows(Run(steps), Next(Run(steps), s), key)
  {
    HistoryIsAChain(steps);
    NextGrows(Run(steps), s, key);
  }

  // ---- Transactions across other callers' steps ----

  predicate ByOthers(steps: seq<Step>, tx: nat) {
    forall s | s in steps :: s.Prune? || s.tx != tx
  }

  lemma RunMore(steps: seq<Step>, s: Step)
    ensures Run(steps + [s]) == Next(Run(steps), s)
  {
    assert (steps + [s])[..|steps|] == steps;
  }

  lemma NextLeaves(db: Db, s: Step, tx: nat)
    requires s.Prune? || s.tx != tx
    ensures tx in db.txs ==> tx in Next(db, s).txs && Next(db, s).txs[tx] == db.txs[tx]
    ensures tx !in db.txs ==> tx !in Next(db, s).txs
  {
  }

  /** Whatever others do, a transaction's record stays and histories only grow. */
  lemma {:induction false} OthersLeave(steps: seq<Step>, more: seq<Step>, tx: nat, key: string)
    requires tx in Run(steps).txs && ByOthers(more, tx)
    ensures tx in Run(steps + more).txs && Run(steps + more).txs[tx] == Run(steps).txs[tx]
    ensures Entries(Run(steps).history, key) <= Entries(Run(steps + more).history, key)
  {
    if more == [] {
      assert steps + more == steps;
    } else {
      var before, s := more[..|more| - 1], more[|more| - 1];
      assert s in more && forall x | x in before :: x in more;
      OthersLeave(steps, before, tx, key);
      assert steps + more == steps + before + [s];
      RunMore(steps + before, s);
      StepGrows(steps + before, s, key);
      NextLeaves(Run(steps + before), s, tx);
    }
  }

  /** A row selected for update waits for its transaction: nobody changes it, or the flag's history, meanwhile. */
  lemma RowWaits(steps: seq<Step>, more: seq<Step>, tx: nat)
    requires IsOpen(Run(steps), tx) && Run(steps).txs[tx].current.version > 0 && ByOthers(more, tx)
    ensures var t, db := Run(steps).txs[tx], Run(steps + more);
      && tx in db.txs && db.txs[tx] == t
      && t.key in db.rows && db.rows[t.key] == t.current
      && Entries(db.history, t.key) == Entries(Run(steps).history, t.key)
  {
    var t := Run(steps).txs[tx];
    OthersLeave(steps, more, tx, t.key);
    HistoryIsAChain(steps);
    HistoryIsAChain(steps + more);
    assert TxSound(Run(steps), tx) && TxSound(Run(steps + more), tx);
    assert RowMatches(Run(steps), t.key) && RowMatches(Run(steps + more), t.key);
  }

  /**
   A writer that selected an existing row at the version its caller saw gets its change in, whatever other
   transactions do before it finishes: as the next version, with its history row right after those it saw.
   One whose caller saw another version gets a conflict, and then nothing is written.
   */
  lemma CurrentVersionWins(steps: seq<Step>, more: seq<Step>, tx: nat)
    requires IsOpen(Run(steps), tx) && Run(steps).txs[tx].current.version > 0 && ByOthers(more, tx)
    requires !SameState(Run(steps).txs[tx].current.state, Run(steps).txs[tx].newState)
    ensures var t, db, end := Run(steps).txs[tx], Run(steps + more), Run(steps + more + [Finish(tx)]);
      && tx in end.txs
      && (t.version == t.current.version ==>
            && end.txs[tx].outcome == Changed
            && end.rows == db.rows[t.key := StateRow(t.newState, t.version + 1, t.now, t.actor)]
            && Entries(end.history, t.key) == Entries(Run(steps).history, t.key) + [NewHistory(t)])
      && (t.version != t.current.version ==>
            end.txs[tx].outcome == Conflict && end.rows == db.rows && end.history == db.history)
  {
    RowWaits(steps, more, tx);
    RunMore(steps + more, Finish(tx));
    EntriesExtend(Run(steps + more).history, NewHistory(Run(steps).txs[tx]), Run(steps).txs[tx].key);
  }

  /**
   Setting the state a flag had when its row was selected, or resetting one never changed, adds nothing whatever others
   do before it finishes, a first change of the same flag included.
   */
  lemma NoOpAddsNothing(steps: seq<Step>, more: seq<Step>, tx: nat)
    requires IsOpen(Run(steps), tx) && ByOthers(more, tx)
    requires SameState(Run(steps).txs[tx].current.state, Run(steps).txs[tx].newState)
    ensures var t, db, end := Run(steps).txs[tx], Run(steps + more), Run(steps + more + [Finish(tx)]);
      && tx in end.txs && end.rows == db.rows && end.history == db.history
      && end.txs[tx].outcome == if t.version == t.current.version then Unchanged else Conflict
  {
    OthersLeave(steps, more, tx, Run(steps).txs[tx].key);
    RunMore(steps + more, Finish(tx));
  }

  /** Step `i` is a transaction's finish that changed the flag. */
  predicate ChangesAt(steps: seq<Step>, i: nat, key: string) {
    && i < |steps| && steps[i].Finish? && IsOpen(Run(steps[..i]), steps[i].tx)
    && Run(steps[..i]).txs[steps[i].tx].key == key
    && Decision(Run(steps[..i]).rows, Run(steps[..i]).txs[steps[i].tx]) == Changed
  }

  lemma NextAddsRow(db: Db, s: Step, key: string)
    ensures key in Next(db, s).rows <==>
      || key in db.rows
      || (s.Finish? && IsOpen(db, s.tx) && db.txs[s.tx].key == key && Decision(db.rows, db.txs[s.tx]) == Changed)
  {
  }

  /** Some finish from step `from` on changed the flag. */
  ghost predicate ChangedSince(steps: seq<Step>, from: nat, key: string) {
    exists i: nat :: from <= i && ChangesAt(steps, i, key)
  }

  lemma ChangedMore(steps: seq<Step>, s: Step, from: nat, key: string)
    requires from <= |steps|
    ensures ChangedSince(steps + [s], from, key) <==> ChangedSince(steps, from, key) || ChangesAt(steps + [s], |steps|, key)
  {
    var all := steps + [s];
    assert forall i: nat | i < |steps| :: all[..i] == steps[..i] && all[i] == steps[i];
    if ChangedSince(steps, from, key) {
      var i: nat :| from <= i && ChangesAt(steps, i, key);
      assert ChangesAt(all, i, key);
    }
    if ChangedSince(all, from, key) && !ChangesAt(all, |steps|, key) {
      var i: nat :| from <= i && ChangesAt(all, i, key);
      assert ChangesAt(steps, i, key);
    }
  }

  /** A flag without a row gets one exactly by a finish that changes it. */
  lemma {:induction false} RowsComeFromChanges(steps: seq<Step>, more: seq<Step>, key: string)
    requires key !in Run(steps).rows
    ensures key in Run(steps + more).rows <==> ChangedSince(steps + more, |steps|, key)
  {
    if more == [] {
      assert steps + more == steps;
    } else {
      var before, s := more[..|more| - 1], more[|more| - 1];
      RowsComeFromChanges(steps, before, key);
      var part := steps + before;
      assert steps + more == part + [s] && (part + [s])[..|part|] == part;
      RunMore(part, s);
      NextAddsRow(Run(part), s, key);
      ChangedMore(part, s, |steps|, key);
    }
  }

  /**
   First changes race: a transaction that found no row and brings a state succeeds exactly when no other transaction
   changed the flag before it finishes. The first to finish wins, and every other one gets a conflict.
   */
  lemma FirstToFinishWins(steps: seq<Step>, more: seq<Step>, tx: nat)
    requires IsOpen(Run(steps), tx) && ByOthers(more, tx)
    requires var t := Run(steps).txs[tx];
      t.current == NO_ROW && t.version == 0 && t.newState.Some? && t.key !in Run(steps).rows
    ensures var t, end := Run(steps).txs[tx], Run(steps + more + [Finish(tx)]);
      && tx in end.txs
      && (end.txs[tx].outcome == Changed <==> !ChangedSince(steps + more, |steps|, t.key))
      && (end.txs[tx].outcome != Changed ==> end.txs[tx].outcome == Conflict && end.rows == Run(steps + more).rows)
      && (end.txs[tx].outcome == Changed ==> t.key in end.rows && end.rows[t.key] == StateRow(t.newState, 1, t.now, t.actor))
  {
    OthersLeave(steps, more, tx, Run(steps).txs[tx].key);
    RowsComeFromChanges(steps, more, Run(steps).txs[tx].key);
    RunMore(steps + more, Finish(tx));
  }

  // ---- What pruning leaves ----

  /** A flag's history rows that are still there, oldest first. */
  function Left(history: seq<HistoryRow>, pruned: set<nat>, key: string): seq<HistoryRow> {
    if history == [] then []
    else
      var n := |history| - 1;
      Left(history[..n], pruned, key) + if history[n].key == key && n !in pruned then [history[n]] else []
  }

  /** A flag's changes carry times that never go back. */
  predicate InOrder(history: seq<HistoryRow>, key: string) {
    forall i, j | 0 <= i < j < |history| && history[i].key == key && history[j].key == key ::
      history[i].changedAt <= history[j].changedAt
  }

  /** Of a flag's rows, a deleted one has no older one left. */
  predicate PrunedFromTheStart(history: seq<HistoryRow>, pruned: set<nat>, key: string) {
    forall i, j | 0 <= i < j < |history| && history[i].key == key && history[j].key == key :: j in pruned ==> i in pruned
  }

  lemma {:induction false} BatchTakes(history: seq<HistoryRow>, pruned: set<nat>, before: int, limit: nat, from: nat, i: nat)
    ensures i in Batch(history, pruned, before, limit, from) ==> from <= i && Old(history, pruned, before, i)
    decreases |history| - from
  {
    if from < |history| && limit > 0 {
      BatchTakes(history, pruned, before, if Old(history, pruned, before, from) then limit - 1 else limit, from + 1, i);
    }
  }

  lemma BatchAdvances(history: seq<HistoryRow>, pruned: set<nat>, before: int, limit: nat, i: nat)
    requires i < |history| && limit > 0
    ensures Batch(history, pruned, before, limit, i) ==
      if Old(history, pruned, before, i) then {i} + Batch(history, pruned, before, limit - 1, i + 1)
      else Batch(history, pruned, before, limit, i + 1)
  {
  }

  /** A batch that takes a row takes every older old row too. */
  lemma {:induction false} BatchIsInitial(
    history: seq<HistoryRow>, pruned: set<nat>, before: int, limit: nat, from: nat, i: nat, j: nat)
    requires j in Batch(history, pruned, before, limit, from) && from <= i <= j && Old(history, pruned, before, i)
    ensures i in Batch(history, pruned, before, limit, from)
    decreases |history| - from
  {
    if i > from {
      BatchTakes(history, pruned, before, limit, from, j);
      BatchIsInitial(history, pruned, before, if Old(history, pruned, before, from) then limit - 1 else limit, from + 1, i, j);
    }
  }

  /** A batch with room for all takes every old row. */
  lemma {:induction false} BatchTakesAll(history: seq<HistoryRow>, pruned: set<nat>, before: int, limit: nat, from: nat, i: nat)
    requires Old(history, pruned, before, i) && from <= i && limit >= |history| - from
    ensures i in Batch(history, pruned, before, limit, from)
    decreases |history| - from
  {
    if i > from {
      BatchTakesAll(history, pruned, before, if Old(history, pruned, before, from) then limit - 1 else limit, from + 1, i);
    }
  }

  lemma PruneInOrder(history: seq<HistoryRow>, pruned: set<nat>, before: int, limit: nat, key: string)
    requires InOrder(history, key) && PrunedFromTheStart(history, pruned, key)
    ensures PrunedFromTheStart(history, pruned + Batch(history, pruned, before, limit, 0), key)
  {
    var batch := Batch(history, pruned, before, limit, 0);
    forall i, j | 0 <= i < j < |history| && history[i].key == key && history[j].key == key && j in pruned + batch
      ensures i in pruned + batch
    {
      if j !in pruned && i !in pruned {
        BatchTakes(history, pruned, before, limit, 0, j);
        BatchIsInitial(history, pruned, before, limit, 0, i, j);
      }
    }
  }

  /** Only rows that exist are deleted, so a new one never is. */
  lemma {:induction false} PrunedExist(steps: seq<Step>)
    ensures forall i | i in Run(steps).pruned :: i < |Run(steps).history|
  {
    if steps != [] {
      var before, s := steps[..|steps| - 1], steps[|steps| - 1];
      PrunedExist(before);
      if s.Prune? {
        var db := Run(before);
        forall i | i in Run(steps).pruned
          ensures i < |Run(steps).history|
        {
          BatchTakes(db.history, db.pruned, s.before, s.limit, 0, i);
        }
      }
    }
  }

  lemma {:induction false} RunPrunesInOrder(steps: seq<Step>, key: string)
    requires InOrder(Run(steps).history, key)
    ensures PrunedFromTheStart(Run(steps).history, Run(steps).pruned, key)
  {
    if steps != [] {
      var before, s := steps[..|steps| - 1], steps[|steps| - 1];
      var db, db' := Run(before), Run(steps);
      assert |db.history| <= |db'.history| && db'.history[..|db.history|] == db.history;
      assert forall i | 0 <= i < |db.history| :: db'.history[i] == db.history[i];
      RunPrunesInOrder(before, key);
      PrunedExist(before);
      if s.Prune? {
        PruneInOrder(db.history, db.pruned, s.before, s.limit, key);
      }
    }
  }

  lemma {:induction false} NoneLeft(history: seq<HistoryRow>, pruned: set<nat>, key: string)
    requires forall i | 0 <= i < |history| && history[i].key == key :: i in pruned
    ensures Left(history, pruned, key) == []
  {
    if history != [] { NoneLeft(history[..|history| - 1], pruned, key); }
  }

  /** Deleted from the start, a flag's history is left as a suffix of what it was. */
  lemma {:induction false} LeftIsSuffix(history: seq<HistoryRow>, pruned: set<nat>, key: string) returns (n: nat)
    requires PrunedFromTheStart(history, pruned, key)
    ensures n <= |Entries(history, key)| && Left(history, pruned, key) == Entries(history, key)[n..]
  {
    n := 0;
    if history != [] {
      var last := |history| - 1;
      var before := history[..last];
      n := LeftIsSuffix(before, pruned, key);
      assert history == before + [history[last]];
      SuffixMore(before, history[last], pruned, key, n);
      if history[last].key == key && last in pruned {
        NoneLeft(before, pruned, key);
        n := |Entries(history, key)|;
      }
    }
  }

  lemma SuffixMore(history: seq<HistoryRow>, h: HistoryRow, pruned: set<nat>, key: string, n: nat)
    requires n <= |Entries(history, key)| && Left(history, pruned, key) == Entries(history, key)[n..]
    ensures n <= |Entries(history + [h], key)|
    ensures h.key == key && |history| in pruned ==> Left(history + [h], pruned, key) == Left(history, pruned, key)
    ensures !(h.key == key && |history| in pruned) ==> Left(history + [h], pruned, key) == Entries(history + [h], key)[n..]
  {
    assert (history + [h])[..|history|] == history;
    EntriesExtend(history, h, key);
  }

  /**
   Whatever is pruned, whenever and in whatever batches: if a flag's changes carry times in order, what is left of its
   history is a contiguous end of the chain, and unless nothing is left it ends at the row.
   */
  lemma PruningLeavesTheEnd(steps: seq<Step>, key: string) returns (n: nat)
    requires InOrder(Run(steps).history, key)
    ensures var db := Run(steps);
      var left := Left(db.history, db.pruned, key);
      && n <= |Entries(db.history, key)| && left == Entries(db.history, key)[n..]
      && (forall i | 0 <= i < |left| :: left[i].version == n + i + 1)
      && (forall i | 0 < i < |left| :: left[i].oldState == left[i - 1].newState)
      && (left != [] ==> key in db.rows && db.rows[key] == Latest(left))
  {
    var db := Run(steps);
    HistoryIsAChain(steps);
    RunPrunesInOrder(steps, key);
    n := LeftIsSuffix(db.history, db.pruned, key);
    var all, left := Entries(db.history, key), Left(db.history, db.pruned, key);
    assert RowMatches(db, key);
    forall i | 0 <= i < |left|
      ensures left[i].version == n + i + 1 && (i > 0 ==> left[i].oldState == left[i - 1].newState)
    {
      assert Linked(all, n + i) && left[i] == all[n + i];
    }
  }

  /**
   And only then: deletes of every cutoff and size leave an end of a flag's history exactly when its times are in
   order. A change recorded with an earlier time than the one before it, by a clock set back or a caller that
   guessed the next version, can be deleted alone.
   */
  lemma PruningNeedsOrder(history: seq<HistoryRow>, key: string)
    ensures InOrder(history, key) <==>
      forall before: int, limit: nat :: PrunedFromTheStart(history, Batch(history, {}, before, limit, 0), key)
  {
    if InOrder(history, key) {
      forall before: int, limit: nat
        ensures PrunedFromTheStart(history, Batch(history, {}, before, limit, 0), key)
      {
        PruneInOrder(history, {}, before, limit, key);
        assert {} + Batch(history, {}, before, limit, 0) == Batch(history, {}, before, limit, 0);
      }
    } else {
      var i, j :| 0 <= i < j < |history| && history[i].key == key && history[j].key == key
                  && history[i].changedAt > history[j].changedAt;
      var before, limit := history[i].changedAt, |history|;
      BatchTakesAll(history, {}, before, limit, 0, j);
      BatchTakes(history, {}, before, limit, 0, i);
      assert !PrunedFromTheStart(history, Batch(history, {}, before, limit, 0), key);
    }
  }

  /** A change no one interrupts. */
  lemma WholeChange(db: Db, tx: nat, key: string, newState: Option<Raw>, actor: string, now: int)
    requires tx !in db.txs && key !in db.locks
    requires var current := if key in db.rows then db.rows[key] else NO_ROW;
      !SameState(current.state, newState) && (key in db.rows ==> current.version > 0)
    ensures var current := if key in db.rows then db.rows[key] else NO_ROW;
      var end := Next(Next(db, Begin(tx, key, current.version, newState, actor, now)), Finish(tx));
      && end.rows == db.rows[key := StateRow(newState, current.version + 1, now, actor)]
      && end.history == db.history + [HistoryRow(key, current.state, newState, current.version + 1, now, actor)]
      && end.pruned == db.pruned && key !in end.locks && end.txs.Keys == db.txs.Keys + {tx}
  {
  }

  lemma RunTwoMore(steps: seq<Step>, a: Step, b: Step)
    ensures Run(steps + [a, b]) == Next(Next(Run(steps), a), b)
  {
    RunMore(steps, a);
    RunMore(steps + [a], b);
    assert steps + [a] + [b] == steps + [a, b];
  }

  function FirstChange(raw: Raw): seq<Step> { [Begin(1, "k", 0, Some(raw), "a", 2), Finish(1)] }

  const SECOND_CHANGE := [Begin(2, "k", 1, None, "a", 1), Finish(2)]

  lemma TwoChanges(raw: Raw)
    ensures var db := Run(FirstChange(raw) + SECOND_CHANGE);
      && db.history == [HistoryRow("k", None, Some(raw), 1, 2, "a"), HistoryRow("k", Some(raw), None, 2, 1, "a")]
      && db.pruned == {} && "k" in db.rows && db.rows["k"].version == 2
  {
    var first := FirstChange(raw);
    RunTwoMore([], first[0], first[1]);
    assert [] + [first[0], first[1]] == first;
    WholeChange(Run([]), 1, "k", Some(raw), "a", 2);
    var db := Run(first);
    assert db.history == [HistoryRow("k", None, Some(raw), 1, 2, "a")] && db.rows == map["k" := StateRow(Some(raw), 1, 2, "a")];
    RunTwoMore(first, SECOND_CHANGE[0], SECOND_CHANGE[1]);
    WholeChange(db, 2, "k", None, "a", 1);
  }

  /** A change stamped 2 and then one stamped 1, pruned before 2: the first is left and the row's own change is gone. */
  lemma ClockSetBack(raw: Raw)
    ensures var db := Run(FirstChange(raw) + SECOND_CHANGE + [Prune(2, 10)]);
      && Left(db.history, db.pruned, "k") == [HistoryRow("k", None, Some(raw), 1, 2, "a")]
      && "k" in db.rows && db.rows["k"].version == 2
  {
    TwoChanges(raw);
    RunMore(FirstChange(raw) + SECOND_CHANGE, Prune(2, 10));
    var h1, h2 := HistoryRow("k", None, Some(raw), 1, 2, "a"), HistoryRow("k", Some(raw), None, 2, 1, "a");
    SetBackBatch(h1, h2);
    SetBackLeft(h1, h2);
  }

  lemma SetBackLeft(h1: HistoryRow, h2: HistoryRow)
    requires h1.key == "k"
    ensures Left([h1, h2], {} + {1}, "k") == [h1]
  {
    assert [h1, h2][..1] == [h1] && [h1][..0] == [];
    assert Left([h1], {} + {1}, "k") == [h1];
  }

  lemma SetBackBatch(h1: HistoryRow, h2: HistoryRow)
    requires h1.changedAt == 2 && h2.changedAt == 1
    ensures Batch([h1, h2], {}, 2, 10, 0) == {1}
  {
    assert Batch([h1, h2], {}, 2, 9, 2) == {};
    assert Batch([h1, h2], {}, 2, 10, 1) == {1};
  }

  // ---- The tables as updated in place ----

  /** The rows one delete takes, found by going through the history from its oldest row. */
  method ChooseBatch(history: seq<HistoryRow>, pruned: set<nat>, before: int, limit: nat) returns (gone: set<nat>)
    ensures gone == Batch(history, pruned, before, limit, 0) && |gone| <= limit
  {
    gone := {};
    var i := 0;
    while i < |history| && |gone| < limit
      invariant 0 <= i <= |history| && |gone| <= limit
      invariant forall k | k in gone :: k < i
      invariant Batch(history, pruned, before, limit, 0) == gone + Batch(history, pruned, before, limit - |gone|, i)
    {
      BatchAdvances(history, pruned, before, limit - |gone|, i);
      if i !in pruned && history[i].changedAt < before {
        gone := gone + {i};
      }
      i := i + 1;
    }
    assert Batch(history, pruned, before, limit - |gone|, i) == {};
  }

  datatype WriteError = ActorRequired | ReasonRequired | VersionConflict

  /** Blocked: the row is still locked by another transaction. */
  datatype WriteResult = Saved(changed: bool) | Failed(error: WriteError) | Blocked

  class Database {
    var rows: map<string, StateRow>
    var history: seq<HistoryRow>
    var pruned: set<nat>
    var locks: map<string, nat>
    var txs: map<nat, Tx>
    ghost var steps: seq<Step>

    ghost function View(): Db
      reads this
    {
      Db(rows, history, pruned, locks, txs)
    }

    ghost predicate Valid()
      reads this
    {
      View() == Run(steps)
    }

    constructor ()
      ensures Valid() && steps == []
    {
      rows, history, pruned, locks, txs, steps := map[], [], {}, map[], map[], [];
    }

    ghost method Record(s: Step)
      requires View() == Next(Run(steps), s)
      modifies this`steps
      ensures Valid() && steps == old(steps) + [s]
    {
      assert (steps + [s])[..|steps|] == steps;
      steps := steps + [s];
    }

    /** Begins a transaction and selects the flag's row for update; blocked while the row is locked. */
    method SelectForUpdate(tx: nat, key: string, version: nat, newState: Option<Raw>, actor: string, now: int)
      requires Valid()
      modifies this
      ensures Valid() && steps == old(steps) + [Begin(tx, key, version, newState, actor, now)]
    {
      if tx !in txs && key !in locks {
        if key in rows {
          txs := txs[tx := Tx(key, version, newState, actor, now, rows[key], Open)];
          locks := locks[key := tx];
        } else {
          txs := txs[tx := Tx(key, version, newState, actor, now, NO_ROW, Open)];
        }
      }
      Record(Begin(tx, key, version, newState, actor, now));
    }

    /** Ends a transaction and gives its lock up. */
    method End(tx: nat, outcome: Outcome)
      requires tx in txs
      modifies this`txs, this`locks
      ensures View() == Ended(old(View()), tx, outcome)
    {
      var t := txs[tx];
      txs := txs[tx := t.(outcome := outcome)];
      if t.current.version > 0 {
        locks := locks - {t.key};
      }
    }

    /** The rest of the transaction: the version check, the insert or update, the history row, the commit. */
    method Commit(tx: nat)
      requires Valid()
      modifies this
      ensures Valid() && steps == old(steps) + [Finish(tx)]
    {
      if tx in txs && txs[tx].outcome == Open {
        var t := txs[tx];
        if t.version != t.current.version {
          End(tx, Conflict);
        } else if SameState(t.current.state, t.newState) {
          End(tx, Unchanged);
        } else if t.current.version == 0 && t.key in rows {
          End(tx, Conflict); // the insert violates the primary key
        } else {
          var version := if t.current.version == 0 then 1 else t.current.version + 1;
          rows := rows[t.key := StateRow(t.newState, version, t.now, t.actor)];
          history := history + [HistoryRow(t.key, t.current.state, t.newState, version, t.now, t.actor)];
          End(tx, Changed);
        }
      }
      Record(Finish(tx));
    }

    method Perform(s: Step)
      requires Valid()
      modifies this
      ensures Valid() && steps == old(steps) + [s]
    {
      match s {
        case Begin(tx, key, version, newState, actor, now) => SelectForUpdate(tx, key, version, newState, actor, now);
        case Finish(tx) => Commit(tx);
        case Abort(tx) =>
          if tx in txs && txs[tx].outcome == Open {
            End(tx, Aborted);
          }
          Record(s);
        case Prune(before, limit) =>
          pruned := pruned + Batch(history, pruned, before, limit, 0);
          Record(s);
      }
    }

    /** DeleteHistoryBefore: the oldest rows before a time, at most `limit`. */
    method DeleteHistoryBefore(before: int, limit: int) returns (deleted: Option<nat>)
      requires Valid()
      modifies this
      ensures Valid() && (deleted.None? <==> limit < 1)
      ensures deleted.None? ==> steps == old(steps)
      ensures deleted.Some? ==>
        && steps == old(steps) + [Prune(before, limit)]
        && deleted.value == |Batch(history, old(pruned), before, limit, 0)| <= limit
    {
      if limit < 1 {
        return None;
      }
      var gone := ChooseBatch(history, pruned, before, limit);
      pruned := pruned + gone;
      Record(Prune(before, limit));
      return Some(|gone|);
    }

    /** Other transactions run; none of them touches this one. */
    method Interleave(others: seq<Step>, ghost tx: nat)
      requires Valid() && ByOthers(others, tx)
      modifies this
      ensures Valid() && steps == old(steps) + others
      ensures tx in old(txs) ==> tx in txs && txs[tx] == old(txs)[tx]
      ensures tx !in old(txs) ==> tx !in txs
    {
      for i := 0 to |others|
        invariant Valid() && steps == old(steps) + others[..i]
        invariant tx in old(txs) ==> tx in txs && txs[tx] == old(txs)[tx]
        invariant tx !in old(txs) ==> tx !in txs
      {
        assert others[i] in others;
        ghost var before := View();
        Perform(others[i]);
        assert View() == Next(before, others[i]) by {
          assert steps[..|steps| - 1] == old(steps) + others[..i];
        }
        NextLeaves(before, others[i], tx);
        assert others[..i + 1] == others[..i] + [others[i]];
      }
      assert others[..|others|] == others;
    }

    /**
     Store.write, once its caller could be identified: a transaction around everyone else's. `waiting` runs before it
     selects the row, which is blocked while another transaction has it; `others` run before it writes.
     */
    method Write(
      tx: nat, key: string, version: nat, newState: Option<Raw>, actor: Option<string>, reason: string, now: int,
      waiting: seq<Step>, others: seq<Step>
    ) returns (result: WriteResult)
      requires Valid() && tx !in txs && ByOthers(waiting, tx) && ByOthers(others, tx)
      modifies this
      ensures Valid()
      ensures result == Failed(ActorRequired) <==> actor.None? || actor.value == ""
      ensures result == Failed(ReasonRequired) <==> actor.Some? && actor.value != "" && TrimSpace(reason) == ""
      ensures result == Failed(ActorRequired) || result == Failed(ReasonRequired) ==> steps == old(steps)
      ensures result == Blocked ==> steps == old(steps) + waiting && key in locks
      ensures result.Saved? || result == Failed(VersionConflict) ==>
        && steps == old(steps) + waiting + [Begin(tx, key, version, newState, actor.value, now)] + others + [Finish(tx)]
        && tx in txs
        && (result == Saved(true) <==> txs[tx].outcome == Changed)
        && (result == Saved(false) <==> txs[tx].outcome == Unchanged)
        && (txs[tx].outcome == Changed ==>
              && key in rows && rows[key] == StateRow(newState, version + 1, now, actor.value)
              && history != []
              && history[|history| - 1] == HistoryRow(key, txs[tx].current.state, newState, version + 1, now, actor.value))
    {
      if actor.None? || actor.value == "" {
        return Failed(ActorRequired);
      }
      if TrimSpace(reason) == "" {
        return Failed(ReasonRequired);
      }
      Interleave(waiting, tx);
      if key in locks {
        return Blocked;
      }
      SelectForUpdate(tx, key, version, newState, actor.value, now);
      assert IsOpen(View(), tx) && txs[tx].key == key && txs[tx].version == version && txs[tx].newState == newState
             && txs[tx].actor == actor.value && txs[tx].now == now by {
        assert steps[..|steps| - 1] == old(steps) + waiting;
      }
      Interleave(others, tx);
      ghost var before := View();
      Commit(tx);
      assert View() == Next(before, Finish(tx)) by {
        assert steps[..|steps| - 1] == old(steps) + waiting + [Begin(tx, key, version, newState, actor.value, now)] + others;
      }
      match txs[tx].outcome {
        case Changed => result := Saved(true);
        case Unchanged => result := Saved(false);
        case _ => result := Failed(VersionConflict);
      }
    }
  }
}
