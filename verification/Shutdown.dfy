/**
 The shutdown coordinator: runners, signals, the caller's context and timers race with one main
 goroutine. A run is any sequence of steps of any of them; a step that is not enabled (a send by a
 runner that already returned, a select branch that is not ready) does nothing.
 */
module Shutdown {
  import opened Basics

  /** How a runner returned. */
  datatype RunnerError = Nil | WrapsCanceled | Broken(text: string)

  datatype Result = Result(index: nat, err: RunnerError)

  datatype Failure =
    | RunnerFailed(index: nat, err: RunnerError)
    | RunnerExited(index: nat)
    | ShutdownTimeout
    | ForcedShutdown
    | CleanupFailed

  datatype Config = Config(runners: nat, hooks: nat, drains: bool, cleanup: bool)

  datatype Trigger = NotYet | ByContext | BySignal | ByRunner(result: Result)

  datatype Action = Hook(n: nat) | CancelRunners | CloseCleanup

  datatype Phase = Waiting | Hooking(next: nat) | Draining | Cancelling | Stopping | Collecting | Cleaning | Done

  datatype State = State(
    phase: Phase,
    // channels and their writers
    queue: seq<Result>, sent: set<nat>, signals: nat, ctxDone: bool,
    // the main goroutine's variables
    errs: seq<Failure>, skipDrain: bool, forced: bool,
    // what happened, for the record
    trigger: Trigger, timedOut: bool, collected: seq<Result>, cleanupFailed: bool, log: seq<Action>
  )

  datatype Step =
    // the environment
    | RunnerReturns(index: nat, err: RunnerError) | SignalArrives | ContextEnds
    // the main goroutine, a select branch at a time
    | StartByContext | StartBySignal | StartByRunner
    | RunHook
    | DrainElapsed | DrainForced | DrainStopped
    | Cancel
    | AllStopped | StopTimedOut | StopForced
    | Collect
    | Close(ok: bool)

  predicate Environmental(step: Step) { step.RunnerReturns? || step.SignalArrives? || step.ContextEnds? }

  const Initial := State(Waiting, [], {}, 0, false, [], false, false, NotYet, false, [], false, [])

  /** The stopped channel is closed once every runner has sent its result. */
  predicate Stopped(cfg: Config, s: State) {
    forall i: nat | i < cfg.runners :: i in s.sent
  }

  function TriggerFailure(t: Trigger): seq<Failure> {
    match t
    case ByRunner(r) => [if r.err.Nil? then RunnerExited(r.index) else RunnerFailed(r.index, r.err)]
    case _ => []
  }

  function CollectedFailure(r: Result): seq<Failure> {
    if r.err.Broken? then [RunnerFailed(r.index, r.err)] else []
  }

  function Begin(s: State, t: Trigger): State {
    s.(phase := Hooking(0), trigger := t, skipDrain := s.skipDrain || t.ByRunner?, errs := s.errs + TriggerFailure(t))
  }

  function Next(cfg: Config, s: State, step: Step): State {
    match step
    case RunnerReturns(index, err) =>
      if index < cfg.runners && index !in s.sent
      then s.(queue := s.queue + [Result(index, err)], sent := s.sent + {index}) else s
    case SignalArrives => if s.signals < 2 then s.(signals := s.signals + 1) else s
    case ContextEnds => s.(ctxDone := true)
    case StartByContext => if s.phase == Waiting && s.ctxDone then Begin(s, ByContext) else s
    case StartBySignal =>
      if s.phase == Waiting && s.signals > 0 then Begin(s.(signals := s.signals - 1), BySignal) else s
    case StartByRunner =>
      if s.phase == Waiting && s.queue != []
      then Begin(s.(queue := s.queue[1..]), ByRunner(s.queue[0])) else s
    case RunHook =>
      if !s.phase.Hooking? then s
      else if s.phase.next < cfg.hooks then s.(phase := Hooking(s.phase.next + 1), log := s.log + [Hook(s.phase.next)])
      else s.(phase := if !s.skipDrain && cfg.drains then Draining else Cancelling)
    case DrainElapsed => if s.phase == Draining then s.(phase := Cancelling) else s
    case DrainForced =>
      if s.phase == Draining && s.signals > 0
      then s.(phase := Cancelling, signals := s.signals - 1, forced := true) else s
    case DrainStopped => if s.phase == Draining && Stopped(cfg, s) then s.(phase := Cancelling) else s
    case Cancel =>
      if s.phase != Cancelling then s
      else if s.forced then s.(phase := Collecting, log := s.log + [CancelRunners], errs := s.errs + [ForcedShutdown])
      else s.(phase := Stopping, log := s.log + [CancelRunners])
    case AllStopped => if s.phase == Stopping && Stopped(cfg, s) then s.(phase := Collecting) else s
    case StopTimedOut =>
      if s.phase == Stopping then s.(phase := Collecting, timedOut := true, errs := s.errs + [ShutdownTimeout]) else s
    case StopForced =>
      if s.phase == Stopping && s.signals > 0
      then s.(phase := Collecting, signals := s.signals - 1, forced := true, errs := s.errs + [ForcedShutdown]) else s
    case Collect =>
      if s.phase != Collecting then s
      else if s.queue == [] then s.(phase := Cleaning)
      else s.(queue := s.queue[1..], collected := s.collected + [s.queue[0]], errs := s.errs + CollectedFailure(s.queue[0]))
    case Close(ok) =>
      if s.phase != Cleaning then s
      else if !cfg.cleanup then s.(phase := Done)
      else s.(phase := Done, log := s.log + [CloseCleanup], cleanupFailed := !ok,
              errs := s.errs + if ok then [] else [CleanupFailed])
  }

  function After(cfg: Config, steps: seq<Step>): State {
    if steps == [] then Initial else Next(cfg, After(cfg, steps[..|steps| - 1]), steps[|steps| - 1])
  }

  // ---- Accounting ----

  /** The results taken off the channel so far, in order. */
  function Received(s: State): seq<Result> {
    (if s.trigger.ByRunner? then [s.trigger.result] else []) + s.collected
  }

  function Hooks(n: nat): seq<Action> {
    if n == 0 then [] else Hooks(n - 1) + [Hook(n - 1)]
  }

  /** What the log holds in each phase: hooks in order, then the cancellation, then one close. */
  function ExpectedLog(cfg: Config, s: State): seq<Action> {
    match s.phase
    case Waiting => []
    case Hooking(n) => Hooks(n)
    case Draining => Hooks(cfg.hooks)
    case Cancelling => Hooks(cfg.hooks)
    case Done => Hooks(cfg.hooks) + [CancelRunners] + if cfg.cleanup then [CloseCleanup] else []
    case _ => Hooks(cfg.hooks) + [CancelRunners]
  }

  function CollectedFailures(rs: seq<Result>): seq<Failure> {
    if rs == [] then [] else CollectedFailures(rs[..|rs| - 1]) + CollectedFailure(rs[|rs| - 1])
  }

  /** The wait for the runners is over. */
  predicate Waited(s: State) { s.phase.Collecting? || s.phase.Cleaning? || s.phase.Done? }

  /** Every failure of the run, in the order it is reported, from what happened alone. */
  function Account(s: State): seq<Failure> {
    RunFailures(s) + (if s.cleanupFailed then [CleanupFailed] else [])
  }

  /** Those of the run itself, before cleanup. */
  function RunFailures(s: State): seq<Failure> {
    TriggerFailure(s.trigger) + WaitFailure(s) + CollectedFailures(s.collected)
  }

  function WaitFailure(s: State): seq<Failure> {
    if !Waited(s) then [] else if s.timedOut then [ShutdownTimeout] else if s.forced then [ForcedShutdown] else []
  }

  /** Every result a runner sent, in the order sent: those received, then those still in the channel. */
  function Results(s: State): seq<Result> { Received(s) + s.queue }

  predicate DistinctResults(cfg: Config, s: State) { OneEach(cfg, Results(s), s.sent) }

  /** One result of each runner that has sent, and of no other. */
  predicate OneEach(cfg: Config, rs: seq<Result>, sent: set<nat>) {
    && (forall i, j | 0 <= i < j < |rs| :: rs[i].index != rs[j].index)
    && (forall i | 0 <= i < |rs| :: rs[i].index < cfg.runners && rs[i].index in sent)
    && (forall n | n in sent :: SentBy(rs, n))
  }

  predicate SentBy(rs: seq<Result>, n: nat) { exists i :: 0 <= i < |rs| && rs[i].index == n }

  predicate Orderly(cfg: Config, s: State) {
    && s.log == ExpectedLog(cfg, s)
    && (s.phase.Hooking? ==> s.phase.next <= cfg.hooks)
    && (s.trigger == NotYet <==> s.phase == Waiting)
    && s.skipDrain == s.trigger.ByRunner?
    && (!Waited(s) ==> s.collected == [] && !s.timedOut && (s.forced ==> s.phase == Cancelling))
    && (s.cleanupFailed ==> s.phase == Done)
    && (Waited(s) && !s.forced && !s.timedOut ==> Stopped(cfg, s))
    && ((s.phase.Cleaning? || s.phase.Done?) && !s.forced && !s.timedOut ==> s.queue == [])
    && !(s.forced && s.timedOut)
  }

  predicate Starts(step: Step) { step.StartByContext? || step.StartBySignal? || step.StartByRunner? }

  predicate Drains(step: Step) { step.RunHook? || step.DrainElapsed? || step.DrainForced? || step.DrainStopped? }

  predicate Waits(step: Step) { step.Cancel? || step.AllStopped? || step.StopTimedOut? || step.StopForced? }

  lemma EnvironmentOrderly(cfg: Config, s: State, step: Step)
    requires Orderly(cfg, s) && Environmental(step)
    ensures Orderly(cfg, Next(cfg, s, step))
  {
  }

  lemma StartOrderly(cfg: Config, s: State, step: Step)
    requires Orderly(cfg, s) && Starts(step)
    ensures Orderly(cfg, Next(cfg, s, step))
  {
  }

  lemma DrainOrderly(cfg: Config, s: State, step: Step)
    requires Orderly(cfg, s) && Drains(step)
    ensures Orderly(cfg, Next(cfg, s, step))
  {
  }

  lemma WaitOrderly(cfg: Config, s: State, step: Step)
    requires Orderly(cfg, s) && Waits(step)
    ensures Orderly(cfg, Next(cfg, s, step))
  {
  }

  lemma EndOrderly(cfg: Config, s: State, step: Step)
    requires Orderly(cfg, s) && (step.Collect? || step.Close?)
    ensures Orderly(cfg, Next(cfg, s, step))
  {
    if step.Close? && s.phase == Cleaning && !cfg.cleanup {
      assert s.log == s.log + [];
    }
  }

  /** Each step keeps the order of things. */
  lemma NextOrderly(cfg: Config, s: State, step: Step)
    requires Orderly(cfg, s)
    ensures Orderly(cfg, Next(cfg, s, step))
  {
    if Environmental(step) {
      EnvironmentOrderly(cfg, s, step);
    } else if Starts(step) {
      StartOrderly(cfg, s, step);
    } else if Drains(step) {
      DrainOrderly(cfg, s, step);
    } else if Waits(step) {
      WaitOrderly(cfg, s, step);
    } else {
      EndOrderly(cfg, s, step);
    }
  }

  /** The steps that report something or take a result. */
  predicate Reports(step: Step) {
    step.StartByRunner? || step.Cancel? || step.StopTimedOut? || step.StopForced? || step.Collect? || step.Close?
  }

  /** Nothing the account is made of differs. */
  predicate SameAccount(s: State, s': State) {
    && s'.errs == s.errs && TriggerFailure(s'.trigger) == TriggerFailure(s.trigger)
    && WaitFailure(s') == WaitFailure(s)
    && s'.collected == s.collected && s'.cleanupFailed == s.cleanupFailed
  }

  lemma QuietEnvironment(cfg: Config, s: State, step: Step)
    requires Environmental(step)
    ensures SameAccount(s, Next(cfg, s, step))
  {
  }

  lemma QuietStart(cfg: Config, s: State, step: Step)
    requires Orderly(cfg, s) && (step.StartByContext? || step.StartBySignal?)
    ensures SameAccount(s, Next(cfg, s, step))
  {
  }

  lemma QuietDrain(cfg: Config, s: State, step: Step)
    requires Orderly(cfg, s)
    requires step.RunHook? || step.DrainElapsed? || step.DrainForced? || step.DrainStopped? || step.AllStopped?
    ensures SameAccount(s, Next(cfg, s, step))
  {
  }

  lemma SameAccountAccounts(s: State, s': State)
    requires SameAccount(s, s') && s.errs == Account(s)
    ensures s'.errs == Account(s')
  {
  }

  lemma CollectAccount(cfg: Config, s: State)
    requires Orderly(cfg, s) && s.errs == Account(s)
    ensures Next(cfg, s, Collect).errs == Account(Next(cfg, s, Collect))
  {
    var s' := Next(cfg, s, Collect);
    if s.phase == Collecting && s.queue != [] {
      var r := s.queue[0];
      assert s'.collected[..|s.collected|] == s.collected;
      assert CollectedFailures(s'.collected) == CollectedFailures(s.collected) + CollectedFailure(r);
    }
  }

  lemma StartAccount(cfg: Config, s: State)
    requires Orderly(cfg, s) && s.errs == Account(s)
    ensures Next(cfg, s, StartByRunner).errs == Account(Next(cfg, s, StartByRunner))
  {
    if s.phase == Waiting && s.queue != [] {
      assert s.errs == [];
      assert CollectedFailures(s.collected) == [];
    }
  }

  lemma WaitAccount(cfg: Config, s: State, step: Step)
    requires Orderly(cfg, s) && s.errs == Account(s)
    requires step.Cancel? || step.StopTimedOut? || step.StopForced?
    ensures Next(cfg, s, step).errs == Account(Next(cfg, s, step))
  {
    if !Waited(s) {
      assert s.errs == TriggerFailure(s.trigger);
      assert CollectedFailures(s.collected) == [];
    }
  }

  lemma CloseAccount(cfg: Config, s: State, ok: bool)
    requires Orderly(cfg, s) && s.errs == Account(s)
    ensures Next(cfg, s, Close(ok)).errs == Account(Next(cfg, s, Close(ok)))
  {
    if s.phase == Cleaning {
      var s' := Next(cfg, s, Close(ok));
      assert s.errs == RunFailures(s) && RunFailures(s') == RunFailures(s);
    }
  }

  lemma NextAccount(cfg: Config, s: State, step: Step)
    requires Orderly(cfg, s) && s.errs == Account(s)
    ensures Next(cfg, s, step).errs == Account(Next(cfg, s, step))
  {
    if step.Collect? {
      CollectAccount(cfg, s);
    } else if step.StartByRunner? {
      StartAccount(cfg, s);
    } else if step.Cancel? || step.StopTimedOut? || step.StopForced? {
      WaitAccount(cfg, s, step);
    } else if step.Close? {
      CloseAccount(cfg, s, step.ok);
    } else {
      QuietAccount(cfg, s, step);
    }
  }

  lemma QuietAccount(cfg: Config, s: State, step: Step)
    requires Orderly(cfg, s) && s.errs == Account(s) && !Reports(step)
    ensures Next(cfg, s, step).errs == Account(Next(cfg, s, step))
  {
    if Environmental(step) {
      QuietEnvironment(cfg, s, step);
    } else if step.StartByContext? || step.StartBySignal? {
      QuietStart(cfg, s, step);
    } else {
      QuietDrain(cfg, s, step);
    }
    SameAccountAccounts(s, Next(cfg, s, step));
  }

  /** The steps that move a result. */
  predicate MovesResult(step: Step) {
    step.StartByRunner? || step.Collect? || step.RunnerReturns?
  }

  lemma OthersKeepResults(cfg: Config, s: State, step: Step)
    requires Orderly(cfg, s) && !MovesResult(step)
    ensures Received(Next(cfg, s, step)) == Received(s)
    ensures Next(cfg, s, step).queue == s.queue && Next(cfg, s, step).sent == s.sent
  {
  }

  function NewResult(cfg: Config, s: State, step: Step): seq<Result> {
    if step.RunnerReturns? && step.index < cfg.runners && step.index !in s.sent
    then [Result(step.index, step.err)] else []
  }

  lemma StartMoves(cfg: Config, s: State)
    requires Orderly(cfg, s)
    ensures Results(Next(cfg, s, StartByRunner)) == Results(s) && Next(cfg, s, StartByRunner).sent == s.sent
  {
    if s.phase == Waiting && s.queue != [] {
      assert Received(s) == [];
      assert Received(Next(cfg, s, StartByRunner)) == [s.queue[0]];
      assert s.queue == [s.queue[0]] + s.queue[1..];
    }
  }

  lemma CollectMoves(cfg: Config, s: State)
    ensures Results(Next(cfg, s, Collect)) == Results(s) && Next(cfg, s, Collect).sent == s.sent
  {
    if s.phase == Collecting && s.queue != [] {
      assert s.queue == [s.queue[0]] + s.queue[1..];
      assert Received(Next(cfg, s, Collect)) == Received(s) + [s.queue[0]];
    }
  }

  /** Only a send changes the results, and it adds a new index at the end. */
  lemma NextResults(cfg: Config, s: State, step: Step)
    requires Orderly(cfg, s)
    ensures Results(Next(cfg, s, step)) == Results(s) + NewResult(cfg, s, step)
    ensures Next(cfg, s, step).sent == s.sent + set r | r in NewResult(cfg, s, step) :: r.index
  {
    match step
    case StartByRunner => StartMoves(cfg, s);
    case Collect => CollectMoves(cfg, s);
    case RunnerReturns(index, err) =>
    case _ => OthersKeepResults(cfg, s, step);
  }

  lemma NextDistinct(cfg: Config, s: State, step: Step)
    requires Orderly(cfg, s) && DistinctResults(cfg, s)
    ensures DistinctResults(cfg, Next(cfg, s, step))
  {
    NextResults(cfg, s, step);
    var more := NewResult(cfg, s, step);
    if more == [] {
      assert Results(s) + more == Results(s);
    } else {
      OneMore(cfg, Results(s), s.sent, more[0]);
    }
  }

  lemma OneMore(cfg: Config, rs: seq<Result>, sent: set<nat>, r: Result)
    requires OneEach(cfg, rs, sent) && r.index < cfg.runners && r.index !in sent
    ensures OneEach(cfg, rs + [r], sent + {r.index})
  {
    var rs' := rs + [r];
    forall n | n in sent + {r.index}
      ensures SentBy(rs', n)
    {
      if n in sent {
        var i :| 0 <= i < |rs| && rs[i].index == n;
        assert rs'[i].index == n;
      } else {
        assert rs'[|rs|].index == n;
      }
    }
  }

  lemma {:induction false} RunIsOrderly(cfg: Config, steps: seq<Step>)
    ensures Orderly(cfg, After(cfg, steps)) && DistinctResults(cfg, After(cfg, steps))
    ensures After(cfg, steps).errs == Account(After(cfg, steps))
  {
    if steps != [] {
      var before, step := steps[..|steps| - 1], steps[|steps| - 1];
      RunIsOrderly(cfg, before);
      NextOrderly(cfg, After(cfg, before), step);
      NextAccount(cfg, After(cfg, before), step);
      NextDistinct(cfg, After(cfg, before), step);
    }
  }

  lemma {:induction false} NoCollectedFailures(rs: seq<Result>)
    ensures CollectedFailures(rs) == [] <==> forall i | 0 <= i < |rs| :: !rs[i].err.Broken?
  {
    if rs != [] {
      NoCollectedFailures(rs[..|rs| - 1]);
    }
  }

  /**
   Shutdown accounting, on every run that reaches its end: hooks ran in order, before the runners were
   cancelled, before cleanup closed once; no result was received twice, and if the wait neither timed out nor
   was forced, every runner's was received exactly once; the reported failures are exactly the account of
   what happened; and Run returns nil exactly when shutdown began by context or signal, was neither forced nor
   timed out, no collected error was other than cancellation, and cleanup succeeded.
   */
  lemma ShutdownAccounting(cfg: Config, steps: seq<Step>)
    requires After(cfg, steps).phase == Done
    ensures var s := After(cfg, steps);
      && s.log == Hooks(cfg.hooks) + [CancelRunners] + (if cfg.cleanup then [CloseCleanup] else [])
      && (forall i, j | 0 <= i < j < |Received(s)| :: Received(s)[i].index != Received(s)[j].index)
      && (!s.forced && !s.timedOut ==>
            forall n: nat | n < cfg.runners :: ReceivedFrom(s, n))
      && s.errs == Account(s)
      && (s.errs == [] <==>
            && (s.trigger.ByContext? || s.trigger.BySignal?) && !s.forced && !s.timedOut
            && (forall i | 0 <= i < |s.collected| :: !s.collected[i].err.Broken?)
            && !s.cleanupFailed)
  {
    RunIsOrderly(cfg, steps);
    ReceivedOnce(cfg, After(cfg, steps));
    NilExactly(After(cfg, steps));
  }

  lemma ReceivedOnce(cfg: Config, s: State)
    requires Orderly(cfg, s) && DistinctResults(cfg, s)
    ensures forall i, j | 0 <= i < j < |Received(s)| :: Received(s)[i].index != Received(s)[j].index
    ensures s.phase == Done && !s.forced && !s.timedOut ==> forall n: nat | n < cfg.runners :: ReceivedFrom(s, n)
  {
    forall i, j | 0 <= i < j < |Received(s)|
      ensures Received(s)[i].index != Received(s)[j].index
    {
      assert Results(s)[i] == Received(s)[i] && Results(s)[j] == Received(s)[j];
    }
    if s.phase == Done && !s.forced && !s.timedOut {
      assert Results(s) == Received(s);
      forall n: nat | n < cfg.runners
        ensures ReceivedFrom(s, n)
      {
        assert n in s.sent && SentBy(Results(s), n);
        var i :| 0 <= i < |Results(s)| && Results(s)[i].index == n;
        assert Received(s)[i].index == n;
      }
    }
  }

  lemma NilExactly(s: State)
    requires s.phase == Done && s.errs == Account(s) && s.trigger != NotYet
    ensures s.errs == [] <==>
      && (s.trigger.ByContext? || s.trigger.BySignal?) && !s.forced && !s.timedOut
      && (forall i | 0 <= i < |s.collected| :: !s.collected[i].err.Broken?)
      && !s.cleanupFailed
  {
    NoCollectedFailures(s.collected);
    assert |s.errs| == |TriggerFailure(s.trigger)| + |WaitFailure(s)| + |CollectedFailures(s.collected)|
                       + |if s.cleanupFailed then [CleanupFailed] else []|;
  }

  predicate ReceivedFrom(s: State, n: nat) { SentBy(Received(s), n) }

  // ---- Which returns are reported ----

  predicate IsAbout(f: Failure, n: nat) {
    (f.RunnerFailed? && f.index == n) || f == RunnerExited(n)
  }

  /** Some reported failure is runner n's. */
  predicate Reported(errs: seq<Failure>, n: nat) { exists f | f in errs :: IsAbout(f, n) }

  predicate BrokenResult(rs: seq<Result>, n: nat) {
    exists i :: 0 <= i < |rs| && rs[i].index == n && rs[i].err.Broken?
  }

  lemma {:induction false} CollectedReported(rs: seq<Result>, n: nat)
    ensures Reported(CollectedFailures(rs), n) <==> BrokenResult(rs, n)
  {
    if rs != [] {
      var before, r := rs[..|rs| - 1], rs[|rs| - 1];
      CollectedReported(before, n);
      ReportedEither(CollectedFailures(before), CollectedFailure(r), n);
      BrokenMore(before, r, n);
      assert rs == before + [r];
      assert CollectedFailure(r) != [] ==> CollectedFailure(r)[0] in CollectedFailure(r);
    }
  }

  lemma BrokenMore(rs: seq<Result>, r: Result, n: nat)
    ensures BrokenResult(rs + [r], n) <==> BrokenResult(rs, n) || (r.index == n && r.err.Broken?)
  {
    var all := rs + [r];
    if i :| 0 <= i < |rs| && rs[i].index == n && rs[i].err.Broken? { assert all[i] == rs[i]; }
    if r.index == n && r.err.Broken? { assert all[|rs|] == r; }
    if i :| 0 <= i < |all| && all[i].index == n && all[i].err.Broken? { assert i < |rs| ==> rs[i] == all[i]; }
  }

  lemma ReportedEither(a: seq<Failure>, b: seq<Failure>, n: nat)
    ensures Reported(a + b, n) <==> Reported(a, n) || Reported(b, n)
  {
    assert forall f :: f in a + b <==> f in a || f in b;
  }

  lemma AccountReports(s: State, n: nat)
    ensures Reported(Account(s), n) <==>
      (s.trigger.ByRunner? && s.trigger.result.index == n) || BrokenResult(s.collected, n)
  {
    var t, w, c := TriggerFailure(s.trigger), WaitFailure(s), CollectedFailures(s.collected);
    var e := if s.cleanupFailed then [CleanupFailed] else [];
    ReportedEither(t + w + c, e, n);
    ReportedEither(t + w, c, n);
    ReportedEither(t, w, n);
    CollectedReported(s.collected, n);
    assert t != [] ==> t[0] in t;
  }

  /** A result sent before collecting ended keeps its place, and is received by then. */
  predicate Kept(s: State, p: nat, r: Result) {
    p < |Results(s)| && Results(s)[p] == r && (s.phase == Cleaning || s.phase == Done ==> p < |Received(s)|)
  }

  lemma ReceivedGrows(cfg: Config, s: State, step: Step)
    requires Orderly(cfg, s)
    ensures |Received(s)| <= |Received(Next(cfg, s, step))|
  {
    if step.StartByRunner? {
      StartMoves(cfg, s);
    } else if step.Collect? {
      CollectMoves(cfg, s);
    } else if !step.RunnerReturns? {
      OthersKeepResults(cfg, s, step);
    }
  }

  lemma NextKept(cfg: Config, s: State, step: Step, p: nat, r: Result)
    requires Orderly(cfg, s) && Kept(s, p, r)
    ensures Kept(Next(cfg, s, step), p, r)
  {
    NextResults(cfg, s, step);
    ReceivedGrows(cfg, s, step);
    if step.Collect? && s.phase == Collecting && s.queue == [] {
      assert Results(s) == Received(s);
    }
  }

  lemma {:induction false} StaysKept(cfg: Config, steps: seq<Step>, k: nat, p: nat, r: Result)
    requires k <= |steps| && Kept(After(cfg, steps[..k]), p, r)
    ensures Kept(After(cfg, steps), p, r)
    decreases |steps|
  {
    if k == |steps| {
      assert steps[..k] == steps;
    } else {
      var before := steps[..|steps| - 1];
      assert before[..k] == steps[..k];
      StaysKept(cfg, before, k, p, r);
      RunIsOrderly(cfg, before);
      NextKept(cfg, After(cfg, before), steps[|steps| - 1], p, r);
    }
  }

  /** Step `k` is runner n's return, and its context is not cancelled yet. */
  predicate ReturnsEarly(cfg: Config, steps: seq<Step>, k: nat, n: nat, err: RunnerError) {
    && k < |steps| && steps[k] == RunnerReturns(n, err)
    && n < cfg.runners && n !in After(cfg, steps[..k]).sent
    && CancelRunners !in After(cfg, steps[..k]).log
  }

  /**
   A runner that returns before its context is done has failed. What is reported of it, on every run that
   ends: its return is a failure exactly when it started the shutdown or its error is neither nil nor cancellation. One
   that returns nil, or cancellation, once something else started the shutdown goes unreported.
   */
  lemma EarlyReturnsReported(cfg: Config, steps: seq<Step>, k: nat, n: nat, err: RunnerError)
    requires ReturnsEarly(cfg, steps, k, n, err) && After(cfg, steps).phase == Done
    ensures Reported(After(cfg, steps).errs, n) <==>
      After(cfg, steps).trigger == ByRunner(Result(n, err)) || err.Broken?
  {
    var r := Result(n, err);
    var p := EarlyIsKept(cfg, steps, k, n, err);
    var s := After(cfg, steps);
    RunIsOrderly(cfg, steps);
    AccountReports(s, n);
    OnlyResultOf(cfg, s, p, r);
  }

  lemma EarlyIsKept(cfg: Config, steps: seq<Step>, k: nat, n: nat, err: RunnerError) returns (p: nat)
    requires ReturnsEarly(cfg, steps, k, n, err)
    ensures Kept(After(cfg, steps), p, Result(n, err))
  {
    var before := After(cfg, steps[..k]);
    p := |Results(before)|;
    RunIsOrderly(cfg, steps[..k]);
    NotYetCollected(cfg, before);
    NextResults(cfg, before, steps[k]);
    assert steps[..k + 1][..k] == steps[..k];
    StaysKept(cfg, steps, k + 1, p, Result(n, err));
  }

  lemma NotYetCollected(cfg: Config, s: State)
    requires Orderly(cfg, s) && CancelRunners !in s.log
    ensures s.phase != Cleaning && s.phase != Done
  {
    var cancelled := Hooks(cfg.hooks) + [CancelRunners];
    assert cancelled[|cancelled| - 1] in cancelled && forall more: seq<Action> :: CancelRunners in cancelled + more;
  }

  /** A received result is the only one of its runner, so it is the trigger or it was collected. */
  lemma OnlyResultOf(cfg: Config, s: State, p: nat, r: Result)
    requires DistinctResults(cfg, s) && s.phase == Done && Kept(s, p, r)
    ensures (s.trigger.ByRunner? && s.trigger.result.index == r.index) <==> s.trigger == ByRunner(r)
    ensures s.trigger != ByRunner(r) ==> (BrokenResult(s.collected, r.index) <==> r.err.Broken?)
  {
    var rs := Results(s);
    var skip := if s.trigger.ByRunner? then 1 else 0;
    assert Received(s)[p] == r && rs[p] == r;
    assert s.trigger.ByRunner? ==> rs[0] == s.trigger.result;
    assert forall i | 0 <= i < |s.collected| :: rs[skip + i] == s.collected[i];
    if s.trigger != ByRunner(r) {
      assert p >= skip && s.collected[p - skip] == r;
    }
  }

  const QUIET_BEGIN: seq<Step> := [SignalArrives] + [StartBySignal]
  const QUIET_RETURN: seq<Step> := QUIET_BEGIN + [RunnerReturns(0, Nil)] + [RunHook] + [RunHook]
  const QUIET_STOP: seq<Step> := QUIET_RETURN + [Cancel] + [AllStopped] + [Collect]
  const QUIET_EXIT: seq<Step> := QUIET_STOP + [Collect] + [Close(true)]

  lemma AfterMore(cfg: Config, steps: seq<Step>, step: Step)
    ensures After(cfg, steps + [step]) == Next(cfg, After(cfg, steps), step)
  {
    assert (steps + [step])[..|steps|] == steps;
  }

  lemma QuietBegins(cfg: Config)
    requires cfg == Config(1, 1, false, false)
    ensures After(cfg, QUIET_BEGIN) == State(Hooking(0), [], {}, 0, false, [], false, false, BySignal, false, [], false, [])
  {
    AfterMore(cfg, [], SignalArrives);
    assert [] + [SignalArrives] == [SignalArrives];
    AfterMore(cfg, [SignalArrives], StartBySignal);
  }

  lemma QuietReturns(cfg: Config)
    requires cfg == Config(1, 1, false, false)
    ensures After(cfg, QUIET_RETURN)
            == State(Cancelling, [Result(0, Nil)], {0}, 0, false, [], false, false, BySignal, false, [], false, [Hook(0)])
  {
    QuietBegins(cfg);
    AfterMore(cfg, QUIET_BEGIN, RunnerReturns(0, Nil));
    AfterMore(cfg, QUIET_BEGIN + [RunnerReturns(0, Nil)], RunHook);
    AfterMore(cfg, QUIET_BEGIN + [RunnerReturns(0, Nil)] + [RunHook], RunHook);
  }

  lemma QuietStops(cfg: Config)
    requires cfg == Config(1, 1, false, false)
    ensures After(cfg, QUIET_STOP)
            == State(Collecting, [], {0}, 0, false, [], false, false, BySignal, false, [Result(0, Nil)], false, [Hook(0), CancelRunners])
  {
    QuietReturns(cfg);
    AfterMore(cfg, QUIET_RETURN, Cancel);
    AfterMore(cfg, QUIET_RETURN + [Cancel], AllStopped);
    AfterMore(cfg, QUIET_RETURN + [Cancel] + [AllStopped], Collect);
  }

  lemma QuietEnds(cfg: Config)
    requires cfg == Config(1, 1, false, false)
    ensures After(cfg, QUIET_EXIT).phase == Done && After(cfg, QUIET_EXIT).errs == []
  {
    QuietStops(cfg);
    AfterMore(cfg, QUIET_STOP, Collect);
    AfterMore(cfg, QUIET_STOP + [Collect], Close(true));
  }

  /** A runner that returns nil while the hooks run: its context is not done, and Run returns nil. */
  lemma QuietExit()
    ensures var cfg := Config(1, 1, false, false);
      && ReturnsEarly(cfg, QUIET_EXIT, 2, 0, Nil)
      && After(cfg, QUIET_EXIT).phase == Done && After(cfg, QUIET_EXIT).errs == []
  {
    var cfg := Config(1, 1, false, false);
    assert QUIET_EXIT[..2] == QUIET_BEGIN && QUIET_EXIT[2] == RunnerReturns(0, Nil);
    QuietBegins(cfg);
    QuietEnds(cfg);
  }

  // ---- Cleanup ----

  /** A resource to release: whether closing it fails, and what its closing registers in turn. */
  datatype Item = Item(name: string, fails: bool, registers: seq<Item>)

  function Reversed(items: seq<Item>): seq<Item> {
    if items == [] then [] else [items[|items| - 1]] + Reversed(items[..|items| - 1])
  }

  function Failing(items: seq<Item>): seq<string> {
    if items == [] then []
    else Failing(items[..|items| - 1]) + if items[|items| - 1].fails then [items[|items| - 1].name] else []
  }

  function Registered(items: seq<Item>): seq<Item> {
    if items == [] then [] else Registered(items[..|items| - 1]) + items[|items| - 1].registers
  }

  /** Reversing is the last-in, first-out order of the same items. */
  lemma {:induction false} ReversedAt(items: seq<Item>, k: nat)
    requires k < |items|
    ensures |Reversed(items)| == |items| && Reversed(items)[k] == items[|items| - 1 - k]
  {
    if k > 0 {
      ReversedAt(items[..|items| - 1], k - 1);
    } else if |items| > 1 {
      ReversedAt(items[..|items| - 1], 0);
    }
  }

  /** Exactly the failing items' names are joined, in the order they were closed. */
  lemma {:induction false} FailingExactly(items: seq<Item>, name: string)
    ensures name in Failing(items) <==> exists i :: 0 <= i < |items| && items[i].fails && items[i].name == name
    ensures Failing(items) == [] <==> forall i | 0 <= i < |items| :: !items[i].fails
  {
    if items != [] {
      var before := items[..|items| - 1];
      FailingExactly(before, name);
      assert forall i | 0 <= i < |before| :: before[i] == items[i];
    }
  }

  /** Exactly what closing registered waits for the next Close. */
  lemma {:induction false} RegisteredExactly(items: seq<Item>, x: Item)
    ensures x in Registered(items) <==> exists i :: 0 <= i < |items| && x in items[i].registers
  {
    if items != [] {
      var before := items[..|items| - 1];
      RegisteredExactly(before, x);
      if i :| 0 <= i < |before| && x in before[i].registers { assert items[i] == before[i]; }
      if i :| 0 <= i < |items| && x in items[i].registers { assert i < |before| ==> before[i] == items[i]; }
    }
  }

  class Cleanup {
    var items: seq<Item>
    var closed: seq<Item> // everything ever closed, in order

    constructor ()
      ensures items == [] && closed == []
    {
      items, closed := [], [];
    }

    method Add(item: Item)
      modifies this`items
      ensures items == old(items) + [item]
    {
      items := items + [item];
    }

    /**
     Close: every registered item once, last first, even if some fail; what closing registers meanwhile
     waits for the next Close.
     */
    method Close() returns (errs: seq<string>)
      modifies this
      ensures closed == old(closed) + Reversed(old(items))
      ensures errs == Failing(Reversed(old(items)))
      ensures items == Registered(Reversed(old(items)))
    {
      var taken := items;
      items := [];
      errs := [];
      var i := |taken|;
      ghost var done: seq<Item> := [];
      assert Reversed(taken) == done + Reversed(taken[..i]) by { assert taken[..i] == taken; }
      while i > 0
        invariant 0 <= i <= |taken|
        invariant Reversed(taken) == done + Reversed(taken[..i])
        invariant closed == old(closed) + done
        invariant errs == Failing(done) && items == Registered(done)
      {
        i := i - 1;
        var item := taken[i];
        assert taken[..i + 1][..i] == taken[..i];
        ghost var before := done;
        done := done + [item];
        assert done[..|before|] == before;
        closed := closed + [item];
        items := items + item.registers;
        if item.fails {
          errs := errs + [item.name];
        }
      }
      assert done == Reversed(taken);
    }
  }

  // ---- Run as code ----

  /** What happens around one select: what others do before it, and the branch preferred if ready. */
  datatype Moment = Moment(events: seq<Step>, branch: Step)

  /** Everything others do around one run: before each select, between hooks and while results are collected. */
  datatype Schedule = Schedule(
    start: Moment, hooks: seq<seq<Step>>, drain: Moment, wait: Moment, collect: seq<seq<Step>>)

  predicate ValidSchedule(s: Schedule) {
    && OnlyEnvironment(s.start.events) && OnlyEnvironment(s.drain.events) && OnlyEnvironment(s.wait.events)
    && (forall k | 0 <= k < |s.hooks| :: OnlyEnvironment(s.hooks[k]))
    && (forall k | 0 <= k < |s.collect| :: OnlyEnvironment(s.collect[k]))
  }

  predicate OnlyEnvironment(steps: seq<Step>) {
    forall e | e in steps :: Environmental(e)
  }

  /** The variables Run and its channels keep. */
  datatype Vars = Vars(
    queue: seq<Result>, sent: set<nat>, signals: nat, ctxDone: bool,
    errs: seq<Failure>, skipDrain: bool, forced: bool)

  function VarsOf(s: State): Vars {
    Vars(s.queue, s.sent, s.signals, s.ctxDone, s.errs, s.skipDrain, s.forced)
  }

  class Coordinator {
    const cfg: Config
    var queue: seq<Result>
    var sent: set<nat>
    var signals: nat
    var ctxDone: bool
    var errs: seq<Failure>
    var skipDrain: bool
    var forced: bool
    ghost var steps: seq<Step>
    ghost var s: State

    /** The fields agree with a run of the protocol that is in phase `phase`. */
    ghost predicate Valid(phase: Phase)
      reads this
    {
      && s == After(cfg, steps)
      && Matches(phase)
    }

    ghost function View(): Vars
      reads this
    {
      Vars(queue, sent, signals, ctxDone, errs, skipDrain, forced)
    }

    ghost predicate Matches(phase: Phase)
      reads this
    {
      s.phase == phase && VarsOf(s) == View()
    }

    constructor (cfg: Config)
      ensures Valid(Waiting) && this.cfg == cfg && steps == []
    {
      this.cfg := cfg;
      queue, sent, signals, ctxDone, errs, skipDrain, forced := [], {}, 0, false, [], false, false;
      steps, s := [], Initial;
    }

    ghost method Record(step: Step)
      requires s == After(cfg, steps)
      modifies this`steps, this`s
      ensures steps == old(steps) + [step] && s == Next(cfg, old(s), step) == After(cfg, steps)
    {
      assert (steps + [step])[..|steps|] == steps;
      steps, s := steps + [step], Next(cfg, s, step);
    }

    /** Runners, signals and the context move whenever the main goroutine lets them. */
    method Environment(events: seq<Step>, ghost phase: Phase)
      requires Valid(phase) && OnlyEnvironment(events)
      modifies this
      ensures Valid(phase)
      ensures errs == old(errs) && skipDrain == old(skipDrain) && forced == old(forced)
    {
      for i := 0 to |events|
        invariant Valid(phase)
        invariant errs == old(errs) && skipDrain == old(skipDrain) && forced == old(forced)
      {
        assert events[i] in events;
        Event(events[i], phase);
      }
    }

    method Event(e: Step, ghost phase: Phase)
      requires Valid(phase) && Environmental(e)
      modifies this`queue, this`sent, this`signals, this`ctxDone, this`steps, this`s
      ensures Valid(phase)
    {
      match e {
        case RunnerReturns(index, err) =>
          if index < cfg.runners && index !in sent {
            queue, sent := queue + [Result(index, err)], sent + {index};
          }
        case SignalArrives =>
          if signals < 2 { signals := signals + 1; }
        case ContextEnds => ctxDone := true;
      }
      Record(e);
    }

    /** The stopped channel. */
    method IsStopped() returns (stopped: bool)
      ensures stopped <==> forall i: nat | i < cfg.runners :: i in sent
    {
      for i := 0 to cfg.runners
        invariant forall k: nat | k < i :: k in sent
      {
        if i !in sent {
          return false;
        }
      }
      return true;
    }

    /** The first select; false while none of its branches is ready. */
    method AwaitStart(m: Moment) returns (started: bool)
      requires Valid(Waiting) && OnlyEnvironment(m.events)
      modifies this
      ensures Valid(if started then Hooking(0) else Waiting)
      ensures !started ==> !ctxDone && signals == 0 && queue == []
    {
      Environment(m.events, Waiting);
      started := true;
      if ctxDone && (m.branch == StartByContext || (signals == 0 && queue == [])) {
        ContextDone();
      } else if signals > 0 && (m.branch == StartBySignal || queue == []) {
        SignalReceived();
      } else if queue != [] {
        RunnerStopped();
      } else {
        started := false;
      }
    }

    method ContextDone()
      requires Valid(Waiting) && ctxDone
      modifies this
      ensures Valid(Hooking(0))
    {
      Record(StartByContext);
      assert s.errs == errs;
    }

    method SignalReceived()
      requires Valid(Waiting) && signals > 0
      modifies this
      ensures Valid(Hooking(0))
    {
      signals := signals - 1;
      Record(StartBySignal);
      assert s.errs == errs;
    }

    /** A runner that stops before shutdown is a failure, whatever it returned. */
    method RunnerStopped()
      requires Valid(Waiting) && queue != []
      modifies this
      ensures Valid(Hooking(0))
    {
      var r := queue[0];
      queue := queue[1..];
      skipDrain := true;
      if !r.err.Nil? {
        errs := errs + [RunnerFailed(r.index, r.err)];
      } else {
        errs := errs + [RunnerExited(r.index)];
      }
      Record(StartByRunner);
    }

    /** The hooks, in order; others move between them. */
    method RunHooks(events: seq<seq<Step>>)
      requires Valid(Hooking(0)) && forall k | 0 <= k < |events| :: OnlyEnvironment(events[k])
      modifies this
      ensures Valid(if !skipDrain && cfg.drains then Draining else Cancelling)
      ensures skipDrain == old(skipDrain) && forced == old(forced)
    {
      for i := 0 to cfg.hooks
        invariant Valid(Hooking(i)) && skipDrain == old(skipDrain) && forced == old(forced)
      {
        OneHook(if i < |events| then events[i] else [], i);
      }
      Record(RunHook);
    }

    method OneHook(events: seq<Step>, ghost i: nat)
      requires Valid(Hooking(i)) && i < cfg.hooks && OnlyEnvironment(events)
      modifies this
      ensures Valid(Hooking(i + 1)) && skipDrain == old(skipDrain) && forced == old(forced)
    {
      Environment(events, Hooking(i));
      Record(RunHook);
    }

    /** The drain select; its timer always fires in the end. */
    method Drain(m: Moment)
      requires Valid(Draining) && OnlyEnvironment(m.events)
      modifies this
      ensures Valid(Cancelling)
    {
      Environment(m.events, Draining);
      var stopped := IsStopped();
      if m.branch == DrainForced && signals > 0 {
        ForceDrain();
      } else if m.branch == DrainStopped && stopped {
        EndDrain(DrainStopped);
      } else {
        EndDrain(DrainElapsed);
      }
    }

    method ForceDrain()
      requires Valid(Draining) && signals > 0
      modifies this
      ensures Valid(Cancelling)
    {
      signals, forced := signals - 1, true;
      Record(DrainForced);
    }

    ghost method EndDrain(branch: Step)
      requires Valid(Draining) && (branch == DrainElapsed || (branch == DrainStopped && Stopped(cfg, s)))
      modifies this`steps, this`s
      ensures Valid(Cancelling)
    {
      Record(branch);
    }

    /** Cancels the runners; a forced shutdown does not wait for them. */
    method CancelAll()
      requires Valid(Cancelling)
      modifies this
      ensures Valid(if forced then Collecting else Stopping) && forced == old(forced)
    {
      if forced {
        errs := errs + [ForcedShutdown];
      }
      Record(Cancel);
    }

    method AwaitStopped(m: Moment)
      requires Valid(Stopping) && OnlyEnvironment(m.events)
      modifies this
      ensures Valid(Collecting)
    {
      Environment(m.events, Stopping);
      var stopped := IsStopped();
      if m.branch == AllStopped && stopped {
        Record(AllStopped);
      } else if m.branch == StopForced && signals > 0 {
        ForceStop();
      } else {
        GiveUpWaiting();
      }
    }

    method ForceStop()
      requires Valid(Stopping) && signals > 0
      modifies this
      ensures Valid(Collecting)
    {
      signals, forced := signals - 1, true;
      errs := errs + [ForcedShutdown];
      Record(StopForced);
    }

    method GiveUpWaiting()
      requires Valid(Stopping)
      modifies this
      ensures Valid(Collecting)
    {
      errs := errs + [ShutdownTimeout];
      Record(StopTimedOut);
    }

    /** Takes what is in the channel without blocking; runners may still return meanwhile. */
    method CollectResults(events: seq<seq<Step>>)
      requires Valid(Collecting) && forall k | 0 <= k < |events| :: OnlyEnvironment(events[k])
      modifies this
      ensures Valid(Cleaning)
    {
      var i := 0;
      while i < |events| || queue != []
        invariant 0 <= i <= |events| && Valid(Collecting)
        decreases |events| - i, |queue|
      {
        if i < |events| {
          Environment(events[i], Collecting);
          i := i + 1;
        }
        if queue == [] {
          break;
        }
        TakeResult();
      }
      StopCollecting();
    }

    method TakeResult()
      requires Valid(Collecting) && queue != []
      modifies this
      ensures Valid(Collecting) && queue == old(queue)[1..]
    {
      var r := queue[0];
      queue := queue[1..];
      if !r.err.Nil? && !r.err.WrapsCanceled? {
        errs := errs + [RunnerFailed(r.index, r.err)];
      }
      Record(Collect);
    }

    ghost method StopCollecting()
      requires Valid(Collecting) && queue == []
      modifies this`steps, this`s
      ensures Valid(Cleaning)
    {
      Record(Collect);
    }

    /** Closes what was registered; a failure is one more error. */
    method CloseAll(cleanup: Cleanup)
      requires Valid(Cleaning)
      modifies this, cleanup
      ensures Valid(Done) && CleanedUp(cleanup.closed, old(cleanup.closed), old(cleanup.items), cfg.cleanup)
      ensures s == Next(cfg, old(s), Close(!cfg.cleanup || Failing(Reversed(old(cleanup.items))) == []))
    {
      var failures: seq<string> := [];
      if cfg.cleanup {
        failures := cleanup.Close();
      }
      AddCleanupError(failures == []);
    }

    method AddCleanupError(ok: bool)
      requires Valid(Cleaning) && (!cfg.cleanup ==> ok)
      modifies this
      ensures Valid(Done) && s == Next(cfg, old(s), Close(ok))
    {
      if !ok {
        errs := errs + [CleanupFailed];
      }
      Record(Close(ok));
    }

    /** From the reason to stop to the results: hooks, drain, cancel, wait, collect. */
    method StopRunners(schedule: Schedule)
      requires Valid(Hooking(0)) && ValidSchedule(schedule)
      modifies this
      ensures Valid(Cleaning)
    {
      RunHooks(schedule.hooks);
      if !skipDrain && cfg.drains {
        Drain(schedule.drain);
      }
      CancelAll();
      if !forced {
        AwaitStopped(schedule.wait);
      }
      CollectResults(schedule.collect);
    }

    /** Run, past option validation: None while it still waits for a reason to stop. */
    method Run(schedule: Schedule, cleanup: Cleanup) returns (result: Option<seq<Failure>>)
      requires Valid(Waiting) && ValidSchedule(schedule)
      modifies this, cleanup
      ensures result.None? ==>
        && Valid(Waiting) && !ctxDone && signals == 0 && queue == []
        && cleanup.closed == old(cleanup.closed) && cleanup.items == old(cleanup.items)
      ensures result.Some? ==>
        && Valid(Done) && result.value == Account(s)
        && CleanedUp(cleanup.closed, old(cleanup.closed), old(cleanup.items), cfg.cleanup)
        && (result.value == [] <==> Clean(s) && (cfg.cleanup ==> Failing(Reversed(old(cleanup.items))) == []))
    {
      var started := AwaitStart(schedule.start);
      if !started {
        return None;
      }
      StopRunners(schedule);
      ghost var before := steps;
      CloseAll(cleanup);
      ClosedAccount(cfg, before, steps, !cfg.cleanup || Failing(Reversed(old(cleanup.items))) == []);
      return Some(errs);
    }
  }

  /** Begun by context or signal, neither forced nor timed out, no error but cancellation. */
  predicate Clean(s: State) {
    && (s.trigger.ByContext? || s.trigger.BySignal?) && !s.forced && !s.timedOut
    && forall i | 0 <= i < |s.collected| :: !s.collected[i].err.Broken?
  }

  lemma ClosedAccount(cfg: Config, before: seq<Step>, steps: seq<Step>, ok: bool)
    requires After(cfg, before).phase == Cleaning && (!cfg.cleanup ==> ok)
    requires After(cfg, steps) == Next(cfg, After(cfg, before), Close(ok)) && After(cfg, steps).phase == Done
    ensures After(cfg, steps).errs == Account(After(cfg, steps))
    ensures After(cfg, steps).errs == [] <==> Clean(After(cfg, steps)) && ok
  {
    RunIsOrderly(cfg, before);
    CloseOutcome(cfg, After(cfg, before), ok);
    RunIsOrderly(cfg, steps);
    NilExactly(After(cfg, steps));
  }

  lemma CloseOutcome(cfg: Config, s: State, ok: bool)
    requires s.phase == Cleaning && !s.cleanupFailed && (!cfg.cleanup ==> ok)
    ensures Next(cfg, s, Close(ok)).cleanupFailed <==> !ok
  {
  }

  /** Everything registered was closed once, last first, if there is anything to close at all. */
  predicate CleanedUp(closed: seq<Item>, before: seq<Item>, items: seq<Item>, cleanup: bool) {
    closed == if cleanup then before + Reversed(items) else before
  }
}
