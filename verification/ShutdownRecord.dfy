/**
 What the record of a shutdown says, told from the steps of the run: what began it, whether it drained, what ended its
 waits, which signals it used, and so what each reported failure means.
 */
module ShutdownRecord {
  import opened Shutdown

  /** Some step of the run happened in a state that fits. */
  ghost predicate Occurs(cfg: Config, steps: seq<Step>, fits: (State, Step) -> bool) {
    exists k: nat :: OccursAt(cfg, steps, fits, k)
  }

  predicate OccursAt(cfg: Config, steps: seq<Step>, fits: (State, Step) -> bool, k: nat) {
    k < |steps| && fits(After(cfg, steps[..k]), steps[k])
  }

  lemma OccursMore(cfg: Config, steps: seq<Step>, step: Step, fits: (State, Step) -> bool)
    ensures Occurs(cfg, steps + [step], fits) <==> Occurs(cfg, steps, fits) || fits(After(cfg, steps), step)
  {
    var all := steps + [step];
    assert all[..|steps|] == steps && all[|steps|] == step;
    assert forall k: nat | k < |steps| :: all[..k] == steps[..k] && all[k] == steps[k];
    if Occurs(cfg, steps, fits) {
      var k: nat :| OccursAt(cfg, steps, fits, k);
      assert OccursAt(cfg, all, fits, k);
    }
    if fits(After(cfg, steps), step) {
      assert OccursAt(cfg, all, fits, |steps|);
    }
    if Occurs(cfg, all, fits) {
      var k: nat :| OccursAt(cfg, all, fits, k);
      assert k < |steps| ==> OccursAt(cfg, steps, fits, k);
    }
  }

  /** A signal that arrived ends the drain, or the wait for the runners. */
  predicate Forces(s: State, step: Step) {
    s.signals > 0 && ((s.phase == Draining && step == DrainForced) || (s.phase == Stopping && step == StopForced))
  }

  /** The shutdown timeout ends the wait for the runners. */
  predicate TimesOut(s: State, step: Step) { s.phase == Stopping && step == StopTimedOut }

  predicate StartsByContext(s: State, step: Step) { s.phase == Waiting && s.ctxDone && step == StartByContext }

  predicate StartsBySignal(s: State, step: Step) { s.phase == Waiting && s.signals > 0 && step == StartBySignal }

  predicate EndsContext(s: State, step: Step) { step == ContextEnds }

  /** The drain ends: its delay elapsed, a signal arrived, or every runner has stopped. */
  predicate EndsDrain(cfg: Config, s: State, step: Step) {
    s.phase == Draining && (step == DrainElapsed || (step == DrainForced && s.signals > 0) || (step == DrainStopped && Stopped(cfg, s)))
  }

  /** The hooks are over and there is no drain. */
  predicate SkipsDrain(cfg: Config, s: State, step: Step) {
    && s.phase.Hooking? && s.phase.next >= cfg.hooks && step == RunHook
    && !(cfg.drains && !s.trigger.ByRunner?)
  }

  function DrainEnds(cfg: Config): (State, Step) -> bool { (s: State, step: Step) => EndsDrain(cfg, s, step) }

  /** Past the drain, if there is one. */
  predicate PastDrain(s: State) { s.phase == Cancelling || s.phase == Stopping || Waited(s) }

  /** What the record of a run says, from its steps. */
  ghost predicate Recorded(cfg: Config, steps: seq<Step>) {
    var s := After(cfg, steps);
    && (s.forced <==> Occurs(cfg, steps, Forces))
    && (s.timedOut <==> Occurs(cfg, steps, TimesOut))
    && (s.trigger == ByContext <==> Occurs(cfg, steps, StartsByContext))
    && (s.trigger == BySignal <==> Occurs(cfg, steps, StartsBySignal))
    && (s.ctxDone <==> Occurs(cfg, steps, EndsContext))
  }

  /** The drain is entered, and left only by its own ends, exactly when it is configured and no runner began the shutdown. */
  ghost predicate Drained(cfg: Config, steps: seq<Step>) {
    var s := After(cfg, steps);
    && (s.phase == Draining ==> cfg.drains && !s.trigger.ByRunner?)
    && (PastDrain(s) ==> (Occurs(cfg, steps, DrainEnds(cfg)) <==> cfg.drains && !s.trigger.ByRunner?))
    && (!PastDrain(s) ==> !Occurs(cfg, steps, DrainEnds(cfg)))
  }

  lemma NextRecorded(cfg: Config, steps: seq<Step>, step: Step)
    requires Recorded(cfg, steps) && Orderly(cfg, After(cfg, steps))
    ensures Recorded(cfg, steps + [step])
  {
    AfterMore(cfg, steps, step);
    OccursMore(cfg, steps, step, Forces);
    OccursMore(cfg, steps, step, TimesOut);
    OccursMore(cfg, steps, step, StartsByContext);
    OccursMore(cfg, steps, step, StartsBySignal);
    OccursMore(cfg, steps, step, EndsContext);
    NextRecordsEnd(cfg, After(cfg, steps), step);
    NextRecordsStart(cfg, After(cfg, steps), step);
    NextRecordsSignal(cfg, After(cfg, steps), step);
    NextRecordsContext(cfg, After(cfg, steps), step);
  }

  lemma NextRecordsEnd(cfg: Config, s: State, step: Step)
    ensures var s' := Next(cfg, s, step);
      (s'.forced <==> s.forced || Forces(s, step)) && (s'.timedOut <==> s.timedOut || TimesOut(s, step))
  {
    match step
    case DrainForced =>
    case StopForced =>
    case StopTimedOut =>
    case Cancel =>
    case _ =>
  }

  lemma NextRecordsStart(cfg: Config, s: State, step: Step)
    requires s.phase == Waiting ==> s.trigger == NotYet
    ensures Next(cfg, s, step).trigger == ByContext <==> s.trigger == ByContext || StartsByContext(s, step)
  {
    match step
    case StartByContext =>
    case StartBySignal =>
    case StartByRunner =>
    case _ =>
  }

  lemma NextRecordsSignal(cfg: Config, s: State, step: Step)
    requires s.phase == Waiting ==> s.trigger == NotYet
    ensures Next(cfg, s, step).trigger == BySignal <==> s.trigger == BySignal || StartsBySignal(s, step)
  {
    match step
    case StartByContext =>
    case StartBySignal =>
    case StartByRunner =>
    case _ =>
  }

  lemma NextRecordsContext(cfg: Config, s: State, step: Step)
    ensures Next(cfg, s, step).ctxDone <==> s.ctxDone || EndsContext(s, step)
  {
    match step
    case ContextEnds =>
    case _ =>
  }

  lemma NextDrained(cfg: Config, steps: seq<Step>, step: Step)
    requires Drained(cfg, steps) && Orderly(cfg, After(cfg, steps))
    ensures Drained(cfg, steps + [step])
  {
    AfterMore(cfg, steps, step);
    OccursMore(cfg, steps, step, DrainEnds(cfg));
    NextDrains(cfg, After(cfg, steps), step);
    NextDraining(cfg, After(cfg, steps), step);
    NextKeepsTrigger(cfg, After(cfg, steps), step);
  }

  lemma NextDrains(cfg: Config, s: State, step: Step)
    requires s.skipDrain == s.trigger.ByRunner?
    ensures PastDrain(Next(cfg, s, step)) <==> PastDrain(s) || EndsDrain(cfg, s, step) || SkipsDrain(cfg, s, step)
  {
  }

  lemma NextKeepsTrigger(cfg: Config, s: State, step: Step)
    ensures s.phase != Waiting ==> Next(cfg, s, step).trigger == s.trigger
    ensures s.phase == Waiting ==> Next(cfg, s, step).phase == Waiting || Next(cfg, s, step).phase == Hooking(0)
  {
  }

  lemma NextDraining(cfg: Config, s: State, step: Step)
    requires s.skipDrain == s.trigger.ByRunner?
    ensures Next(cfg, s, step).phase == Draining ==> s.phase == Draining || (s.phase.Hooking? && cfg.drains && !s.trigger.ByRunner?)
  {
  }

  /**
   Over every run: it is forced exactly when a signal ended its drain or its wait, timed out exactly when the timeout ended
   its wait, began as its steps say, and drained exactly when that is configured and no runner began the shutdown.
   */
  lemma {:induction false} RunIsRecorded(cfg: Config, steps: seq<Step>)
    ensures Recorded(cfg, steps) && Drained(cfg, steps)
  {
    if steps != [] {
      var before, step := steps[..|steps| - 1], steps[|steps| - 1];
      assert steps == before + [step];
      RunIsRecorded(cfg, before);
      RunIsOrderly(cfg, before);
      NextRecorded(cfg, before, step);
      NextDrained(cfg, before, step);
    }
  }

  lemma {:induction false} CollectedHold(rs: seq<Result>, f: Failure)
    ensures f in CollectedFailures(rs) <==> exists i :: 0 <= i < |rs| && rs[i].err.Broken? && f == RunnerFailed(rs[i].index, rs[i].err)
  {
    if rs != [] {
      var before, r := rs[..|rs| - 1], rs[|rs| - 1];
      CollectedHold(before, f);
      if i :| 0 <= i < |before| && before[i].err.Broken? && f == RunnerFailed(before[i].index, before[i].err) {
        assert rs[i] == before[i];
      }
      if i :| 0 <= i < |rs| && rs[i].err.Broken? && f == RunnerFailed(rs[i].index, rs[i].err) {
        assert i < |before| ==> before[i] == rs[i];
      }
    }
  }

  /** A broken result was collected, and this is its failure. */
  predicate CollectedAs(rs: seq<Result>, f: Failure) {
    f.RunnerFailed? && f.err.Broken? && Result(f.index, f.err) in rs
  }

  lemma CollectedAsExactly(rs: seq<Result>, f: Failure)
    ensures f in CollectedFailures(rs) <==> CollectedAs(rs, f)
  {
    CollectedHold(rs, f);
    if CollectedAs(rs, f) {
      var i :| 0 <= i < |rs| && rs[i] == Result(f.index, f.err);
    }
  }

  /** Every failure an account holds, one by one. */
  predicate Holds(s: State, f: Failure) {
    match f
    case ForcedShutdown => s.forced
    case ShutdownTimeout => s.timedOut
    case CleanupFailed => s.cleanupFailed
    case RunnerExited(n) => s.trigger == ByRunner(Result(n, Nil))
    case RunnerFailed(n, err) =>
      (s.trigger == ByRunner(Result(n, err)) && !err.Nil?) || (err.Broken? && Result(n, err) in s.collected)
  }

  lemma AccountHolds(s: State, f: Failure)
    requires Waited(s) && !(s.forced && s.timedOut)
    ensures f in Account(s) <==> Holds(s, f)
  {
    CollectedAsExactly(s.collected, f);
    assert f in Account(s) <==>
      || f in TriggerFailure(s.trigger) || f in WaitFailure(s) || f in CollectedFailures(s.collected)
      || (s.cleanupFailed && f == CleanupFailed);
  }

  /** What ended a run's waits is reported, and nothing else is reported as such. */
  lemma ForcedIsReported(cfg: Config, steps: seq<Step>)
    requires After(cfg, steps).phase == Done
    ensures ForcedShutdown in After(cfg, steps).errs <==> Occurs(cfg, steps, Forces)
    ensures ShutdownTimeout in After(cfg, steps).errs <==> Occurs(cfg, steps, TimesOut)
  {
    RunIsRecorded(cfg, steps);
    EveryFailureMeans(cfg, steps, ForcedShutdown);
    EveryFailureMeans(cfg, steps, ShutdownTimeout);
  }

  /** Every reported failure of a finished run means what it says, and nothing that happened goes without its failure. */
  lemma EveryFailureMeans(cfg: Config, steps: seq<Step>, f: Failure)
    requires After(cfg, steps).phase == Done
    ensures f in After(cfg, steps).errs <==> Holds(After(cfg, steps), f)
  {
    RunIsOrderly(cfg, steps);
    AccountHolds(After(cfg, steps), f);
  }

  lemma {:induction false} HookAt(n: nat, i: nat)
    requires i < n
    ensures |Hooks(n)| == n && Hooks(n)[i] == Hook(i)
  {
    if n > 1 {
      HookAt(n - 1, if i < n - 1 then i else 0);
    }
  }

  /** What a finished run did, one by one: every hook once in its order, then the cancellation, then the close if any. */
  lemma LogExactly(cfg: Config, steps: seq<Step>, i: nat)
    requires After(cfg, steps).phase == Done
    ensures var log := After(cfg, steps).log;
      && |log| == cfg.hooks + (if cfg.cleanup then 2 else 1)
      && (i < |log| ==> log[i] == if i < cfg.hooks then Hook(i) else if i == cfg.hooks then CancelRunners else CloseCleanup)
  {
    RunIsOrderly(cfg, steps);
    if cfg.hooks > 0 {
      HookAt(cfg.hooks, if i < cfg.hooks then i else 0);
    }
  }

  // ---- Signals ----

  function Arrivals(steps: seq<Step>): nat {
    if steps == [] then 0 else Arrivals(steps[..|steps| - 1]) + if steps[|steps| - 1] == SignalArrives then 1 else 0
  }

  /** The signals a run has used up: one to begin, one to force. */
  function Used(s: State): nat { (if s.trigger == BySignal then 1 else 0) + if s.forced then 1 else 0 }

  lemma NextUses(cfg: Config, s: State, step: Step)
    requires Orderly(cfg, s)
    ensures var s' := Next(cfg, s, step);
      s'.signals + Used(s') == s.signals + Used(s) + if step == SignalArrives && s.signals < 2 then 1 else 0
  {
    NextRecordsEnd(cfg, s, step);
    NextRecordsSignal(cfg, s, step);
    NextTakes(cfg, s, step);
  }

  lemma NextTakes(cfg: Config, s: State, step: Step)
    ensures Next(cfg, s, step).signals ==
      if step == SignalArrives && s.signals < 2 then s.signals + 1
      else if StartsBySignal(s, step) || Forces(s, step) then s.signals - 1
      else s.signals
  {
  }

  /**
   Signals are counted: none is used that did not arrive, and the first two are never lost, so a shutdown that one signal
   began is forced by a second, never by the first again.
   */
  lemma {:induction false} SignalsAreCounted(cfg: Config, steps: seq<Step>)
    ensures After(cfg, steps).signals + Used(After(cfg, steps)) <= Arrivals(steps)
    ensures Arrivals(steps) <= 2 ==> After(cfg, steps).signals + Used(After(cfg, steps)) == Arrivals(steps)
  {
    if steps != [] {
      var before, step := steps[..|steps| - 1], steps[|steps| - 1];
      SignalsAreCounted(cfg, before);
      RunIsOrderly(cfg, before);
      NextUses(cfg, After(cfg, before), step);
    }
  }
}
