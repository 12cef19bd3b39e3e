/** Which runner a cancel reaches when runs overlap. */
module PlaygroundCancel {
  import opened Options
  import opened JsText
  import opened PlaygroundReducer
  import opened PlaygroundProtocol
  import opened PlaygroundAttribution

  /** `runner.cancel(session)` is a call on the runner that is driving that session. */
  ghost predicate CallMatches(w: World, call: (RunnerId, RunId)) {
    call.1 in w.drivers && w.drivers[call.1] == Prompting(call.0)
  }

  /** The runner and the session a cancel would use belong together. */
  ghost predicate Paired(w: World) {
    w.activeRunner.Some? && w.activeSession.Some? ==> CallMatches(w, (w.activeRunner.value, w.activeSession.value))
  }

  /**
   * A run starts while a runner is registered, or a factory delivers a runner while a later run is the active session.
   */
  ghost predicate Mixes(w: World, step: Step) {
    match step
    case DispatchStartRun(_, _, _) => w.activeRunner.Some?
    case FactoryResolved(r, runner) =>
      w.activeSession.Some? && w.activeSession.value != r && !CallMatches(w, (runner, w.activeSession.value))
    case _ => false
  }

  /** Exactly such a step separates the two variables. */
  lemma PairingBreaksIff(w: World, step: Step)
    requires Enabled(w, step) && Paired(w)
    ensures Paired(Apply(w, step)) <==> !Mixes(w, step)
  {
    hide TickStep, NotifyStep, CommitReceive, CommitEnd, CommitStart, CommitStopReplay, CommitStartReplay, CommitClear;
    StepDrivers(w, step);
    match step
    case DispatchStartRun(r, prompt, startedAt) => StartDrivers(w, r, prompt, startedAt);
    case FactoryResolved(_, _) =>
    case FactoryRejected(r, message, endedAt) => FailFrame(w, r, message, endedAt);
    case PromptResolved(r, endedAt) => CommitFrame(w, External, FinalizeRun(r, Completed, endedAt), r);
    case PromptRejected(r, message, endedAt) => FailFrame(w, r, message, endedAt);
    case _ =>
  }

  lemma StartDrivers(w: World, r: RunId, prompt: Text, startedAt: int)
    ensures var w' := StartRunStep(w, r, prompt, startedAt);
      w'.drivers == w.drivers[r := AwaitingFactory] && w'.activeRunner == w.activeRunner && w'.activeSession == Some(r)
  {
    hide Reduce;
  }

  /** All other dispatches, ticks and notifications leave drivers, runner and session alone. */
  lemma StepDrivers(w: World, step: Step)
    requires Enabled(w, step)
    ensures step.DispatchStartRun? || step.FactoryResolved? || step.FactoryRejected? || step.PromptResolved?
      || step.PromptRejected?
      || SameDriving(w, Apply(w, step))
  {
    hide TickStep, NotifyStep, CommitReceive, CommitEnd, CommitStart, CommitStopReplay, CommitStartReplay, CommitClear;
    match step
    case Notify(r, events) => NotifyFrame(w, r, events);
    case Tick => TickFrame(w);
    case DispatchCancelRun(endedAt) => CommitFrame(w, External, CancelRun(endedAt), RunId([]));
    case DispatchReceive(e) => CommitFrame(w, External, ReceiveEvent(e), RunId([]));
    case DispatchStartReplay(r) => StartReplayFrame(w, r);
    case DispatchStopReplay => CommitFrame(w.(timer := false), External, StopReplay, RunId([]));
    case DispatchClearSessions => CommitFrame(w.(timer := false), External, ClearSessions, RunId([]));
    case _ =>
  }

  /** Without overlap: any driver in flight drives the active session, with the active runner. */
  ghost predicate OneAtATime(w: World) {
    && (w.activeRunner.Some? ==> w.activeSession.Some? && CallMatches(w, (w.activeRunner.value, w.activeSession.value)))
    && (forall r :: r in w.drivers && w.drivers[r] != Settled ==> w.activeSession == Some(r))
    && (forall r :: r in w.drivers && w.drivers[r].Prompting? ==> w.activeRunner == Some(w.drivers[r].runner))
  }

  /** A new run is dispatched only when no driver is in flight. */
  ghost predicate Serial(w: World, step: Step) {
    step.DispatchStartRun? ==> forall r :: r in w.drivers ==> w.drivers[r] == Settled
  }

  lemma SerialNeverMixes(w: World, step: Step)
    requires Enabled(w, step) && Serial(w, step) && OneAtATime(w)
    ensures Paired(w) && !Mixes(w, step) && OneAtATime(Apply(w, step))
  {
    hide TickStep, NotifyStep, CommitReceive, CommitEnd, CommitStart, CommitStopReplay, CommitStartReplay, CommitClear;
    StepDrivers(w, step);
    match step
    case DispatchStartRun(r, prompt, startedAt) => StartDrivers(w, r, prompt, startedAt);
    case FactoryRejected(r, message, endedAt) => FailFrame(w, r, message, endedAt);
    case PromptResolved(r, endedAt) => CommitFrame(w, External, FinalizeRun(r, Completed, endedAt), r);
    case PromptRejected(r, message, endedAt) => FailFrame(w, r, message, endedAt);
    case _ =>
  }

  /** The part of the world the pairing is about. */
  ghost predicate SameDriving(w: World, w': World) {
    w'.drivers == w.drivers && w'.activeRunner == w.activeRunner && w'.activeSession == w.activeSession
  }

  lemma CommitFrame(w: World, source: Source, a: Action, r: RunId)
    ensures a.ReceiveEvent? ==> SameDriving(w, CommitReceive(w, a.event, source))
    ensures a.CancelRun? || a.FinalizeRun? ==> SameDriving(w, CommitEnd(w, a))
    ensures SameDriving(w, CommitStopReplay(w)) && SameDriving(w, CommitClear(w))
      && SameDriving(w, CommitStartReplay(w, r))
  {
    hide Reduce;
  }

  lemma StartReplayFrame(w: World, r: RunId)
    ensures SameDriving(w, StartReplayStep(w, r))
  {
    hide Reduce;
  }

  lemma FailFrame(w: World, r: RunId, message: Text, endedAt: int)
    ensures SameDriving(w, CommitEnd(CommitReceive(w, RunError(message), ErrorOf(r)), FinalizeRun(r, Errored, endedAt)))
  {
    hide Reduce;
  }

  lemma TickFrame(w: World)
    ensures TickStep(w).drivers == w.drivers && TickStep(w).activeRunner == w.activeRunner
    ensures TickStep(w).activeSession == w.activeSession
  {
  }

  lemma {:induction false} NotifyFrame(w: World, r: RunId, events: seq<Event>)
    ensures NotifyStep(w, r, events).drivers == w.drivers
    ensures NotifyStep(w, r, events).activeRunner == w.activeRunner
      && NotifyStep(w, r, events).activeSession == w.activeSession
    decreases |events|
  {
    if events == [] || w.state.activeRunId != Some(r) {
    } else {
      NotifyFrame(CommitReceive(w, events[0], Bridged(r)), r, events[1..]);
    }
  }

  ghost predicate SerialExecution(w: World, steps: seq<Step>)
    requires Execution(w, steps)
    decreases |steps|
  {
    steps == [] || (Serial(w, steps[0]) && SerialExecution(Apply(w, steps[0]), steps[1..]))
  }

  /** While runs do not overlap, the pairing is never broken. */
  lemma {:induction false} SerialKeepsPaired(w: World, steps: seq<Step>)
    requires OneAtATime(w) && Execution(w, steps) && SerialExecution(w, steps)
    ensures OneAtATime(Final(w, steps)) && Paired(Final(w, steps))
    decreases |steps|
  {
    if steps == [] {
    } else {
      hide OneAtATime, Paired, Enabled, Apply, Serial;
      SerialNeverMixes(w, steps[0]);
      SerialKeepsPaired(Apply(w, steps[0]), steps[1..]);
    }
  }

  /**
   * While runs do not overlap, a cancel makes exactly one call, on the runner of the run in flight, if that run is
   * prompting; while its factory is pending, or with no run in flight, it makes none.
   */
  lemma SerialCancelCalls(steps: seq<Step>, endedAt: int)
    requires Execution(INIT, steps) && SerialExecution(INIT, steps)
    ensures var w := Final(INIT, steps);
      forall r :: r in w.drivers && w.drivers[r] != Settled ==>
        CancelRunStep(w, endedAt).cancels == w.cancels
          + (if w.drivers[r].Prompting? then [(w.drivers[r].runner, r)] else [])
    ensures var w := Final(INIT, steps);
      (forall r :: r in w.drivers ==> w.drivers[r] == Settled) ==> CancelRunStep(w, endedAt).cancels == w.cancels
  {
    SerialKeepsPaired(INIT, steps);
    CommitKeepsCancels(Final(INIT, steps), endedAt);
    hide CommitEnd;
  }

  lemma {:induction false} OneMoreSerial(w: World, steps: seq<Step>, last: Step)
    requires Execution(w, steps) && SerialExecution(w, steps)
    requires Enabled(Final(w, steps), last) && Serial(Final(w, steps), last)
    ensures Execution(w, steps + [last]) && SerialExecution(w, steps + [last])
    decreases |steps|
  {
    OneMore(w, steps, last);
    var all := steps + [last];
    if steps == [] {
      assert all[1..] == [];
    } else {
      hide Enabled, Apply, Serial;
      assert all[1..] == steps[1..] + [last];
      OneMoreSerial(Apply(w, steps[0]), steps[1..], last);
    }
  }

  /**
   * One run, no overlap: a cancel that arrives while the factory is pending makes no call, and the runner delivered
   * afterwards is prompted although the run is already cancelled.
   */
  lemma CancelBeforeFactoryIsLost(a: RunId, x: RunnerId)
    ensures var steps := [DispatchStartRun(a, NO_PROMPT, 0), DispatchCancelRun(1), FactoryResolved(a, x)];
      && Execution(INIT, steps) && SerialExecution(INIT, steps)
      && a in Final(INIT, steps).state.runs && Final(INIT, steps).state.runs[a].status == Cancelled
      && a in Final(INIT, steps).drivers && Final(INIT, steps).drivers[a] == Prompting(x)
      && Final(INIT, steps).cancels == []
  {
    var start, cancel := DispatchStartRun(a, NO_PROMPT, 0), DispatchCancelRun(1);
    OneMore(INIT, [], start);
    OneMoreSerial(INIT, [], start);
    OneMore(INIT, [start], cancel);
    OneMoreSerial(INIT, [start], cancel);
    OneMore(INIT, [start, cancel], FactoryResolved(a, x));
    OneMoreSerial(INIT, [start, cancel], FactoryResolved(a, x));
    assert [start, cancel, FactoryResolved(a, x)] == [start, cancel] + [FactoryResolved(a, x)];
  }

  // ---- when a cancel reaches the runner of the active run ----

  /** The run is prompting, and the cancel calls its runner, with its session, and nothing else. */
  ghost predicate Delivers(w: World, r: RunId, endedAt: int) {
    && r in w.drivers && w.drivers[r].Prompting?
    && CancelRunStep(w, endedAt).cancels == w.cancels + [(w.drivers[r].runner, r)]
  }

  /** The prompt that settles is the one on the registered runner, so runner and session are cleared. */
  predicate Releases(w: World, step: Step)
    requires Enabled(w, step)
  {
    match step
    case PromptResolved(q, _) => w.activeRunner == Some(w.drivers[q].runner)
    case PromptRejected(q, _, _) => w.activeRunner == Some(w.drivers[q].runner)
    case _ => false
  }

  ghost predicate NeverReleased(w: World, steps: seq<Step>)
    requires Execution(w, steps)
    decreases |steps|
  {
    steps == [] || (!Releases(w, steps[0]) && NeverReleased(Apply(w, steps[0]), steps[1..]))
  }

  /** The runner delivered last. */
  function LatestRunner(steps: seq<Step>): Option<RunnerId> {
    if steps == [] then None
    else
      var later := LatestRunner(steps[1..]);
      if later.Some? then later else if steps[0].FactoryResolved? then Some(steps[0].runner) else None
  }

  /** How one step other than a new run moves the runner and the session. */
  lemma StepRegisters(w: World, step: Step)
    requires Enabled(w, step) && !step.DispatchStartRun?
    ensures var w' := Apply(w, step);
      && w'.activeSession == (if Releases(w, step) then None else w.activeSession)
      && w'.activeRunner == (if Releases(w, step) then None
                             else if step.FactoryResolved? then Some(step.runner) else w.activeRunner)
      && (forall q :: q in w.drivers && w.drivers[q] == AwaitingFactory && !step.FactoryResolved? ==>
           q in w'.drivers && !w'.drivers[q].Prompting?)
  {
    hide TickStep, NotifyStep, CommitReceive, CommitEnd, CommitStart, CommitStopReplay, CommitStartReplay, CommitClear;
    StepDrivers(w, step);
    match step
    case FactoryRejected(r, message, endedAt) => FailFrame(w, r, message, endedAt);
    case PromptResolved(r, endedAt) => CommitFrame(w, External, FinalizeRun(r, Completed, endedAt), r);
    case PromptRejected(r, message, endedAt) => FailFrame(w, r, message, endedAt);
    case _ =>
  }

  /** Without new runs, a session once cleared stays cleared, and otherwise the runner is the one delivered last. */
  lemma {:induction false} RegisteredAfter(w: World, steps: seq<Step>)
    requires Execution(w, steps) && forall i :: 0 <= i < |steps| ==> !steps[i].DispatchStartRun?
    ensures w.activeSession == None || !NeverReleased(w, steps) ==> Final(w, steps).activeSession == None
    ensures NeverReleased(w, steps) ==>
      && Final(w, steps).activeSession == w.activeSession
      && Final(w, steps).activeRunner == (if LatestRunner(steps).Some? then LatestRunner(steps) else w.activeRunner)
    decreases |steps|
  {
    if steps == [] {
    } else {
      hide Enabled, Apply, Releases;
      StepRegisters(w, steps[0]);
      assert forall i :: 0 <= i < |steps[1..]| ==> steps[1..][i] == steps[i + 1];
      RegisteredAfter(Apply(w, steps[0]), steps[1..]);
    }
  }

  /** A driver still waiting for its factory is not prompting unless some factory resolves. */
  lemma {:induction false} NoRunnerNoPrompt(w: World, steps: seq<Step>, r: RunId)
    requires Execution(w, steps) && forall i :: 0 <= i < |steps| ==> !steps[i].DispatchStartRun?
    requires r in w.drivers && !w.drivers[r].Prompting? && LatestRunner(steps) == None
    ensures r in Final(w, steps).drivers && !Final(w, steps).drivers[r].Prompting?
    decreases |steps|
  {
    if steps == [] {
    } else {
      assert !steps[0].FactoryResolved? && LatestRunner(steps[1..]) == None;
      StillNotPrompting(w, steps[0], r);
      assert forall i :: 0 <= i < |steps[1..]| ==> steps[1..][i] == steps[i + 1];
      hide Enabled, Apply;
      NoRunnerNoPrompt(Apply(w, steps[0]), steps[1..], r);
    }
  }

  lemma StillNotPrompting(w: World, step: Step, r: RunId)
    requires Enabled(w, step) && !step.DispatchStartRun? && !step.FactoryResolved?
    requires r in w.drivers && !w.drivers[r].Prompting?
    ensures r in Apply(w, step).drivers && !Apply(w, step).drivers[r].Prompting?
  {
    hide TickStep, NotifyStep, CommitReceive, CommitEnd, CommitStart, CommitStopReplay, CommitStartReplay, CommitClear;
    StepDrivers(w, step);
    match step
    case FactoryRejected(r, message, endedAt) => FailFrame(w, r, message, endedAt);
    case PromptResolved(r, endedAt) => CommitFrame(w, External, FinalizeRun(r, Completed, endedAt), r);
    case PromptRejected(r, message, endedAt) => FailFrame(w, r, message, endedAt);
    case _ =>
  }

  /** The active run is the one started last, until the sessions are cleared. */
  lemma StepActive(w: World, step: Step)
    requires Enabled(w, step)
    ensures var w' := Apply(w, step);
      && w.used <= w'.used
      && (step.DispatchStartRun? ==> step.runId !in w.used)
      && w'.state.activeRunId
           == (if step.DispatchStartRun? then Some(step.runId)
               else if step.DispatchClearSessions? then None
               else w.state.activeRunId)
  {
    hide NotifyStep, TickStep, StartReplayStep, PromptResolvedStep, PromptRejectedStep, FactoryRejectedStep;
    match step
    case Notify(r, events) => NotifyActive(w, r, events);
    case Tick => TickActive(w);
    case DispatchStartReplay(r) => StartReplayActive(w, r);
    case FactoryRejected(r, message, endedAt) => SettleActive(w, r, RunnerId(0), message, endedAt);
    case PromptResolved(r, endedAt) => SettleActive(w, r, w.drivers[r].runner, [], endedAt);
    case PromptRejected(r, message, endedAt) => SettleActive(w, r, w.drivers[r].runner, message, endedAt);
    case _ =>
  }

  lemma TickActive(w: World)
    ensures TickStep(w).state.activeRunId == w.state.activeRunId && TickStep(w).used == w.used
  {
  }

  lemma StartReplayActive(w: World, r: RunId)
    ensures StartReplayStep(w, r).state.activeRunId == w.state.activeRunId && StartReplayStep(w, r).used == w.used
  {
  }

  lemma CommitActive(w: World, e: Event, source: Source, a: Action)
    requires a.FinalizeRun?
    ensures CommitReceive(w, e, source).state.activeRunId == w.state.activeRunId
      && CommitReceive(w, e, source).used == w.used
    ensures CommitEnd(w, a).state.activeRunId == w.state.activeRunId && CommitEnd(w, a).used == w.used
  {
  }

  lemma SettleActive(w: World, r: RunId, runner: RunnerId, message: Text, endedAt: int)
    ensures FactoryRejectedStep(w, r, message, endedAt).state.activeRunId == w.state.activeRunId
    ensures PromptResolvedStep(w, r, runner, endedAt).state.activeRunId == w.state.activeRunId
    ensures PromptRejectedStep(w, r, runner, message, endedAt).state.activeRunId == w.state.activeRunId
    ensures FactoryRejectedStep(w, r, message, endedAt).used == w.used
    ensures PromptResolvedStep(w, r, runner, endedAt).used == w.used
    ensures PromptRejectedStep(w, r, runner, message, endedAt).used == w.used
  {
    hide CommitReceive, CommitEnd;
    var e, source := RunError(message), ErrorOf(r);
    CommitActive(w, e, source, FinalizeRun(r, Completed, endedAt));
    CommitActive(CommitReceive(w, e, source), e, source, FinalizeRun(r, Errored, endedAt));
  }

  lemma {:induction false} NotifyActive(w: World, r: RunId, events: seq<Event>)
    ensures NotifyStep(w, r, events).state.activeRunId == w.state.activeRunId && NotifyStep(w, r, events).used == w.used
    decreases |events|
  {
    if events == [] || w.state.activeRunId != Some(r) {
    } else {
      NotifyActive(CommitReceive(w, events[0], Bridged(r)), r, events[1..]);
    }
  }

  /** A run that is not active any more never becomes active again. */
  lemma {:induction false} NeverActiveAgain(w: World, steps: seq<Step>, r: RunId)
    requires Execution(w, steps) && r in w.used && w.state.activeRunId != Some(r)
    ensures Final(w, steps).state.activeRunId != Some(r)
    decreases |steps|
  {
    if steps == [] {
    } else {
      hide Enabled, Apply;
      StepActive(w, steps[0]);
      NeverActiveAgain(Apply(w, steps[0]), steps[1..], r);
    }
  }

  lemma {:induction false} StillActiveNoNewRun(w: World, steps: seq<Step>, r: RunId)
    requires Execution(w, steps) && r in w.used && Final(w, steps).state.activeRunId == Some(r)
    ensures forall i :: 0 <= i < |steps| ==> !steps[i].DispatchStartRun?
    decreases |steps|
  {
    if steps == [] {
    } else {
      hide Enabled, Apply;
      StepActive(w, steps[0]);
      if steps[0].DispatchStartRun? {
        NeverActiveAgain(Apply(w, steps[0]), steps[1..], r);
      } else {
        StillActiveNoNewRun(Apply(w, steps[0]), steps[1..], r);
        assert forall i :: 0 < i < |steps| ==> steps[i] == steps[1..][i - 1];
      }
    }
  }

  /**
   * A cancel of the active run is delivered to its runner exactly when the run is prompting and, since it was
   * started, no prompt has settled on the runner registered at that time and the runner delivered last is its own.
   */
  lemma CancelDeliveredIff(before: seq<Step>, r: RunId, prompt: Text, startedAt: int, steps: seq<Step>, endedAt: int)
    requires Execution(INIT, before) && r !in Final(INIT, before).used
    requires Execution(StartRunStep(Final(INIT, before), r, prompt, startedAt), steps)
    requires Final(StartRunStep(Final(INIT, before), r, prompt, startedAt), steps).state.activeRunId == Some(r)
    ensures var w1 := StartRunStep(Final(INIT, before), r, prompt, startedAt); var w := Final(w1, steps);
      Delivers(w, r, endedAt) <==>
        && r in w.drivers && w.drivers[r].Prompting?
        && NeverReleased(w1, steps) && LatestRunner(steps) == Some(w.drivers[r].runner)
  {
    var w0 := Final(INIT, before);
    var w1 := StartRunStep(w0, r, prompt, startedAt);
    StartDrivers(w0, r, prompt, startedAt);
    StepActive(w0, DispatchStartRun(r, prompt, startedAt));
    assert r in w1.used;
    hide StartRunStep, Execution, Final;
    StillActiveNoNewRun(w1, steps, r);
    RegisteredAfter(w1, steps);
    if LatestRunner(steps) == None { NoRunnerNoPrompt(w1, steps, r); }
    DeliversIffRegistered(Final(w1, steps), r, endedAt);
  }

  lemma DeliversIffRegistered(w: World, r: RunId, endedAt: int)
    ensures Delivers(w, r, endedAt) <==>
      && r in w.drivers && w.drivers[r].Prompting?
      && w.activeRunner == Some(w.drivers[r].runner) && w.activeSession == Some(r)
  {
    hide CommitEnd;
    CommitKeepsCancels(w, endedAt);
    if r in w.drivers && w.drivers[r].Prompting? {
      var calls, expected := CancelRunStep(w, endedAt).cancels, w.cancels + [(w.drivers[r].runner, r)];
      assert |expected| == |w.cancels| + 1;
      if w.activeRunner.Some? && w.activeSession.Some? {
        assert calls == w.cancels + [(w.activeRunner.value, w.activeSession.value)];
        assert calls[|w.cancels|] == (w.activeRunner.value, w.activeSession.value);
        assert expected[|w.cancels|] == (w.drivers[r].runner, r);
      }
    }
  }

  lemma CommitKeepsCancels(w: World, endedAt: int)
    ensures CommitEnd(w, CancelRun(endedAt)).cancels == w.cancels
  {
  }

  /** Overlap breaks the pairing: b's session is cancelled on a's runner. */
  lemma OverlappingCancelHitsOtherRunner(a: RunId, b: RunId, runner: RunnerId)
    requires a != b
    ensures var steps := TwoRuns(a, b) + [FactoryResolved(a, runner)];
      && Execution(INIT, steps)
      && CancelRunStep(Final(INIT, steps), 2).cancels == [(runner, b)]
      && b in Final(INIT, steps).drivers && Final(INIT, steps).drivers[b] == AwaitingFactory
  {
    hide Execution, Final, TwoRuns, Reduce;
    TwoRunsStarted(a, b);
    OneMore(INIT, TwoRuns(a, b), FactoryResolved(a, runner));
  }

  /**
   * An earlier run's end clears the session of the later one, whose runner then is delivered: the cancel makes no call.
   */
  lemma CancelLostAfterEarlierRunEnds(a: RunId, b: RunId, x: RunnerId, y: RunnerId)
    requires a != b
    ensures var steps := TwoRuns(a, b) + [FactoryResolved(a, x)] + [PromptResolved(a, 2)] + [FactoryResolved(b, y)];
      && Execution(INIT, steps)
      && Final(INIT, steps).state.activeRunId == Some(b) && IsRunning(Final(INIT, steps), b)
      && b in Final(INIT, steps).drivers && Final(INIT, steps).drivers[b] == Prompting(y)
      && CancelRunStep(Final(INIT, steps), 3).cancels == Final(INIT, steps).cancels
  {
    hide Execution, Final, TwoRuns;
    var s2, s3 := TwoRuns(a, b) + [FactoryResolved(a, x)], TwoRuns(a, b) + [FactoryResolved(a, x)]
      + [PromptResolved(a, 2)];
    TwoRunsStarted(a, b);
    OneMore(INIT, TwoRuns(a, b), FactoryResolved(a, x));
    OneMore(INIT, s2, PromptResolved(a, 2));
    OneMore(INIT, s3, FactoryResolved(b, y));
  }

  /** One runner for both runs: the earlier run's end takes it away from the later one, and the cancel makes no call. */
  lemma CancelLostWithSharedRunner(a: RunId, b: RunId, x: RunnerId)
    requires a != b
    ensures var steps := TwoRuns(a, b) + [FactoryResolved(b, x)] + [FactoryResolved(a, x)] + [PromptResolved(a, 2)];
      && Execution(INIT, steps)
      && Final(INIT, steps).state.activeRunId == Some(b) && IsRunning(Final(INIT, steps), b)
      && b in Final(INIT, steps).drivers && Final(INIT, steps).drivers[b] == Prompting(x)
      && CancelRunStep(Final(INIT, steps), 3).cancels == Final(INIT, steps).cancels
  {
    hide Execution, Final, TwoRuns;
    var s2, s3 := TwoRuns(a, b) + [FactoryResolved(b, x)], TwoRuns(a, b) + [FactoryResolved(b, x)]
      + [FactoryResolved(a, x)];
    TwoRunsStarted(a, b);
    OneMore(INIT, TwoRuns(a, b), FactoryResolved(b, x));
    OneMore(INIT, s2, FactoryResolved(a, x));
    OneMore(INIT, s3, PromptResolved(a, 2));
  }
}
