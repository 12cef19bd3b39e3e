/** Results about whole executions of the playground store. */
module PlaygroundTheorems {
  import opened Options
  import opened JsText
  import opened PlaygroundReducer
  import opened PlaygroundProtocol
  import opened PlaygroundInvariants

  /** In every reachable state a timer is pending iff a replay is on, and then the tick finds its event. */
  lemma DefensiveStopsUnreachable(steps: seq<Step>)
    requires Execution(INIT, steps)
    ensures Final(INIT, steps).timer <==> Final(INIT, steps).state.replayMode.Some?
    ensures Final(INIT, steps).timer ==> TickFindsEvent(Final(INIT, steps))
  {
    InitOk();
    EveryReachableStateOk(INIT, steps);
    var w := Final(INIT, steps);
    if w.timer { TickEmits(w); }
  }

  /** In every reachable state each record holds exactly the last 200 of the events ever appended to it. */
  lemma EventsAreLastOfLog(steps: seq<Step>, r: RunId)
    requires Execution(INIT, steps) && r in Final(INIT, steps).state.runs
    ensures var w := Final(INIT, steps);
      w.state.runs[r].events == LastEvents(EventsOf(LogOf(w, r)))
    ensures var entries := LogOf(Final(INIT, steps), r);
      forall i, q :: 0 <= i < |entries| && entries[i].source == Bridged(q) ==> q == r
  {
    InitOk();
    EveryReachableStateOk(INIT, steps);
    var w := Final(INIT, steps);
    assert RecordOk(r, w.state.runs[r], w.log[r]);
  }

  /**
   * The replay buffer has `nextIndex` elements, a subsequence of the source run's full log at strictly
   * increasing positions, and exactly the first elements of the log while it fits the cap.
   */
  lemma ReplayBufferIsSubsequence(steps: seq<Step>)
    requires Execution(INIT, steps) && Final(INIT, steps).state.replayMode.Some?
    ensures var w := Final(INIT, steps); var rp := w.state.replayMode.value; var entries := LogOf(w, rp.runId);
      && |w.state.replayBuffer| == rp.nextIndex == |w.positions|
      && (forall i, j :: 0 <= i < j < |w.positions| ==> w.positions[i] < w.positions[j])
      && (forall i :: 0 <= i < |w.positions| ==>
        w.positions[i] < |entries| && w.state.replayBuffer[i] == entries[w.positions[i]].event)
      && (|entries| <= EVENT_CAP ==>
           rp.nextIndex <= |entries| && w.state.replayBuffer == EventsOf(entries)[..rp.nextIndex])
  {
    InitOk();
    EveryReachableStateOk(INIT, steps);
    var w := Final(INIT, steps);
    var rp := w.state.replayMode.value;
    var entries := LogOf(w, rp.runId);
    assert RecordOk(rp.runId, w.state.runs[rp.runId], w.log[rp.runId]);
  }

  /** A running run has a driver in flight: once all drivers have settled, no run is running. */
  lemma NoRunIsStuck(steps: seq<Step>)
    requires Execution(INIT, steps)
    requires forall r :: r in Final(INIT, steps).drivers ==> Final(INIT, steps).drivers[r] == Settled
    ensures forall r :: r in Final(INIT, steps).state.runs ==>
      Final(INIT, steps).state.runs[r].status != Running && Final(INIT, steps).state.runs[r].endedAt.Some?
  {
    InitOk();
    EveryReachableStateOk(INIT, steps);
    var w := Final(INIT, steps);
    forall r | r in w.state.runs ensures w.state.runs[r].status != Running && w.state.runs[r].endedAt.Some? {
      assert RecordOk(r, w.state.runs[r], w.log[r]);
    }
  }

  // ---- replays end ----

  function Ticks(steps: seq<Step>): nat {
    if steps == [] then 0 else (if steps[0].Tick? then 1 else 0) + Ticks(steps[1..])
  }

  /** How many more ticks a replay can last. */
  function TicksLeft(w: World): int {
    if w.state.replayMode == None then 0 else EVENT_CAP - w.state.replayMode.value.nextIndex
  }

  lemma TicksLeftPositive(w: World)
    requires Inv(w)
    ensures TicksLeft(w) >= 0 && (TicksLeft(w) == 0 <==> w.state.replayMode == None)
  {
    if w.state.replayMode.Some? {
      var r := w.state.replayMode.value.runId;
      assert RecordOk(r, w.state.runs[r], w.log[r]);
    }
  }

  lemma {:induction false} NotifyKeepsReplay(w: World, r: RunId, events: seq<Event>)
    ensures NotifyStep(w, r, events).state.replayMode == w.state.replayMode
    ensures NotifyStep(w, r, events).state.replayBuffer == w.state.replayBuffer
    decreases |events|
  {
    if events == [] || w.state.activeRunId != Some(r) {
    } else {
      NotifyKeepsReplay(CommitReceive(w, events[0], Bridged(r)), r, events[1..]);
    }
  }

  /** A tick leaves the records alone; the replay has moved on by one event or is over. */
  lemma TickShape(w: World)
    requires Inv(w) && w.timer
    ensures var w' := TickStep(w);
      && w'.state.runs == w.state.runs && w'.log == w.log && w'.used == w.used
      && TicksLeft(w') <= TicksLeft(w) - 1
  {
    hide RunsOk, DriversOk, ReplayOk, Reemits, LogOf, Dropped;
    TicksLeftPositive(w);
    KeepsWithoutTimer(w);
    TickEmits(w.(timer := false));
  }

  /** Ending, receiving and releasing do not touch the replay. */
  lemma LiveCommitsKeepReplay(w: World, e: Event, source: Source, a: Action, r: RunId, runner: RunnerId)
    requires a.FinalizeRun? || a.CancelRun?
    ensures CommitReceive(w, e, source).state.replayMode == w.state.replayMode
    ensures CommitEnd(w, a).state.replayMode == w.state.replayMode
    ensures Release(w, r, runner).state.replayMode == w.state.replayMode
  {
  }

  lemma FailureKeepsReplay(w: World, r: RunId, message: Text, endedAt: int, runner: RunnerId)
    ensures FactoryRejectedStep(w, r, message, endedAt).state.replayMode == w.state.replayMode
    ensures PromptRejectedStep(w, r, runner, message, endedAt).state.replayMode == w.state.replayMode
    ensures PromptResolvedStep(w, r, runner, endedAt).state.replayMode == w.state.replayMode
  {
    hide CommitReceive, CommitEnd, Release;
    var e, source := RunError(message), ErrorOf(r);
    var w1 := CommitReceive(w, e, source);
    LiveCommitsKeepReplay(w, e, source, FinalizeRun(r, Completed, endedAt), r, runner);
    LiveCommitsKeepReplay(w1, e, source, FinalizeRun(r, Errored, endedAt), r, runner);
    LiveCommitsKeepReplay(CommitEnd(w, FinalizeRun(r, Completed, endedAt)), e, source, CancelRun(0), r, runner);
    LiveCommitsKeepReplay(CommitEnd(w1, FinalizeRun(r, Errored, endedAt)), e, source, CancelRun(0), r, runner);
  }

  lemma DispatchReplayMode(w: World, r: RunId, prompt: Text, time: int)
    ensures StartRunStep(w, r, prompt, time).state.replayMode == None
    ensures CancelRunStep(w, time).state.replayMode == w.state.replayMode
  {
  }

  /** A tick uses up one of the remaining ticks; no other step but a new replay adds any. */
  lemma StepSpendsTicks(w: World, step: Step)
    requires Inv(w) && Enabled(w, step) && !step.DispatchStartReplay?
    ensures TicksLeft(Apply(w, step)) <= (if step.Tick? then TicksLeft(w) - 1 else TicksLeft(w))
  {
    hide Inv, TickStep, NotifyStep, StartRunStep, CancelRunStep, FactoryRejectedStep, PromptResolvedStep,
      PromptRejectedStep;
    TicksLeftPositive(w);
    match step
    case DispatchStartRun(r, prompt, startedAt) => DispatchReplayMode(w, r, prompt, startedAt);
    case DispatchCancelRun(endedAt) => DispatchReplayMode(w, RunId([]), [], endedAt);
    case Tick => TickShape(w);
    case Notify(r, events) => NotifyKeepsReplay(w, r, events);
    case FactoryRejected(r, message, endedAt) => FailureKeepsReplay(w, r, message, endedAt, RunnerId(0));
    case PromptResolved(r, endedAt) => FailureKeepsReplay(w, r, [], endedAt, w.drivers[r].runner);
    case PromptRejected(r, message, endedAt) => FailureKeepsReplay(w, r, message, endedAt, w.drivers[r].runner);
    case _ =>
  }

  lemma {:induction false} ReplaySpendsTicks(w: World, steps: seq<Step>)
    requires Inv(w) && Execution(w, steps) && forall i :: 0 <= i < |steps| ==> !steps[i].DispatchStartReplay?
    ensures TicksLeft(Final(w, steps)) <= TicksLeft(w) - Ticks(steps)
    decreases |steps|
  {
    if steps == [] {
    } else {
      hide Inv, Enabled, Apply, TicksLeft;
      StepSpendsTicks(w, steps[0]);
      StepKeepsInv(w, steps[0]);
      assert forall i :: 0 <= i < |steps[1..]| ==> steps[1..][i] == steps[i + 1];
      ReplaySpendsTicks(Apply(w, steps[0]), steps[1..]);
    }
  }

  /** Whatever live events, runs and cancels come in between, a replay is over after at most 200 ticks. */
  lemma ReplayEndsWithin200Ticks(before: seq<Step>, steps: seq<Step>)
    requires Execution(INIT, before) && Execution(Final(INIT, before), steps)
    requires forall i :: 0 <= i < |steps| ==> !steps[i].DispatchStartReplay?
    requires Ticks(steps) >= EVENT_CAP
    ensures Final(Final(INIT, before), steps).state.replayMode == None
  {
    hide Inv, Apply, Enabled;
    InitOk();
    EveryReachableStateOk(INIT, before);
    var w := Final(INIT, before);
    ReplaySpendsTicks(w, steps);
    EveryReachableStateOk(w, steps);
    TicksLeftPositive(Final(w, steps));
  }

  /** Replaying never changes a run record. */
  lemma ReplayLeavesRunsAlone(w: World, step: Step)
    requires Inv(w) && Enabled(w, step) && (step.Tick? || step.DispatchStartReplay? || step.DispatchStopReplay?)
    ensures Apply(w, step).state.runs == w.state.runs && Apply(w, step).log == w.log
    ensures Apply(w, step).used == w.used
  {
    hide RunsOk, DriversOk, ReplayOk;
    if step.Tick? {
      hide TickStep;
      TickShape(w);
    }
  }

  // ---- terminal states ----

  /** What may happen to one record: identity is fixed, and an ended run stays ended as it was. */
  ghost predicate Ages(a: RunRecord, b: RunRecord) {
    && b.id == a.id && b.prompt == a.prompt && b.startedAt == a.startedAt
    && (a.status != Running ==> b.status == a.status && b.endedAt == a.endedAt)
  }

  ghost predicate RecordsAge(w: World, w': World) {
    forall r :: r in w'.state.runs && r in w.used ==> r in w.state.runs && Ages(w.state.runs[r], w'.state.runs[r])
  }

  lemma ReceiveAges(w: World, e: Event, source: Source)
    requires RunsOk(w)
    ensures RecordsAge(w, CommitReceive(w, e, source))
  {
    ReceiveFrame(w, e, source);
    hide CommitReceive;
    var w' := CommitReceive(w, e, source);
    forall r | r in w'.state.runs ensures Ages(w.state.runs[r], w'.state.runs[r]) {
      assert w.state.activeRunId == Some(r) || w'.state.runs[r] == w.state.runs[r];
    }
  }

  lemma EndAges(w: World, a: Action, r: RunId)
    requires RunsOk(w)
    requires (a.CancelRun? && w.state.activeRunId == Some(r)) || (a.FinalizeRun? && a.runId == r)
    ensures RecordsAge(w, CommitEnd(w, a))
  {
    EndFrame(w, a, r);
  }

  lemma AgesTransitive(u: World, v: World, w: World)
    requires RecordsAge(u, v) && RecordsAge(v, w) && u.used <= v.used
    ensures RecordsAge(u, w)
  {
    forall r | r in w.state.runs && r in u.used ensures r in u.state.runs && Ages(u.state.runs[r], w.state.runs[r]) {
      assert Ages(v.state.runs[r], w.state.runs[r]) && Ages(u.state.runs[r], v.state.runs[r]);
    }
  }

  lemma {:induction false} NotifyAges(w: World, r: RunId, events: seq<Event>)
    requires RunsOk(w)
    ensures RecordsAge(w, NotifyStep(w, r, events)) && NotifyStep(w, r, events).used == w.used
    decreases |events|
  {
    if events == [] || w.state.activeRunId != Some(r) {
    } else {
      var w1 := CommitReceive(w, events[0], Bridged(r));
      ReceiveAges(w, events[0], Bridged(r));
      ReceiveRuns(w, events[0], Bridged(r));
      NotifyAges(w1, r, events[1..]);
      AgesTransitive(w, w1, NotifyStep(w1, r, events[1..]));
    }
  }

  lemma FailAges(w: World, r: RunId, message: Text, endedAt: int)
    requires RunsOk(w)
    ensures RecordsAge(w, CommitEnd(CommitReceive(w, RunError(message), ErrorOf(r)), FinalizeRun(r, Errored, endedAt)))
  {
    var w1 := CommitReceive(w, RunError(message), ErrorOf(r));
    ReceiveAges(w, RunError(message), ErrorOf(r));
    ReceiveRuns(w, RunError(message), ErrorOf(r));
    EndAges(w1, FinalizeRun(r, Errored, endedAt), r);
    AgesTransitive(w, w1, CommitEnd(w1, FinalizeRun(r, Errored, endedAt)));
  }

  lemma SameRunsAge(w: World, w': World)
    requires RunsOk(w) && forall r :: r in w'.state.runs ==>
      r !in w.used || (r in w.state.runs && w'.state.runs[r] == w.state.runs[r])
    ensures RecordsAge(w, w')
  {
  }

  lemma StepAges(w: World, step: Step)
    requires Inv(w) && Enabled(w, step)
    ensures RecordsAge(w, Apply(w, step)) && w.used <= Apply(w, step).used
  {
    hide RecordsAge, RunsOk, DriversOk, ReplayOk, TickStep;
    match step
    case DispatchStartRun(r, prompt, startedAt) => SameRunsAge(w, Apply(w, step));
    case DispatchCancelRun(endedAt) =>
      if w.state.activeRunId.Some? { EndAges(w, CancelRun(endedAt), w.state.activeRunId.value); }
      hide CommitEnd;
      CancelRunRecords(w, endedAt);
    case DispatchReceive(e) => ReceiveAges(w, e, External);
    case DispatchStartReplay(_) => ReplayLeavesRunsAlone(w, step); SameRunsAge(w, Apply(w, step));
    case DispatchStopReplay => ReplayLeavesRunsAlone(w, step); SameRunsAge(w, Apply(w, step));
    case DispatchClearSessions => SameRunsAge(w, Apply(w, step));
    case Tick => ReplayLeavesRunsAlone(w, step); SameRunsAge(w, Apply(w, step));
    case FactoryResolved(_, _) => SameRunsAge(w, Apply(w, step));
    case Notify(r, events) => NotifyAges(w, r, events);
    case FactoryRejected(r, message, endedAt) =>
      FailAges(w, r, message, endedAt);
      OnlyRecordsMatter(w, CommitEnd(CommitReceive(w, RunError(message), ErrorOf(r)),
        FinalizeRun(r, Errored, endedAt)), Apply(w, step));
    case PromptResolved(r, endedAt) =>
      PromptResolvedAges(w, r, w.drivers[r].runner, endedAt);
    case PromptRejected(r, message, endedAt) =>
      PromptRejectedAges(w, r, w.drivers[r].runner, message, endedAt);
  }

  lemma OnlyRecordsMatter(w: World, v: World, v': World)
    requires RecordsAge(w, v) && v'.state.runs == v.state.runs
    ensures RecordsAge(w, v')
  {
  }

  lemma CancelRunRecords(w: World, endedAt: int)
    requires RunsOk(w) && (w.state.activeRunId.Some? ==> RecordsAge(w, CommitEnd(w, CancelRun(endedAt))))
    ensures RecordsAge(w, CancelRunStep(w, endedAt)) && CancelRunStep(w, endedAt).used == w.used
  {
    if w.state.activeRunId == None { SameRunsAge(w, CancelRunStep(w, endedAt)); }
  }

  lemma PromptResolvedAges(w: World, r: RunId, runner: RunnerId, endedAt: int)
    requires RunsOk(w)
    ensures RecordsAge(w, PromptResolvedStep(w, r, runner, endedAt))
      && PromptResolvedStep(w, r, runner, endedAt).used == w.used
  {
    EndAges(w, FinalizeRun(r, Completed, endedAt), r);
    SameRunsAge(w, w);
  }

  lemma PromptRejectedAges(w: World, r: RunId, runner: RunnerId, message: Text, endedAt: int)
    requires RunsOk(w)
    ensures RecordsAge(w, PromptRejectedStep(w, r, runner, message, endedAt))
      && PromptRejectedStep(w, r, runner, message, endedAt).used == w.used
  {
    FailAges(w, r, message, endedAt);
    SameRunsAge(w, w);
  }

  /**
   * Over any execution: a run that ended keeps its terminal status and end time for as long as its record
   * exists, and a record that was cleared never comes back.
   */
  lemma {:induction false} EndedRunsStayEnded(w: World, steps: seq<Step>)
    requires Inv(w) && Execution(w, steps)
    ensures RecordsAge(w, Final(w, steps))
    decreases |steps|
  {
    if steps != [] {
      hide Inv, Enabled, Apply, Ages, RecordsAge;
      StepAges(w, steps[0]);
      StepKeepsInv(w, steps[0]);
      EndedRunsStayEnded(Apply(w, steps[0]), steps[1..]);
      AgesTransitive(w, Apply(w, steps[0]), Final(w, steps));
    } else {
      SelfAges(w);
    }
  }

  lemma SelfAges(w: World)
    requires Inv(w)
    ensures RecordsAge(w, w)
    ensures forall r :: r in w.state.runs ==> r in w.used
  {
  }
}
