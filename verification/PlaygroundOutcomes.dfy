/** How a run ends and which events it holds, in terms of the steps taken. */
module PlaygroundOutcomes {
  import opened Options
  import opened JsText
  import Splitting
  import opened PlaygroundReducer
  import opened PlaygroundProtocol
  import opened PlaygroundInvariants
  import opened PlaygroundTheorems
  import opened PlaygroundAttribution

  // ---- how a run ends ----

  /** How the step ends `r`, if `r` is running. */
  function EndsRun(w: World, step: Step, r: RunId): Option<(Status, int)> {
    match step
    case DispatchCancelRun(endedAt) => if w.state.activeRunId == Some(r) then Some((Cancelled, endedAt)) else None
    case FactoryRejected(q, _, endedAt) => if q == r then Some((Errored, endedAt)) else None
    case PromptResolved(q, endedAt) => if q == r then Some((Completed, endedAt)) else None
    case PromptRejected(q, _, endedAt) => if q == r then Some((Errored, endedAt)) else None
    case _ => None
  }

  /** What is fixed at the start: identity, prompt and start time, running, no events, and the run is the active one. */
  lemma StartMakesRun(w: World, r: RunId, prompt: Text, startedAt: int)
    requires Inv(w) && Enabled(w, DispatchStartRun(r, prompt, startedAt))
    ensures var w' := Apply(w, DispatchStartRun(r, prompt, startedAt));
      && w'.state.runs == w.state.runs[r := RunRecord(r, prompt, startedAt, None, Running, [])]
      && w'.state.activeRunId == Some(r) && LogOf(w', r) == []
  {
  }

  /** The record afterwards: ended as the step says if it was running, and otherwise as it was. */
  ghost predicate EndedBy(before: RunRecord, after: RunRecord, ending: Option<(Status, int)>) {
    if before.status == Running && ending.Some?
    then after.status == ending.value.0 && after.endedAt == Some(ending.value.1)
    else after.status == before.status && after.endedAt == before.endedAt
  }

  predicate Quiet(step: Step) {
    match step
    case DispatchStartRun(_, _, _) => true
    case DispatchStartReplay(_) => true
    case DispatchStopReplay => true
    case DispatchClearSessions => true
    case Tick => true
    case FactoryResolved(_, _) => true
    case _ => false
  }

  /** New runs, replays, clears and delivered runners leave the records that stay as they are. */
  lemma QuietSteps(w: World, step: Step, r: RunId)
    requires Inv(w) && Enabled(w, step) && Quiet(step) && r in w.state.runs && r in Apply(w, step).state.runs
    ensures Apply(w, step).state.runs[r] == w.state.runs[r] && LogOf(Apply(w, step), r) == LogOf(w, r)
  {
    hide TickStep, RecordOk, ReplayOk;
    match step
    case DispatchStartReplay(_) => ReplayLeavesRunsAlone(w, step);
    case Tick => ReplayLeavesRunsAlone(w, step);
    case _ =>
  }

  lemma StepEndsRun(w: World, step: Step, r: RunId)
    requires Inv(w) && Enabled(w, step) && r in w.state.runs && r in Apply(w, step).state.runs
    ensures EndedBy(w.state.runs[r], Apply(w, step).state.runs[r], EndsRun(w, step, r))
  {
    if Quiet(step) {
      hide Inv, Enabled, Apply;
      QuietSteps(w, step, r);
    } else {
      LoudStepEnds(w, step, r);
    }
  }

  lemma LoudStepEnds(w: World, step: Step, r: RunId)
    requires RunsOk(w) && Enabled(w, step) && !Quiet(step) && r in w.state.runs
    ensures r in Apply(w, step).state.runs
    ensures EndedBy(w.state.runs[r], Apply(w, step).state.runs[r], EndsRun(w, step, r))
  {
    hide RunsOk, EndedBy, CommitReceive, NotifyStep, CancelRunStep, FactoryRejectedStep, PromptResolvedStep,
      PromptRejectedStep;
    match step
    case DispatchCancelRun(endedAt) => CancelEnds(w, endedAt, r);
    case DispatchReceive(e) => ReceiveEndsNothing(w, e, External, r);
    case Notify(q, events) => NotifyEndsNothing(w, q, events, r);
    case FactoryRejected(q, message, endedAt) => FactoryEnds(w, q, message, endedAt, r);
    case PromptResolved(q, endedAt) => PromptEnds(w, q, w.drivers[q].runner, endedAt, r);
    case PromptRejected(q, message, endedAt) => PromptFails(w, q, w.drivers[q].runner, message, endedAt, r);
    case _ =>
  }

  lemma CancelEnds(w: World, endedAt: int, r: RunId)
    requires RunsOk(w) && r in w.state.runs
    ensures var w' := CancelRunStep(w, endedAt);
      && r in w'.state.runs
      && EndedBy(w.state.runs[r], w'.state.runs[r],
                 if w.state.activeRunId == Some(r) then Some((Cancelled, endedAt)) else None)
  {
    if w.state.activeRunId.Some? {
      EndFrame(w, CancelRun(endedAt), w.state.activeRunId.value);
    } else {
      NothingToCancel(w, endedAt);
    }
    hide CommitEnd, RunsOk;
  }

  lemma PromptEnds(w: World, q: RunId, runner: RunnerId, endedAt: int, r: RunId)
    requires RunsOk(w) && r in w.state.runs
    ensures var w' := PromptResolvedStep(w, q, runner, endedAt);
      r in w'.state.runs && EndedBy(w.state.runs[r], w'.state.runs[r], if q == r then Some((Completed, endedAt))
        else None)
  {
    EndFrame(w, FinalizeRun(q, Completed, endedAt), q);
    hide CommitEnd, RunsOk;
  }

  lemma FactoryEnds(w: World, q: RunId, message: Text, endedAt: int, r: RunId)
    requires RunsOk(w) && r in w.state.runs
    ensures var w' := FactoryRejectedStep(w, q, message, endedAt);
      r in w'.state.runs && EndedBy(w.state.runs[r], w'.state.runs[r], if q == r then Some((Errored, endedAt))
        else None)
  {
    hide CommitReceive, CommitEnd, RunsOk, EndedBy;
    FailEnds(w, q, message, endedAt, r);
  }

  lemma PromptFails(w: World, q: RunId, runner: RunnerId, message: Text, endedAt: int, r: RunId)
    requires RunsOk(w) && r in w.state.runs
    ensures var w' := PromptRejectedStep(w, q, runner, message, endedAt);
      r in w'.state.runs && EndedBy(w.state.runs[r], w'.state.runs[r], if q == r then Some((Errored, endedAt))
        else None)
  {
    hide CommitReceive, CommitEnd, RunsOk;
    FailEnds(w, q, message, endedAt, r);
  }

  lemma NothingToCancel(w: World, endedAt: int)
    requires w.state.activeRunId == None
    ensures CommitEnd(w, CancelRun(endedAt)) == w
  {
  }

  lemma {:induction false} NotifyEndsNothing(w: World, q: RunId, events: seq<Event>, r: RunId)
    requires RunsOk(w) && r in w.state.runs
    ensures var w' := NotifyStep(w, q, events);
      r in w'.state.runs && EndedBy(w.state.runs[r], w'.state.runs[r], None)
    decreases |events|
  {
    if events == [] || w.state.activeRunId != Some(q) {
    } else {
      ReceiveFrame(w, events[0], Bridged(q));
      ReceiveRuns(w, events[0], Bridged(q));
      hide CommitReceive, RunsOk;
      NotifyEndsNothing(CommitReceive(w, events[0], Bridged(q)), q, events[1..], r);
    }
  }

  lemma ReceiveEndsNothing(w: World, e: Event, source: Source, r: RunId)
    requires RunsOk(w) && r in w.state.runs
    ensures var w' := CommitReceive(w, e, source);
      r in w'.state.runs && EndedBy(w.state.runs[r], w'.state.runs[r], None)
  {
    ReceiveFrame(w, e, source);
    hide CommitReceive, RunsOk;
  }

  lemma FailEnds(w: World, q: RunId, message: Text, endedAt: int, r: RunId)
    requires RunsOk(w) && r in w.state.runs
    ensures var w' := CommitEnd(CommitReceive(w, RunError(message), ErrorOf(q)), FinalizeRun(q, Errored, endedAt));
      r in w'.state.runs && EndedBy(w.state.runs[r], w'.state.runs[r], if q == r then Some((Errored, endedAt))
        else None)
  {
    hide CommitReceive, CommitEnd, RunsOk;
    ReceiveEndsNothing(w, RunError(message), ErrorOf(q), r);
    ReceiveRuns(w, RunError(message), ErrorOf(q));
    EndFrame(CommitReceive(w, RunError(message), ErrorOf(q)), FinalizeRun(q, Errored, endedAt), q);
  }

  /** The first step of the execution that ends `r`. */
  function FirstEnding(w: World, steps: seq<Step>, r: RunId): Option<(Status, int)>
    requires Execution(w, steps)
    decreases |steps|
  {
    if steps == [] then None
    else if EndsRun(w, steps[0], r).Some? then EndsRun(w, steps[0], r)
    else FirstEnding(Apply(w, steps[0]), steps[1..], r)
  }

  /**
   * Over every execution: a run that was running has the status and the end time of the first step that ends it, for
   * as long as its record exists: cancelled, completed or errored; without such a step it is running.
   */
  lemma {:induction false} StatusIsFirstEnding(w: World, steps: seq<Step>, r: RunId)
    requires Inv(w) && Execution(w, steps) && r in w.state.runs && r in Final(w, steps).state.runs
    ensures EndedBy(w.state.runs[r], Final(w, steps).state.runs[r], FirstEnding(w, steps, r))
    decreases |steps|
  {
    if steps == [] {
    } else {
      var w1 := Apply(w, steps[0]);
      PresentIsUsed(w, r);
      hide Inv, Enabled, Apply, EndsRun, RecordsAge;
      StepKeepsInv(w, steps[0]);
      StillPresent(w, steps, r);
      StepEndsRun(w, steps[0], r);
      StatusIsFirstEnding(w1, steps[1..], r);
    }
  }

  lemma PresentIsUsed(w: World, r: RunId)
    requires Inv(w) && r in w.state.runs
    ensures r in w.used
  {
  }

  /** A record that is there in the end was never cleared on the way. */
  lemma StillPresent(w: World, steps: seq<Step>, r: RunId)
    requires Inv(w) && Execution(w, steps) && steps != [] && r in w.used && r in Final(w, steps).state.runs
    ensures r in Apply(w, steps[0]).state.runs
  {
    hide Inv, Enabled, Apply;
    StepKeepsInv(w, steps[0]);
    StepAges(w, steps[0]);
    EndedRunsStayEnded(Apply(w, steps[0]), steps[1..]);
  }

  // ---- which events a run holds ----

  /** The events the step appends to `r`: those for the active run, and errors of running prompts and of factories. */
  function Received(w: World, step: Step, r: RunId): seq<Event> {
    if w.state.activeRunId != Some(r) then []
    else
      match step
      case DispatchReceive(e) => [e]
      case Notify(q, events) => if q == r then events else []
      case FactoryRejected(_, message, _) => [RunError(message)]
      case PromptRejected(q, message, _) => if IsRunning(w, q) then [RunError(message)] else []
      case _ => []
  }

  lemma OneEvent(entries: seq<Entry>, e: Event, source: Source)
    ensures EventsOf(entries + [Entry(e, source)]) == EventsOf(entries) + [e]
  {
  }

  lemma TaggedEvents(entries: seq<Entry>, events: seq<Event>, source: Source)
    ensures EventsOf(entries + Tagged(events, source)) == EventsOf(entries) + events
  {
  }

  lemma StepReceives(w: World, step: Step, r: RunId)
    requires Inv(w) && Enabled(w, step) && r in w.state.runs && r in Apply(w, step).state.runs
    ensures EventsOf(LogOf(Apply(w, step), r)) == EventsOf(LogOf(w, r)) + Received(w, step, r)
  {
    if Quiet(step) {
      QuietSteps(w, step, r);
      hide Inv, Enabled, Apply, LogOf, EventsOf;
    } else {
      LoudStepReceives(w, step, r);
      hide Inv, Enabled, Apply, LogOf, EventsOf, Received;
    }
  }

  lemma LoudStepReceives(w: World, step: Step, r: RunId)
    requires Inv(w) && Enabled(w, step) && !Quiet(step) && r in w.state.runs
    ensures EventsOf(LogOf(Apply(w, step), r)) == EventsOf(LogOf(w, r)) + Received(w, step, r)
  {
    hide CommitReceive, NotifyStep, CancelRunStep, FactoryRejectedStep, PromptResolvedStep, PromptRejectedStep;
    hide EventsOf, ReachesActiveOnly, RecordOk, DriversOk, ReplayOk;
    match step
    case DispatchCancelRun(endedAt) => CancelKeepsLogs(w, endedAt);
    case DispatchReceive(e) => ExternalReceived(w, e, r);
    case Notify(q, events) => NotifyReceives(w, q, events, r);
    case FactoryRejected(q, message, endedAt) =>
      FactoryErrorReachesRunIffActive(w, q, message, endedAt);
      ErrorReceived(w, Apply(w, step), q, message, r);
    case PromptResolved(q, endedAt) => PromptKeepsLogs(w, q, w.drivers[q].runner, endedAt);
    case PromptRejected(q, message, endedAt) =>
      PromptErrorReachesRunIffActive(w, q, w.drivers[q].runner, message, endedAt);
      if IsRunning(w, q) { ErrorReceived(w, Apply(w, step), q, message, r); }
    case _ =>
  }

  lemma ExternalReceived(w: World, e: Event, r: RunId)
    requires RunsOk(w) && r in w.state.runs
    ensures EventsOf(LogOf(CommitReceive(w, e, External), r))
      == EventsOf(LogOf(w, r)) + (if w.state.activeRunId == Some(r) then [e] else [])
  {
    ReceiveFrame(w, e, External);
    OneEvent(LogOf(w, r), e, External);
    hide CommitReceive, EventsOf, RecordOk;
  }

  lemma ErrorReceived(w: World, w': World, q: RunId, message: Text, r: RunId)
    requires ReachesActiveOnly(w, w', Entry(RunError(message), ErrorOf(q)))
    ensures EventsOf(LogOf(w', r))
      == EventsOf(LogOf(w, r)) + (if w.state.activeRunId == Some(r) then [RunError(message)] else [])
  {
    OneEvent(LogOf(w, r), RunError(message), ErrorOf(q));
    hide EventsOf, LogOf;
  }

  lemma CancelKeepsLogs(w: World, endedAt: int)
    ensures CancelRunStep(w, endedAt).log == w.log
  {
  }

  lemma PromptKeepsLogs(w: World, q: RunId, runner: RunnerId, endedAt: int)
    ensures PromptResolvedStep(w, q, runner, endedAt).log == w.log
  {
  }

  lemma NotifyReceives(w: World, q: RunId, events: seq<Event>, r: RunId)
    requires Inv(w) && r in w.state.runs
    ensures EventsOf(LogOf(NotifyStep(w, q, events), r))
      == EventsOf(LogOf(w, r)) + (if w.state.activeRunId == Some(r) && q == r then events else [])
  {
    NotifyAppendsToItsRun(w, q, events);
    TaggedEvents(LogOf(w, r), events, Bridged(q));
    NotifyKeepsOtherLogs(w, q, events, r);
    hide EventsOf, NotifyStep;
  }

  lemma {:induction false} NotifyKeepsOtherLogs(w: World, q: RunId, events: seq<Event>, r: RunId)
    ensures q != r ==> LogOf(NotifyStep(w, q, events), r) == LogOf(w, r)
    decreases |events|
  {
    if events == [] || w.state.activeRunId != Some(q) {
    } else {
      NotifyKeepsOtherLogs(CommitReceive(w, events[0], Bridged(q)), q, events[1..], r);
    }
  }

  function AllReceived(w: World, steps: seq<Step>, r: RunId): seq<Event>
    requires Execution(w, steps)
    decreases |steps|
  {
    if steps == [] then [] else Received(w, steps[0], r) + AllReceived(Apply(w, steps[0]), steps[1..], r)
  }

  lemma {:induction false} LogIsReceived(w: World, steps: seq<Step>, r: RunId)
    requires Inv(w) && Execution(w, steps) && r in w.state.runs && r in Final(w, steps).state.runs
    ensures EventsOf(LogOf(Final(w, steps), r)) == EventsOf(LogOf(w, r)) + AllReceived(w, steps, r)
    decreases |steps|
  {
    if steps == [] {
    } else {
      var w1 := Apply(w, steps[0]);
      PresentIsUsed(w, r);
      hide Inv, Enabled, Apply, Received, LogOf, EventsOf;
      StepKeepsInv(w, steps[0]);
      StillPresent(w, steps, r);
      StepReceives(w, steps[0], r);
      LogIsReceived(w1, steps[1..], r);
      Splitting.Associative(EventsOf(LogOf(w, r)), Received(w, steps[0], r), AllReceived(w1, steps[1..], r));
    }
  }

  /** Over every execution a run's record holds the last 200 of the events received for it since it was started. */
  lemma RunHoldsLastReceived(before: seq<Step>, r: RunId, prompt: Text, startedAt: int, steps: seq<Step>)
    requires Execution(INIT, before) && r !in Final(INIT, before).used
    requires Execution(StartRunStep(Final(INIT, before), r, prompt, startedAt), steps)
    requires r in Final(StartRunStep(Final(INIT, before), r, prompt, startedAt), steps).state.runs
    ensures var w1 := StartRunStep(Final(INIT, before), r, prompt, startedAt);
      Final(w1, steps).state.runs[r].events == LastEvents(AllReceived(w1, steps, r))
  {
    InitOk();
    EveryReachableStateOk(INIT, before);
    var w := Final(INIT, before);
    var w1 := StartRunStep(w, r, prompt, startedAt);
    StartMakesRun(w, r, prompt, startedAt);
    StepKeepsInv(w, DispatchStartRun(r, prompt, startedAt));
    assert EventsOf([]) == [];
    hide StartRunStep, LogOf, EventsOf;
    LogIsReceived(w1, steps, r);
    assert [] + AllReceived(w1, steps, r) == AllReceived(w1, steps, r);
    EveryReachableStateOk(w1, steps);
    RecordIsLastOfLog(Final(w1, steps), r);
  }

  lemma RecordIsLastOfLog(w: World, r: RunId)
    requires Inv(w) && r in w.state.runs
    ensures w.state.runs[r].events == LastEvents(EventsOf(LogOf(w, r)))
  {
    assert RecordOk(r, w.state.runs[r], w.log[r]);
  }
}
