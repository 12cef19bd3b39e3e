/** What every step of the playground store keeps, and what follows for whole runs of the protocol. */
module PlaygroundInvariants {
  import opened Options
  import opened JsText
  import opened PlaygroundReducer
  import opened PlaygroundProtocol

  // ---- the invariant ----

  /** One record against its full log. */
  ghost predicate RecordOk(r: RunId, run: RunRecord, entries: seq<Entry>) {
    && run.id == r
    && run.events == LastEvents(EventsOf(entries))
    && (run.endedAt == None <==> run.status == Running)
    && (forall i, q :: 0 <= i < |entries| && entries[i].source == Bridged(q) ==> q == r)
  }

  ghost predicate RunsOk(w: World) {
    && w.log.Keys == w.state.runs.Keys
    && w.state.runs.Keys <= w.used
    && (w.state.activeRunId.Some? ==> w.state.activeRunId.value in w.state.runs)
    && (forall r :: r in w.state.runs ==> RecordOk(r, w.state.runs[r], w.log[r]))
  }

  /** A running run always has a driver still in flight. */
  ghost predicate DriversOk(w: World) {
    && w.drivers.Keys == w.used
    && (forall r :: r in w.state.runs && w.state.runs[r].status == Running ==>
      r in w.drivers && w.drivers[r] != Settled)
  }

  /** The replay buffer re-emits the log at strictly increasing positions, all before the next one. */
  ghost predicate Reemits(buffer: seq<Event>, entries: seq<Entry>, positions: seq<nat>, next: nat) {
    && |positions| == |buffer|
    && (forall i, j :: 0 <= i < j < |positions| ==> positions[i] < positions[j])
    && (forall i :: 0 <= i < |positions| ==>
         positions[i] < next && positions[i] < |entries| && entries[positions[i]].event == buffer[i])
    && (|entries| <= EVENT_CAP ==> forall i :: 0 <= i < |positions| ==> positions[i] == i)
  }

  ghost predicate ReplayOk(w: World) {
    match w.state.replayMode
    case None => w.state.replayBuffer == [] && w.positions == []
    case Some(rp) =>
      && rp.runId in w.state.runs
      && rp.nextIndex < |w.state.runs[rp.runId].events|
      && |w.state.replayBuffer| == rp.nextIndex
      && Reemits(w.state.replayBuffer, LogOf(w, rp.runId), w.positions, NextPosition(w))
  }

  ghost predicate Inv(w: World) {
    RunsOk(w) && DriversOk(w) && ReplayOk(w) && (w.timer <==> w.state.replayMode.Some?)
  }

  // ---- commits keep the run records in order ----

  lemma EventsOfAppend(entries: seq<Entry>, entry: Entry)
    ensures EventsOf(entries + [entry]) == EventsOf(entries) + [entry.event]
  {
  }

  /** What receiving an event does: the active run's log grows by one entry, and nothing else changes. */
  lemma ReceiveFrame(w: World, e: Event, source: Source)
    requires RunsOk(w)
    ensures var w' := CommitReceive(w, e, source);
      && w'.state.runs.Keys == w.state.runs.Keys
      && w' == w.(state := w.state.(runs := w'.state.runs), log := w'.log)
      && (forall r :: r in w.state.runs && w.state.activeRunId != Some(r) ==>
        w'.state.runs[r] == w.state.runs[r] && w'.log[r] == w.log[r])
      && (forall r :: r in w.state.runs && w.state.activeRunId == Some(r) ==>
           w'.log[r] == w.log[r] + [Entry(e, source)]
           && w'.state.runs[r] == w.state.runs[r].(events := TrimToCap(w.state.runs[r].events + [e])))
      && w'.log.Keys == w'.state.runs.Keys
  {
    if HasActive(w) {
      var a := w.state.activeRunId.value;
      assert RecordOk(a, w.state.runs[a], w.log[a]);
    }
  }

  lemma ReceiveRuns(w: World, e: Event, source: Source)
    requires RunsOk(w) && forall q :: source == Bridged(q) ==> w.state.activeRunId == Some(q)
    ensures RunsOk(CommitReceive(w, e, source))
  {
    var w' := CommitReceive(w, e, source);
    ReceiveFrame(w, e, source);
    hide CommitReceive;
    forall r | r in w'.state.runs ensures RecordOk(r, w'.state.runs[r], w'.log[r]) {
      assert RecordOk(r, w.state.runs[r], w.log[r]);
      if w.state.activeRunId == Some(r) {
        EventsOfAppend(w.log[r], Entry(e, source));
        LastOfLast(EventsOf(w.log[r]), e);
      }
    }
  }

  /** A log that grows while a replay runs only moves the next position forward. */
  lemma ReemitsGrows(buffer: seq<Event>, entries: seq<Entry>, positions: seq<nat>, next: nat, entry: Entry, next': nat)
    requires Reemits(buffer, entries, positions, next) && next <= next'
    ensures Reemits(buffer, entries + [entry], positions, next')
  {
  }

  lemma ReceiveReplay(w: World, e: Event, source: Source)
    requires RunsOk(w) && ReplayOk(w)
    ensures ReplayOk(CommitReceive(w, e, source))
  {
    var w' := CommitReceive(w, e, source);
    ReceiveFrame(w, e, source);
    hide CommitReceive, Reemits, RunsOk;
    if w.state.replayMode.Some? {
      var r := w.state.replayMode.value.runId;
      if w.state.activeRunId == Some(r) {
        var events := w.state.runs[r].events;
        TrimKeepsLast(events + [e]);
        ReemitsGrows(w.state.replayBuffer, w.log[r], w.positions, NextPosition(w), Entry(e, source), NextPosition(w'));
      }
    }
  }

  lemma ReceiveKeeps(w: World, e: Event, source: Source)
    requires Inv(w) && forall q :: source == Bridged(q) ==> w.state.activeRunId == Some(q)
    ensures Inv(CommitReceive(w, e, source))
  {
    hide CommitReceive, ReplayOk, Reemits;
    ReceiveFrame(w, e, source);
    ReceiveRuns(w, e, source);
    ReceiveReplay(w, e, source);
  }

  /** Ending a run changes that one record's status and end time, and only if it was running. */
  lemma EndFrame(w: World, a: Action, r: RunId)
    requires RunsOk(w)
    requires (a.CancelRun? && w.state.activeRunId == Some(r)) || (a.FinalizeRun? && a.runId == r)
    ensures CommitEnd(w, a) ==
      if IsRunning(w, r)
      then w.(state := w.state.(runs := w.state.runs[r := w.state.runs[r].(
                status := if a.CancelRun? then Cancelled else a.status, endedAt := Some(a.endedAt))]))
      else w
  {
    if r in w.state.runs { assert RecordOk(r, w.state.runs[r], w.log[r]); }
  }

  lemma EndKeeps(w: World, a: Action, r: RunId)
    requires Inv(w) && (a.FinalizeRun? ==> a.status != Running)
    requires (a.CancelRun? && w.state.activeRunId == Some(r)) || (a.FinalizeRun? && a.runId == r)
    ensures Inv(CommitEnd(w, a))
    ensures !IsRunning(CommitEnd(w, a), r)
  {
    hide CommitEnd, Reemits;
    EndFrame(w, a, r);
    var w' := CommitEnd(w, a);
    if IsRunning(w, r) {
      forall q | q in w'.state.runs ensures RecordOk(q, w'.state.runs[q], w'.log[q]) {
        assert RecordOk(q, w.state.runs[q], w.log[q]);
      }
      assert w'.state.runs.Keys == w.state.runs.Keys;
      EndReplay(w, w');
    }
  }

  lemma EndReplay(w: World, w': World)
    requires ReplayOk(w) && w' == w.(state := w.state.(runs := w'.state.runs))
      && w'.state.runs.Keys == w.state.runs.Keys
    requires forall q :: q in w.state.runs ==> w'.state.runs[q].events == w.state.runs[q].events
    ensures ReplayOk(w')
  {
  }

  lemma StopKeeps(w: World)
    requires RunsOk(w) && DriversOk(w) && !w.timer
    ensures Inv(CommitStopReplay(w))
    ensures CommitStopReplay(w).state.replayMode == None
    ensures CommitStopReplay(w).state.runs == w.state.runs
  {
  }

  // ---- every step keeps the invariant ----

  lemma StartKeeps(w: World, r: RunId, prompt: Text, startedAt: int)
    requires Inv(w) && w.state.replayMode == None && r !in w.used
    ensures Inv(CommitStart(w, r, prompt, startedAt).(
      drivers := w.drivers[r := AwaitingFactory], activeSession := Some(r), used := w.used + {r}))
  {
    var w' := CommitStart(w, r, prompt, startedAt).(
      drivers := w.drivers[r := AwaitingFactory], activeSession := Some(r), used := w.used + {r});
    assert r !in w.state.runs;
    forall q | q in w'.state.runs ensures RecordOk(q, w'.state.runs[q], w'.log[q]) {
      if q != r { assert RecordOk(q, w.state.runs[q], w.log[q]); }
    }
  }

  lemma StartRunKeeps(w: World, r: RunId, prompt: Text, startedAt: int)
    requires Inv(w) && r !in w.used
    ensures Inv(StartRunStep(w, r, prompt, startedAt))
  {
    var w1 := if w.state.replayMode.Some? then CommitStopReplay(w.(timer := false)) else w;
    assert Inv(w1) && w1.state.replayMode == None by {
      if w.state.replayMode.Some? {
        KeepsWithoutTimer(w);
        StopKeeps(w.(timer := false));
      }
    }
    StartKeeps(w1, r, prompt, startedAt);
  }

  /** Clearing the timer handle leaves everything but the timer part of the invariant. */
  lemma KeepsWithoutTimer(w: World)
    requires Inv(w)
    ensures RunsOk(w.(timer := false)) && DriversOk(w.(timer := false)) && ReplayOk(w.(timer := false))
  {
  }

  lemma StartReplayKeeps(w: World, r: RunId)
    requires Inv(w)
    ensures Inv(StartReplayStep(w, r))
    ensures StartReplayStep(w, r).state.runs == w.state.runs
  {
    if r in w.state.runs {
      KeepsWithoutTimer(w);
      var w1 := CommitStartReplay(w.(timer := false), r);
      assert RunsOk(w1) && DriversOk(w1);
      if w.state.runs[r].events == [] { StopKeeps(w1); }
    }
  }

  lemma ReemitsNext(buffer: seq<Event>, entries: seq<Entry>, positions: seq<nat>, next: nat, e: Event)
    requires Reemits(buffer, entries, positions, next)
    requires next < |entries| && entries[next].event == e && (|entries| <= EVENT_CAP ==> next == |positions|)
    ensures Reemits(buffer + [e], entries, positions + [next], next + 1)
  {
  }

  /** The replay's next event is the log entry at the next position. */
  lemma NextEvent(w: World)
    requires RunsOk(w) && ReplayOk(w) && w.state.replayMode.Some?
    ensures TickFindsEvent(w)
    ensures var rp := w.state.replayMode.value; var entries := LogOf(w, rp.runId);
      && NextPosition(w) < |entries|
      && entries[NextPosition(w)].event == w.state.runs[rp.runId].events[rp.nextIndex]
      && (|entries| <= EVENT_CAP ==> NextPosition(w) == |w.positions|)
      && Reemits(w.state.replayBuffer, entries, w.positions, NextPosition(w))
  {
    var rp := w.state.replayMode.value;
    assert RecordOk(rp.runId, w.state.runs[rp.runId], w.log[rp.runId]);
  }

  /** What committing the next event does. */
  lemma ReplayEventFrame(w: World, e: Event)
    requires w.state.replayMode.Some? && w.state.replayMode.value.runId in w.state.runs
    ensures var rp := w.state.replayMode.value; var w1 := CommitReplayEvent(w, e);
      && w1.state == w.state.(replayMode := Some(Replay(rp.runId, rp.nextIndex + 1)),
        replayBuffer := w.state.replayBuffer + [e])
      && w1.positions == w.positions + [NextPosition(w)] && LogOf(w1, rp.runId) == LogOf(w, rp.runId)
      && NextPosition(w1) == NextPosition(w) + 1
  {
  }

  /** A tick finds its source run and event, and re-emits the log entry at the next position. */
  lemma TickEmits(w: World)
    requires RunsOk(w) && ReplayOk(w) && w.state.replayMode.Some?
    ensures TickFindsEvent(w)
    ensures var rp := w.state.replayMode.value; var run := w.state.runs[rp.runId];
      var w1 := CommitReplayEvent(w, run.events[rp.nextIndex]);
      && w1.state == w.state.(replayMode := Some(Replay(rp.runId, rp.nextIndex + 1)),
        replayBuffer := w1.state.replayBuffer)
      && |w1.state.replayBuffer| == rp.nextIndex + 1
      && Reemits(w1.state.replayBuffer, LogOf(w1, rp.runId), w1.positions, NextPosition(w1))
  {
    NextEvent(w);
    hide RunsOk, Reemits, NextPosition, LogOf;
    var rp := w.state.replayMode.value;
    var e := w.state.runs[rp.runId].events[rp.nextIndex];
    ReplayEventFrame(w, e);
    ReemitsNext(w.state.replayBuffer, LogOf(w, rp.runId), w.positions, NextPosition(w), e);
    hide CommitReplayEvent;
  }

  lemma TickKeeps(w: World)
    requires Inv(w) && w.timer
    ensures Inv(TickStep(w))
    ensures TickStep(w).state.runs == w.state.runs
  {
    hide RunsOk, DriversOk, Reemits;
    var w0 := w.(timer := false);
    KeepsWithoutTimer(w);
    TickEmits(w0);
    var rp := w.state.replayMode.value;
    var run := w.state.runs[rp.runId];
    var w1 := CommitReplayEvent(w0, run.events[rp.nextIndex]);
    SameRecords(w0, w1);
    if w1.state.replayMode.value.nextIndex < |run.events| {
      SameRecords(w1, w1.(timer := true));
    } else {
      StopKeeps(w1);
    }
  }

  lemma SameRecords(w: World, w': World)
    requires RunsOk(w) && DriversOk(w)
    requires w'.state.runs == w.state.runs && w'.state.activeRunId == w.state.activeRunId
    requires w'.log == w.log && w'.drivers == w.drivers && w'.used == w.used
    ensures RunsOk(w') && DriversOk(w')
  {
  }

  lemma SettleKeeps(w: World, r: RunId)
    requires Inv(w) && r in w.drivers && !IsRunning(w, r)
    ensures Inv(w.(drivers := w.drivers[r := Settled]))
  {
  }

  lemma FactoryRejectedKeeps(w: World, r: RunId, message: Text, endedAt: int)
    requires Inv(w) && r in w.drivers
    ensures Inv(FactoryRejectedStep(w, r, message, endedAt))
  {
    hide RunsOk, ReplayOk, DriversOk;
    ReceiveKeeps(w, RunError(message), ErrorOf(r));
    EndKeeps(CommitReceive(w, RunError(message), ErrorOf(r)), FinalizeRun(r, Errored, endedAt), r);
    SettleKeeps(CommitEnd(CommitReceive(w, RunError(message), ErrorOf(r)), FinalizeRun(r, Errored, endedAt)), r);
  }

  lemma {:induction false} NotifyKeeps(w: World, r: RunId, events: seq<Event>)
    requires Inv(w)
    ensures Inv(NotifyStep(w, r, events))
    decreases |events|
  {
    if events == [] || w.state.activeRunId != Some(r) {
    } else {
      ReceiveKeeps(w, events[0], Bridged(r));
      NotifyKeeps(CommitReceive(w, events[0], Bridged(r)), r, events[1..]);
    }
  }

  lemma ReleaseKeeps(w: World, r: RunId, runner: RunnerId)
    requires Inv(w) && r in w.drivers && !IsRunning(w, r)
    ensures Inv(Release(w, r, runner))
  {
    SettleKeeps(w, r);
  }

  lemma PromptResolvedKeeps(w: World, r: RunId, runner: RunnerId, endedAt: int)
    requires Inv(w) && r in w.drivers
    ensures Inv(PromptResolvedStep(w, r, runner, endedAt))
  {
    hide RunsOk, ReplayOk, DriversOk;
    if IsRunning(w, r) {
      EndKeeps(w, FinalizeRun(r, Completed, endedAt), r);
      ReleaseKeeps(CommitEnd(w, FinalizeRun(r, Completed, endedAt)), r, runner);
    } else {
      ReleaseKeeps(w, r, runner);
    }
  }

  lemma PromptRejectedKeeps(w: World, r: RunId, runner: RunnerId, message: Text, endedAt: int)
    requires Inv(w) && r in w.drivers
    ensures Inv(PromptRejectedStep(w, r, runner, message, endedAt))
  {
    hide RunsOk, ReplayOk, DriversOk;
    if IsRunning(w, r) {
      var w1 := CommitReceive(w, RunError(message), ErrorOf(r));
      ReceiveKeeps(w, RunError(message), ErrorOf(r));
      EndKeeps(w1, FinalizeRun(r, Errored, endedAt), r);
      ReleaseKeeps(CommitEnd(w1, FinalizeRun(r, Errored, endedAt)), r, runner);
    } else {
      ReleaseKeeps(w, r, runner);
    }
  }

  lemma CancelCallsIrrelevant(w: World, calls: seq<(RunnerId, RunId)>)
    requires Inv(w)
    ensures Inv(w.(cancels := calls))
  {
  }

  lemma CancelRunKeeps(w: World, endedAt: int)
    requires Inv(w)
    ensures Inv(CancelRunStep(w, endedAt))
  {
    hide Inv;
    var w1 := CommitEnd(w, CancelRun(endedAt));
    match w.state.activeRunId {
      case None => assert w1 == w;
      case Some(r) => EndKeeps(w, CancelRun(endedAt), r);
    }
    if w.activeRunner.Some? && w.activeSession.Some? {
      CancelCallsIrrelevant(w1, w.cancels + [(w.activeRunner.value, w.activeSession.value)]);
    }
  }

  lemma ClearKeeps(w: World)
    requires Inv(w)
    ensures Inv(CommitClear(w.(timer := false)))
  {
  }

  lemma FactoryResolvedKeeps(w: World, r: RunId, runner: RunnerId)
    requires Inv(w) && r in w.drivers && w.drivers[r] == AwaitingFactory
    ensures Inv(w.(activeRunner := Some(runner), drivers := w.drivers[r := Prompting(runner)]))
  {
  }

  lemma StepKeepsInv(w: World, step: Step)
    requires Inv(w) && Enabled(w, step)
    ensures Inv(Apply(w, step))
  {
    hide Inv;
    match step
    case DispatchStartRun(r, prompt, startedAt) => StartRunKeeps(w, r, prompt, startedAt);
    case DispatchCancelRun(endedAt) => CancelRunKeeps(w, endedAt);
    case DispatchReceive(e) => ReceiveKeeps(w, e, External);
    case DispatchStartReplay(r) => StartReplayKeeps(w, r);
    case DispatchStopReplay => StopReplayKeeps(w);
    case DispatchClearSessions => ClearKeeps(w);
    case Tick => TickKeeps(w);
    case FactoryResolved(r, runner) => FactoryResolvedKeeps(w, r, runner);
    case FactoryRejected(r, message, endedAt) => FactoryRejectedKeeps(w, r, message, endedAt);
    case Notify(r, events) => NotifyKeeps(w, r, events);
    case PromptResolved(r, endedAt) => PromptResolvedKeeps(w, r, w.drivers[r].runner, endedAt);
    case PromptRejected(r, message, endedAt) => PromptRejectedKeeps(w, r, w.drivers[r].runner, message, endedAt);
  }

  lemma StopReplayKeeps(w: World)
    requires Inv(w)
    ensures Inv(CommitStopReplay(w.(timer := false)))
  {
    KeepsWithoutTimer(w);
    StopKeeps(w.(timer := false));
  }

  /** The invariant holds after every execution from the initial state. */
  lemma {:induction false} EveryReachableStateOk(w: World, steps: seq<Step>)
    requires Inv(w) && Execution(w, steps)
    ensures Inv(Final(w, steps))
    decreases |steps|
  {
    if steps == [] {
    } else {
      StepKeepsInv(w, steps[0]);
      EveryReachableStateOk(Apply(w, steps[0]), steps[1..]);
    }
  }

  lemma InitOk()
    ensures Inv(INIT)
  {
  }
}
