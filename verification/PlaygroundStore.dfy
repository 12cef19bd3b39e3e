/** The store itself: closure variables updated in place, each method refining one step of the protocol. */
module PlaygroundStore {
  import opened Options
  import opened JsText
  import opened PlaygroundReducer
  import opened PlaygroundProtocol
  import opened PlaygroundInvariants

  class Store {
    var state: State
    /** `replayTimerHandle !== null` */
    var replayTimer: bool
    var activeRunner: Option<RunnerId>
    var activeRunSession: Option<RunId>
    /** Where the async drivers are suspended. */
    var drivers: map<RunId, Driver>
    /** The `runner.cancel(sessionId)` calls made. */
    var cancelCalls: seq<(RunnerId, RunId)>
    ghost var log: map<RunId, seq<Entry>>
    ghost var positions: seq<nat>
    ghost var used: set<RunId>

    ghost function View(): World
      reads this
    {
      World(state, replayTimer, drivers, activeRunner, activeRunSession, cancelCalls, log, positions, used)
    }

    constructor ()
      ensures View() == INIT && Inv(View())
    {
      state := State(map[], None, None, []);
      replayTimer, activeRunner, activeRunSession := false, None, None;
      drivers, cancelCalls := map[], [];
      log, positions, used := map[], [], {};
      new;
      InitOk();
    }

    /** `state = reduce(state, action); notify(action)`, with the auxiliary records brought up to date. */
    method Commit(action: Action, ghost source: Source)
      modifies `state, `log, `positions
      ensures View() == Committed(old(View()), action, source)
    {
      ghost var after := Committed(View(), action, source);
      state := Reduce(state, action);
      log, positions := after.log, after.positions;
    }

    method CancelReplayTimer()
      modifies `replayTimer
      ensures View() == old(View()).(timer := false)
    {
      if replayTimer {
        replayTimer := false;
      }
    }

    /** The timer callback, with its two defensive stops. */
    method ReplayTick()
      requires Enabled(View(), Tick)
      modifies this
      ensures View() == Apply(old(View()), Tick)
      ensures old(Inv(View())) ==> Inv(View())
    {
      hide Reduce, Inv;
      if Inv(View()) { StepKeepsInv(View(), Tick); }
      replayTimer := false;
      if state.replayMode == None {
        return;
      }
      var replay := state.replayMode.value;
      if replay.runId !in state.runs {
        Commit(StopReplay, External);
        return;
      }
      var run := state.runs[replay.runId];
      if replay.nextIndex >= |run.events| {
        Commit(StopReplay, External);
        return;
      }
      Commit(ReceiveReplayEvent(replay.runId, run.events[replay.nextIndex], replay.nextIndex + 1), External);
      if state.replayMode.Some? && state.replayMode.value.nextIndex < |run.events| {
        replayTimer := true;
      } else {
        Commit(StopReplay, External);
      }
    }

    method StartLiveRun(runId: RunId, prompt: Text, startedAt: int)
      requires Enabled(View(), DispatchStartRun(runId, prompt, startedAt)) && Inv(View())
      modifies this
      ensures View() == Apply(old(View()), DispatchStartRun(runId, prompt, startedAt)) && Inv(View())
    {
      hide Reduce, Inv, NextPosition, CommitReceive;
      StepKeepsInv(View(), DispatchStartRun(runId, prompt, startedAt));
      if state.replayMode.Some? {
        CancelReplayTimer();
        Commit(StopReplay, External);
      }
      Commit(StartRun(runId, prompt, startedAt), External);
      // the synchronous part of driveRun
      activeRunSession := Some(runId);
      drivers := drivers[runId := AwaitingFactory];
      used := used + {runId};
    }

    method CancelActiveRun(endedAt: int)
      requires Inv(View())
      modifies this
      ensures View() == Apply(old(View()), DispatchCancelRun(endedAt)) && Inv(View())
    {
      hide Reduce, Inv;
      StepKeepsInv(View(), DispatchCancelRun(endedAt));
      var session, runner := activeRunSession, activeRunner;
      Commit(CancelRun(endedAt), External);
      if runner.Some? && session.Some? {
        cancelCalls := cancelCalls + [(runner.value, session.value)];
      }
    }

    method BeginReplay(runId: RunId)
      requires Inv(View())
      modifies this
      ensures View() == Apply(old(View()), DispatchStartReplay(runId)) && Inv(View())
    {
      hide Inv, LogOf, Dropped;
      StepKeepsInv(View(), DispatchStartReplay(runId));
      if runId !in state.runs {
        return;
      }
      var target := state.runs[runId];
      CancelReplayTimer();
      Commit(StartReplay(runId), External);
      if target.events == [] {
        Commit(StopReplay, External);
        return;
      }
      replayTimer := true;
    }

    method EndReplay()
      requires Inv(View())
      modifies this
      ensures View() == Apply(old(View()), DispatchStopReplay) && Inv(View())
    {
      hide Reduce, Inv;
      StepKeepsInv(View(), DispatchStopReplay);
      CancelReplayTimer();
      Commit(StopReplay, External);
    }

    method ClearAllSessions()
      requires Inv(View())
      modifies this
      ensures View() == Apply(old(View()), DispatchClearSessions) && Inv(View())
    {
      hide Reduce, Inv;
      StepKeepsInv(View(), DispatchClearSessions);
      CancelReplayTimer();
      Commit(ClearSessions, External);
    }

    /** `driveRun` after its factory call: the runner is recorded and the prompt sent. */
    method OnFactoryResolved(runId: RunId, runner: RunnerId)
      requires Enabled(View(), FactoryResolved(runId, runner)) && Inv(View())
      modifies this
      ensures View() == Apply(old(View()), FactoryResolved(runId, runner)) && Inv(View())
    {
      hide Inv;
      StepKeepsInv(View(), FactoryResolved(runId, runner));
      activeRunner := Some(runner);
      drivers := drivers[runId := Prompting(runner)];
    }

    method OnFactoryRejected(runId: RunId, message: Text, endedAt: int)
      requires Enabled(View(), FactoryRejected(runId, message, endedAt)) && Inv(View())
      modifies this
      ensures View() == Apply(old(View()), FactoryRejected(runId, message, endedAt)) && Inv(View())
    {
      hide Reduce, Inv;
      StepKeepsInv(View(), FactoryRejected(runId, message, endedAt));
      Commit(ReceiveEvent(RunError(message)), ErrorOf(runId));
      Commit(FinalizeRun(runId, Errored, endedAt), External);
      drivers := drivers[runId := Settled];
    }

    /** The `emit` callback handed to the runner. */
    method Emit(runId: RunId, events: seq<Event>)
      requires Enabled(View(), Notify(runId, events)) && Inv(View())
      modifies this
      ensures View() == Apply(old(View()), Notify(runId, events)) && Inv(View())
    {
      hide Reduce, Inv, CommitReceive;
      StepKeepsInv(View(), Notify(runId, events));
      for k := 0 to |events|
        invariant NotifyStep(old(View()), runId, events) == NotifyStep(View(), runId, events[k..])
      {
        if state.activeRunId != Some(runId) {
          return;
        }
        assert events[k..][0] == events[k] && events[k..][1..] == events[k + 1..];
        Commit(ReceiveEvent(events[k]), Bridged(runId));
      }
    }

    method OnPromptResolved(runId: RunId, endedAt: int)
      requires Enabled(View(), PromptResolved(runId, endedAt)) && Inv(View())
      modifies this
      ensures View() == Apply(old(View()), PromptResolved(runId, endedAt)) && Inv(View())
    {
      hide Reduce, Inv;
      StepKeepsInv(View(), PromptResolved(runId, endedAt));
      if runId in state.runs && state.runs[runId].status == Running {
        Commit(FinalizeRun(runId, Completed, endedAt), External);
      }
      ReleaseRunner(runId, drivers[runId].runner);
    }

    method OnPromptRejected(runId: RunId, message: Text, endedAt: int)
      requires Enabled(View(), PromptRejected(runId, message, endedAt)) && Inv(View())
      modifies this
      ensures View() == Apply(old(View()), PromptRejected(runId, message, endedAt)) && Inv(View())
    {
      hide Reduce, Inv;
      StepKeepsInv(View(), PromptRejected(runId, message, endedAt));
      if runId in state.runs && state.runs[runId].status == Running {
        Commit(ReceiveEvent(RunError(message)), ErrorOf(runId));
        Commit(FinalizeRun(runId, Errored, endedAt), External);
      }
      ReleaseRunner(runId, drivers[runId].runner);
    }

    /** The `finally` block of `driveRun`. */
    method ReleaseRunner(runId: RunId, runner: RunnerId)
      modifies `activeRunner, `activeRunSession, `drivers
      ensures View() == Release(old(View()), runId, runner)
    {
      drivers := drivers[runId := Settled];
      if activeRunner == Some(runner) {
        activeRunner, activeRunSession := None, None;
      }
    }
  }

  /** The effect of one commit on the whole world. */
  ghost function Committed(w: World, action: Action, source: Source): World {
    match action
    case ReceiveEvent(e) => CommitReceive(w, e, source)
    case StartRun(r, prompt, startedAt) => CommitStart(w, r, prompt, startedAt)
    case CancelRun(_) => CommitEnd(w, action)
    case FinalizeRun(_, _, _) => CommitEnd(w, action)
    case StartReplay(r) => CommitStartReplay(w, r)
    case ReceiveReplayEvent(r, e, replaySeq) =>
      if w.state.replayMode == None || w.state.replayMode.value.runId != r then w
      else w.(state := Reduce(w.state, action), positions := w.positions + [NextPosition(w)])
    case StopReplay => CommitStopReplay(w)
    case ClearSessions => CommitClear(w)
  }
}
