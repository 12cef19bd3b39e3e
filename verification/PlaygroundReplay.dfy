/** What a replay shows, step by step and over whole executions. */
module PlaygroundReplay {
  import opened Options
  import opened JsText
  import opened PlaygroundReducer
  import opened PlaygroundProtocol
  import opened PlaygroundInvariants
  import opened PlaygroundTheorems
  import PlaygroundAttribution

  /** The replay stands before event `k` of run `r`, a timer is pending, and `buffer` has been shown. */
  predicate Standing(w: World, r: RunId, k: nat, buffer: seq<Event>) {
    w.timer && w.state.replayMode == Some(Replay(r, k)) && w.state.replayBuffer == buffer
  }

  predicate NoReplay(w: World) {
    !w.timer && w.state.replayMode == None && w.state.replayBuffer == []
  }

  /** Starting a replay of a present run with events stands before the first one; without events it is over at once. */
  lemma ReplayStarts(w: World, r: RunId)
    requires Inv(w)
    ensures var w' := Apply(w, DispatchStartReplay(r));
      && (r in w.state.runs && w.state.runs[r].events != [] ==> Standing(w', r, 0, []))
      && (r in w.state.runs && w.state.runs[r].events == [] ==> NoReplay(w'))
      && (r !in w.state.runs ==> w' == w)
  {
  }

  /**
   * A tick shows exactly the event the replay stands before; it stands before the next one, with a timer pending,
   * if the run has a later event, and otherwise the replay is over.
   */
  lemma TickShowsNext(w: World, r: RunId, k: nat)
    requires Inv(w) && Standing(w, r, k, w.state.replayBuffer)
    ensures r in w.state.runs && k < |w.state.runs[r].events|
    ensures var events := w.state.runs[r].events; var w' := Apply(w, Tick);
      && (k + 1 < |events| ==> Standing(w', r, k + 1, w.state.replayBuffer + [events[k]]))
      && (k + 1 == |events| ==> NoReplay(w'))
  {
    NextEvent(w);
    hide RunsOk, DriversOk, ReplayOk, Reemits, NextPosition, LogOf;
  }

  predicate SameReplay(w: World, w': World) {
    w'.timer == w.timer && w'.state.replayMode == w.state.replayMode && w'.state.replayBuffer == w.state.replayBuffer
  }

  /**
   * A new run, a stop or a clear ends the replay; every other step that is neither a tick nor a start leaves it alone.
   */
  lemma OtherStepsAndReplay(w: World, step: Step)
    requires Inv(w) && Enabled(w, step) && !step.Tick? && !step.DispatchStartReplay?
    ensures var w' := Apply(w, step);
      if step.DispatchStartRun? || step.DispatchStopReplay? || step.DispatchClearSessions? then NoReplay(w')
      else SameReplay(w, w')
  {
    hide NotifyStep, FactoryRejectedStep, PromptResolvedStep, PromptRejectedStep;
    match step
    case Notify(r, events) => NotifySameReplay(w, r, events);
    case FactoryRejected(r, message, endedAt) => SettleSameReplay(w, r, RunnerId(0), message, endedAt);
    case PromptResolved(r, endedAt) => SettleSameReplay(w, r, w.drivers[r].runner, [], endedAt);
    case PromptRejected(r, message, endedAt) => SettleSameReplay(w, r, w.drivers[r].runner, message, endedAt);
    case _ =>
  }

  lemma {:induction false} NotifySameReplay(w: World, r: RunId, events: seq<Event>)
    ensures SameReplay(w, NotifyStep(w, r, events))
    decreases |events|
  {
    if events == [] || w.state.activeRunId != Some(r) {
    } else {
      NotifySameReplay(CommitReceive(w, events[0], Bridged(r)), r, events[1..]);
    }
  }

  lemma CommitSameReplay(w: World, e: Event, source: Source, a: Action)
    requires a.FinalizeRun?
    ensures SameReplay(w, CommitReceive(w, e, source)) && SameReplay(w, CommitEnd(w, a))
  {
  }

  lemma SettleSameReplay(w: World, r: RunId, runner: RunnerId, message: Text, endedAt: int)
    ensures SameReplay(w, FactoryRejectedStep(w, r, message, endedAt))
    ensures SameReplay(w, PromptResolvedStep(w, r, runner, endedAt))
    ensures SameReplay(w, PromptRejectedStep(w, r, runner, message, endedAt))
  {
    hide CommitReceive, CommitEnd;
    var e, source := RunError(message), ErrorOf(r);
    CommitSameReplay(w, e, source, FinalizeRun(r, Completed, endedAt));
    CommitSameReplay(CommitReceive(w, e, source), e, source, FinalizeRun(r, Errored, endedAt));
  }

  function Ticking(k: nat): seq<Step> {
    if k == 0 then [] else Ticking(k - 1) + [Tick]
  }

  /**
   * A replay left alone: after k ticks, fewer than there are events, the first k events have been shown and the timer
   * is pending; the tick for the last event ends the replay.  The records are as they were.
   */
  lemma {:induction false} ReplayShowsEveryEvent(before: seq<Step>, r: RunId, k: nat)
    requires Execution(INIT, before) && r in Final(INIT, before).state.runs
    requires k <= |Final(INIT, before).state.runs[r].events| != 0
    ensures var w := Final(INIT, before); var all := before + [DispatchStartReplay(r)] + Ticking(k);
      && Execution(INIT, all) && Final(INIT, all).state.runs == w.state.runs
      && (k < |w.state.runs[r].events| ==> Standing(Final(INIT, all), r, k, w.state.runs[r].events[..k]))
      && (k == |w.state.runs[r].events| ==> NoReplay(Final(INIT, all)))
  {
    hide Enabled, Apply, Standing, NoReplay, Inv;
    var start := before + [DispatchStartReplay(r)];
    InitOk();
    EveryReachableStateOk(INIT, before);
    var w := Final(INIT, before);
    var events := w.state.runs[r].events;
    if k == 0 {
      ReplayAlwaysEnabled(w, r);
      PlaygroundAttribution.OneMore(INIT, before, DispatchStartReplay(r));
      ReplayStarts(w, r);
      ReplayLeavesRunsAlone(w, DispatchStartReplay(r));
      assert start + Ticking(0) == start && events[..0] == [];
    } else {
      ReplayShowsEveryEvent(before, r, k - 1);
      var front := start + Ticking(k - 1);
      assert start + Ticking(k) == front + [Tick];
      EveryReachableStateOk(INIT, front);
      OneTick(front, r, k - 1, events);
    }
  }

  lemma ReplayAlwaysEnabled(w: World, r: RunId)
    ensures Enabled(w, DispatchStartReplay(r))
  {
  }

  lemma OneTick(front: seq<Step>, r: RunId, k: nat, events: seq<Event>)
    requires Execution(INIT, front) && Inv(Final(INIT, front)) && k < |events|
    requires r in Final(INIT, front).state.runs && Final(INIT, front).state.runs[r].events == events
    requires Standing(Final(INIT, front), r, k, events[..k])
    ensures Execution(INIT, front + [Tick])
    ensures Final(INIT, front + [Tick]).state.runs == Final(INIT, front).state.runs
    ensures k + 1 < |events| ==> Standing(Final(INIT, front + [Tick]), r, k + 1, events[..k + 1])
    ensures k + 1 == |events| ==> NoReplay(Final(INIT, front + [Tick]))
  {
    hide Execution, Final, Inv, TickStep;
    var w := Final(INIT, front);
    PlaygroundAttribution.OneMore(INIT, front, Tick);
    TickShowsNext(w, r, k);
    ReplayLeavesRunsAlone(w, Tick);
    assert events[..k] + [events[k]] == events[..k + 1];
  }
}
