/** Which run an event or a cancel call reaches when runs overlap. */
module PlaygroundAttribution {
  import opened Options
  import opened JsText
  import opened PlaygroundReducer
  import opened PlaygroundProtocol
  import opened PlaygroundInvariants

  function Tagged(events: seq<Event>, source: Source): seq<Entry> {
    seq(|events|, i requires 0 <= i < |events| => Entry(events[i], source))
  }

  lemma ReceiveFromActive(w: World, r: RunId, e: Event)
    requires Inv(w) && w.state.activeRunId == Some(r)
    ensures var w' := CommitReceive(w, e, Bridged(r));
      && Inv(w') && w'.state.activeRunId == Some(r)
      && LogOf(w', r) == LogOf(w, r) + [Entry(e, Bridged(r))]
      && (forall q :: q != r && q in w.state.runs ==> q in w'.state.runs && w'.state.runs[q] == w.state.runs[q])
  {
    ReceiveFrame(w, e, Bridged(r));
    ReceiveKeeps(w, e, Bridged(r));
  }

  /** A notification appends all its events, in order, to the run that emitted it, or is dropped whole. */
  lemma {:induction false} NotifyAppendsToItsRun(w: World, r: RunId, events: seq<Event>)
    requires Inv(w)
    ensures w.state.activeRunId != Some(r) ==> NotifyStep(w, r, events) == w
    ensures w.state.activeRunId == Some(r) ==>
      LogOf(NotifyStep(w, r, events), r) == LogOf(w, r) + Tagged(events, Bridged(r))
    ensures forall q :: q != r && q in w.state.runs ==>
      q in NotifyStep(w, r, events).state.runs && NotifyStep(w, r, events).state.runs[q] == w.state.runs[q]
    decreases |events|
  {
    hide CommitReceive, Inv, LogOf;
    if events == [] || w.state.activeRunId != Some(r) {
    } else {
      ReceiveFromActive(w, r, events[0]);
      NotifyAppendsToItsRun(CommitReceive(w, events[0], Bridged(r)), r, events[1..]);
      assert Tagged(events, Bridged(r)) == [Entry(events[0], Bridged(r))] + Tagged(events[1..], Bridged(r));
    }
  }

  /** `entry` is appended to the active run's log, if a run is active, and to no other. */
  ghost predicate ReachesActiveOnly(w: World, w': World, entry: Entry) {
    forall q :: LogOf(w', q) == if w.state.activeRunId == Some(q) then LogOf(w, q) + [entry] else LogOf(w, q)
  }

  lemma ErrorReachesActive(w: World, r: RunId, message: Text)
    requires Inv(w)
    ensures ReachesActiveOnly(w, CommitReceive(w, RunError(message), ErrorOf(r)), Entry(RunError(message), ErrorOf(r)))
  {
    ReceiveFrame(w, RunError(message), ErrorOf(r));
  }

  lemma ReachesIff(w: World, w': World, entry: Entry, r: RunId)
    requires ReachesActiveOnly(w, w', entry)
    ensures LogOf(w', r) == LogOf(w, r) + [entry] <==> w.state.activeRunId == Some(r)
  {
    hide LogOf;
    assert |LogOf(w, r) + [entry]| == |LogOf(w, r)| + 1;
  }

  lemma SameLogs(w: World, w1: World, w': World, entry: Entry)
    requires ReachesActiveOnly(w, w1, entry) && w'.log == w1.log
    ensures ReachesActiveOnly(w, w', entry)
  {
    forall q ensures LogOf(w', q) == LogOf(w1, q) {
    }
  }

  /** A running run is errored; one that has ended stays as it ended. */
  ghost predicate Finalized(before: RunRecord, after: RunRecord, endedAt: int) {
    && (before.status == Running ==> after.status == Errored && after.endedAt == Some(endedAt))
    && (before.status != Running ==> after.status == before.status && after.endedAt == before.endedAt)
  }

  /**
   * What `emitRunError` and the finalize after it do: the event goes to the active run, the status to the failed one.
   */
  lemma FailReaches(w: World, r: RunId, message: Text, endedAt: int)
    requires Inv(w)
    ensures var w' := CommitEnd(CommitReceive(w, RunError(message), ErrorOf(r)), FinalizeRun(r, Errored, endedAt));
      && ReachesActiveOnly(w, w', Entry(RunError(message), ErrorOf(r)))
      && w'.state.runs.Keys == w.state.runs.Keys
      && (r in w.state.runs ==> Finalized(w.state.runs[r], w'.state.runs[r], endedAt))
  {
    var e := RunError(message);
    var w1 := CommitReceive(w, e, ErrorOf(r));
    ReceiveFrame(w, e, ErrorOf(r));
    ReceiveRuns(w, e, ErrorOf(r));
    ErrorReachesActive(w, r, message);
    EndFrame(w1, FinalizeRun(r, Errored, endedAt), r);
    hide CommitReceive, CommitEnd, Inv, RunsOk, ReachesActiveOnly;
    SameLogs(w, w1, CommitEnd(w1, FinalizeRun(r, Errored, endedAt)), Entry(e, ErrorOf(r)));
  }

  /**
   * The error event of a failed factory is always sent, even for a run already cancelled or cleared, and goes to
   * whichever run is active: it reaches the failed run if and only if that is the active one.
   */
  lemma FactoryErrorReachesRunIffActive(w: World, r: RunId, message: Text, endedAt: int)
    requires Inv(w)
    ensures var w' := FactoryRejectedStep(w, r, message, endedAt);
      && ReachesActiveOnly(w, w', Entry(RunError(message), ErrorOf(r)))
      && (LogOf(w', r) == LogOf(w, r) + [Entry(RunError(message), ErrorOf(r))] <==> w.state.activeRunId == Some(r))
      && w'.state.runs.Keys == w.state.runs.Keys
      && (r in w.state.runs ==> Finalized(w.state.runs[r], w'.state.runs[r], endedAt))
  {
    hide CommitReceive, CommitEnd, Inv, ReachesActiveOnly, Finalized, LogOf;
    var entry := Entry(RunError(message), ErrorOf(r));
    var w' := FactoryRejectedStep(w, r, message, endedAt);
    FailReaches(w, r, message, endedAt);
    SameLogs(w, CommitEnd(CommitReceive(w, RunError(message), ErrorOf(r)), FinalizeRun(r, Errored, endedAt)), w',
      entry);
    ReachesIff(w, w', entry, r);
  }

  /**
   * The error event of a rejected prompt is sent only for a run still running, and then goes to whichever run is
   * active: it reaches the failed run if and only if that one is running and active.
   */
  lemma PromptErrorReachesRunIffActive(w: World, r: RunId, runner: RunnerId, message: Text, endedAt: int)
    requires Inv(w)
    ensures var w' := PromptRejectedStep(w, r, runner, message, endedAt);
      && (!IsRunning(w, r) ==> w'.state == w.state && w'.log == w.log)
      && (IsRunning(w, r) ==>
           && ReachesActiveOnly(w, w', Entry(RunError(message), ErrorOf(r)))
           && r in w'.state.runs && Finalized(w.state.runs[r], w'.state.runs[r], endedAt))
      && (LogOf(w', r) == LogOf(w, r) + [Entry(RunError(message), ErrorOf(r))]
          <==> IsRunning(w, r) && w.state.activeRunId == Some(r))
  {
    hide CommitReceive, CommitEnd, Inv, ReachesActiveOnly, Finalized;
    var w' := PromptRejectedStep(w, r, runner, message, endedAt);
    var entry := Entry(RunError(message), ErrorOf(r));
    if IsRunning(w, r) {
      FailReaches(w, r, message, endedAt);
      SameLogs(w, CommitEnd(CommitReceive(w, RunError(message), ErrorOf(r)), FinalizeRun(r, Errored, endedAt)), w',
        entry);
      ReachesIff(w, w', entry, r);
    } else {
      assert |LogOf(w, r) + [entry]| == |LogOf(w, r)| + 1;
    }
  }

  lemma {:induction false} OneMore(w: World, steps: seq<Step>, last: Step)
    requires Execution(w, steps) && Enabled(Final(w, steps), last)
    ensures Execution(w, steps + [last]) && Final(w, steps + [last]) == Apply(Final(w, steps), last)
    decreases |steps|
  {
    var all := steps + [last];
    if steps == [] {
      assert all[1..] == [];
    } else {
      hide Enabled, Apply;
      assert all[1..] == steps[1..] + [last];
      OneMore(Apply(w, steps[0]), steps[1..], last);
    }
  }

  const NO_PROMPT: Text := []

  /** Two runs started one after the other. */
  function TwoRuns(a: RunId, b: RunId): seq<Step> {
    [DispatchStartRun(a, NO_PROMPT, 0), DispatchStartRun(b, NO_PROMPT, 1)]
  }

  function TwoRunning(a: RunId, b: RunId): State {
    State(map[a := RunRecord(a, NO_PROMPT, 0, None, Running, []), b := RunRecord(b, NO_PROMPT, 1, None, Running, [])],
          Some(b), None, [])
  }

  lemma TwoRunsStarted(a: RunId, b: RunId)
    requires a != b
    ensures Execution(INIT, TwoRuns(a, b))
    ensures var w := Final(INIT, TwoRuns(a, b));
      && w.state == TwoRunning(a, b)
      && w.drivers == map[a := AwaitingFactory, b := AwaitingFactory]
      && w.activeRunner == None && w.activeSession == Some(b) && w.cancels == []
  {
    var first := [DispatchStartRun(a, NO_PROMPT, 0)];
    OneMore(INIT, [], first[0]);
    OneMore(INIT, first, DispatchStartRun(b, NO_PROMPT, 1));
    assert TwoRuns(a, b) == first + [DispatchStartRun(b, NO_PROMPT, 1)];
  }

  /** The first run is errored without an event, the second one still runs and shows the error. */
  ghost predicate ErrorShownInOther(s: State, a: RunId, b: RunId, message: Text) {
    && a in s.runs && s.runs[a].status == Errored && s.runs[a].events == []
    && b in s.runs && s.runs[b].status == Running && s.runs[b].events == [RunError(message)]
  }

  lemma FailWhileOtherActive(w: World, a: RunId, b: RunId, message: Text)
    requires a != b && w.state == TwoRunning(a, b)
    ensures IsRunning(w, a)
    ensures var w1 := CommitReceive(w, RunError(message), ErrorOf(a));
      ErrorShownInOther(CommitEnd(w1, FinalizeRun(a, Errored, 2)).state, a, b, message)
  {
    assert TrimToCap([RunError(message)]) == [RunError(message)];
  }

  /** The misattribution is reachable: a's factory fails after b was started, and b's trace shows a's error. */
  lemma ErrorOfOneRunShownInAnother(a: RunId, b: RunId, message: Text)
    requires a != b
    ensures var steps := TwoRuns(a, b) + [FactoryRejected(a, message, 2)];
      Execution(INIT, steps) && ErrorShownInOther(Final(INIT, steps).state, a, b, message)
  {
    hide Execution, Final, TwoRuns, TwoRunning, CommitReceive, CommitEnd, ErrorShownInOther;
    TwoRunsStarted(a, b);
    OneMore(INIT, TwoRuns(a, b), FactoryRejected(a, message, 2));
    FailWhileOtherActive(Final(INIT, TwoRuns(a, b)), a, b, message);
  }

  /** So is the one by a rejected prompt: a's prompt fails after b was started. */
  lemma PromptErrorOfOneRunShownInAnother(a: RunId, b: RunId, runner: RunnerId, message: Text)
    requires a != b
    ensures var steps := TwoRuns(a, b) + [FactoryResolved(a, runner)] + [PromptRejected(a, message, 2)];
      Execution(INIT, steps) && ErrorShownInOther(Final(INIT, steps).state, a, b, message)
  {
    hide Execution, Final, TwoRuns, TwoRunning, CommitReceive, CommitEnd, IsRunning, ErrorShownInOther;
    var before := TwoRuns(a, b) + [FactoryResolved(a, runner)];
    TwoRunsStarted(a, b);
    OneMore(INIT, TwoRuns(a, b), FactoryResolved(a, runner));
    OneMore(INIT, before, PromptRejected(a, message, 2));
    FailWhileOtherActive(Final(INIT, before), a, b, message);
  }
}
