/** Results about whole executions of the meta-agent loop. */
module MetaAgentTheorems {
  import opened Options
  import opened JsText
  import opened ToolResults
  import opened MetaAgentProtocol
  import opened MetaAgentInvariants

  lemma Reachable(max: int, steps: seq<Step>)
    requires Execution(InitWorld(max), steps)
    ensures Inv(Final(InitWorld(max), steps))
    ensures Final(InitWorld(max), steps).maxToolCalls == max
  {
    EveryReachableStateOk(InitWorld(max), steps);
    MaxIsFixed(InitWorld(max), steps);
  }

  lemma {:induction false} MaxIsFixed(w: World, steps: seq<Step>)
    requires Execution(w, steps)
    ensures Final(w, steps).maxToolCalls == w.maxToolCalls
    decreases |steps|
  {
    if steps != [] { MaxIsFixed(Apply(w, steps[0]), steps[1..]); }
  }

  /** A registered controller belongs to its session's most recently started run, which is live and not aborted. */
  lemma SlotHoldsLatestLiveRun(max: int, steps: seq<Step>, s: Session)
    requires Execution(InitWorld(max), steps) && s in Final(InitWorld(max), steps).controllers
    ensures var w := Final(InitWorld(max), steps); var r := w.controllers[s];
      && r < |w.runs| && w.runs[r].session == s && w.runs[r].phase != Finished && r !in w.aborted
      && forall q :: r < q < |w.runs| ==> w.runs[q].session != s
  {
    Reachable(max, steps);
    assert SlotOk(Final(InitWorld(max), steps), s);
  }

  lemma SlotRunIsLive(w: World, s: Session)
    requires Inv(w) && s in w.controllers
    ensures w.controllers[s] < |w.runs| && w.runs[w.controllers[s]].phase != Finished
  {
    assert SlotOk(w, s);
  }

  /** Once all runs have finished the registry is empty. */
  lemma RegistryEmptyWhenIdle(max: int, steps: seq<Step>)
    requires Execution(InitWorld(max), steps)
    requires forall r :: 0 <= r < |Final(InitWorld(max), steps).runs| ==>
      Final(InitWorld(max), steps).runs[r].phase == Finished
    ensures Final(InitWorld(max), steps).controllers == map[]
  {
    Reachable(max, steps);
    var w := Final(InitWorld(max), steps);
    forall s | s in w.controllers ensures false {
      SlotRunIsLive(w, s);
    }
    assert w.controllers.Keys == {};
  }

  /**
   * The trace of a finished run is complete (at most `max` tool outcomes, answer chunks, one terminal notification)
   * exactly if its promise was not rejected; otherwise only the terminal notification is missing.
   */
  lemma FinishedRunsHaveCompleteTraces(max: int, steps: seq<Step>, r: nat)
    requires Execution(InitWorld(max), steps) && r < |Final(InitWorld(max), steps).runs|
    requires Final(InitWorld(max), steps).runs[r].phase == Finished
    ensures var run := Final(InitWorld(max), steps).runs[r];
      && (CompleteTrace(run.emitted, max) <==> !run.rejected)
      && (run.rejected ==> TraceBody(run.emitted, max))
  {
    Reachable(max, steps);
    var w := Final(InitWorld(max), steps);
    assert RunOk(w.runs[r], w.maxToolCalls);
    if w.runs[r].rejected { BodyHasNoTerminal(w.runs[r].emitted, max); }
  }

  lemma BodyHasNoTerminal(emitted: seq<Notification>, max: int)
    requires TraceBody(emitted, max)
    ensures forall i :: 0 <= i < |emitted| ==> !IsTerminal(emitted[i])
  {
  }

  /** The promise of a run is rejected by the step that ends it, exactly if that step rejects bare. */
  lemma RejectedIffBare(max: int, before: seq<Step>, step: Step, after: seq<Step>)
    requires Execution(InitWorld(max), before) && Enabled(Final(InitWorld(max), before), step)
    requires !step.Start? && !step.Cancel? && Final(InitWorld(max), before).runs[step.run].phase != Finished
    requires Apply(Final(InitWorld(max), before), step).runs[step.run].phase == Finished
    requires Execution(Apply(Final(InitWorld(max), before), step), after)
    ensures var end := Final(Apply(Final(InitWorld(max), before), step), after);
      && step.run < |end.runs| && end.runs[step.run].phase == Finished
      && (CompleteTrace(end.runs[step.run].emitted, max) <==> !RejectsBare(step))
  {
    Reachable(max, before);
    var w := Final(InitWorld(max), before);
    var w' := Apply(w, step);
    assert RunOk(w.runs[step.run], max);
    EndingStep(w.runs[step.run], step, max, step.run in w.aborted);
    RunStepOk(w.runs[step.run], step, max, step.run in w.aborted);
    hide RunStep, Inv;
    assert RunOk(w'.runs[step.run], max);
    if w'.runs[step.run].rejected { BodyHasNoTerminal(w'.runs[step.run].emitted, max); }
    hide RunOk, CompleteTrace;
    FinishedRunsStay(w', after, step.run);
  }

  lemma EndingStep(run: Run, step: Step, max: int, aborted: bool)
    requires RunReady(run, step) && run.phase != Finished && !run.rejected && !step.Start? && !step.Cancel?
    ensures RunStep(run, step, max, aborted).rejected <==> RejectsBare(step)
  {
  }

  /** The i-th decide call of any run was shown i tool calls, each with its clipped result or its error. */
  lemma DecideCallsSeePairs(max: int, steps: seq<Step>, r: nat, i: nat)
    requires Execution(InitWorld(max), steps) && r < |Final(InitWorld(max), steps).runs|
    requires i < |DecidePriors(Final(InitWorld(max), steps).runs[r].calls)|
    ensures var run := Final(InitWorld(max), steps).runs[r];
      i < max && Pairs(DecidePriors(run.calls)[i], run.emitted, i)
  {
    Reachable(max, steps);
    var w := Final(InitWorld(max), steps);
    assert RunOk(w.runs[r], w.maxToolCalls);
  }

  /** Whichever await an abort lands in, the run begins no further call and emits at most two more notifications. */
  lemma AbortedRunsWindDown(max: int, steps: seq<Step>, r: nat)
    requires Execution(InitWorld(max), steps) && r in Final(InitWorld(max), steps).aborted
    ensures var w := Final(InitWorld(max), steps);
      && r < |w.runs|
      && |w.runs[r].calls| == w.aborted[r].calls
      && w.aborted[r].emitted <= |w.runs[r].emitted| <= w.aborted[r].emitted + 2
  {
    Reachable(max, steps);
  }

  // ---- single steps that involve several runs ----

  /** `cancel` aborts the registered run of its session if there is one, and nothing else. */
  lemma CancelAbortsAtMostOne(w: World, s: Session)
    requires Inv(w)
    ensures var w' := CancelStep(w, s);
      && w'.runs == w.runs && w'.controllers == w.controllers - {s}
      && (s in w.controllers ==>
           w'.aborted.Keys == w.aborted.Keys + {w.controllers[s]} && w.controllers[s] !in w.aborted)
      && (s !in w.controllers ==> w' == w)
  {
    hide RunOk, AbortOk;
    if s in w.controllers {
      assert SlotOk(w, s);
    } else {
      assert w.controllers - {s} == w.controllers;
    }
  }

  /** A settled await of one run leaves other runs, aborts and other runs' slots as they were. */
  lemma SettlingIsLocal(w: World, step: Step)
    requires Enabled(w, step) && !step.Start? && !step.Cancel?
    ensures var w' := Apply(w, step);
      && |w'.runs| == |w.runs| && w'.aborted == w.aborted
      && (forall q :: 0 <= q < |w.runs| && q != step.run ==> w'.runs[q] == w.runs[q])
      && (forall s :: s in w.controllers && w.controllers[s] != step.run ==>
        s in w'.controllers && w'.controllers[s] == w.controllers[s])
      && (forall s :: s in w'.controllers ==> s in w.controllers && w'.controllers[s] == w.controllers[s])
  {
    hide RunStep;
  }

  /** A later run of the same session exists. */
  ghost predicate Superseded(w: World, r: nat) {
    r < |w.runs| && exists q :: r < q < |w.runs| && w.runs[q].session == w.runs[r].session
  }

  lemma StepKeepsSuperseded(w: World, step: Step, r: nat)
    requires Inv(w) && Enabled(w, step) && Superseded(w, r)
    ensures Superseded(Apply(w, step), r)
    ensures r in Apply(w, step).aborted ==> r in w.aborted
  {
    hide RunOk, AbortOk;
    var q :| r < q < |w.runs| && w.runs[q].session == w.runs[r].session;
    match step
    case Start(s) =>
      var w' := Apply(w, step);
      assert w'.runs[q].session == w'.runs[r].session;
    case Cancel(s) =>
      if s in w.controllers { assert SlotOk(w, s); }
      assert Apply(w, step).runs[q].session == w.runs[r].session;
    case _ =>
      RunStepSession(w.runs[step.run], step, w.maxToolCalls, step.run in w.aborted);
      hide RunStep;
      assert Apply(w, step).runs[q].session == Apply(w, step).runs[r].session;
  }

  /** A superseded run can no longer be cancelled: no later step of any execution aborts it. */
  lemma {:induction false} SupersededRunsAreNeverAborted(w: World, steps: seq<Step>, r: nat)
    requires Inv(w) && Execution(w, steps) && Superseded(w, r)
    ensures r in Final(w, steps).aborted ==> r in w.aborted
    decreases |steps|
  {
    if steps == [] {
    } else {
      hide Inv, Apply, Enabled, Superseded;
      StepKeepsInv(w, steps[0]);
      StepKeepsSuperseded(w, steps[0], r);
      SupersededRunsAreNeverAborted(Apply(w, steps[0]), steps[1..], r);
    }
  }

  // ---- what an aborted run reports ----

  /**
   * The settled await lets an aborted run notice the abort: the model or the stream settles without an error, or a
   * tool settles, not with a bare rejection, with another iteration allowed.
   */
  predicate NoticesAbort(run: Run, step: Step, max: int)
    requires RunReady(run, step)
  {
    match step
    case DecideResolved(_, _) => true
    case StreamEnded(_) => true
    case ToolResolved(_, _) => run.phase.i + 1 < max
    case ToolThrew(_, message) => message.Some? && run.phase.i + 1 < max
    case _ => false
  }

  /** Its last notification is `cancelled`. */
  predicate EndsCancelled(run: Run) {
    run.emitted != [] && run.emitted[|run.emitted| - 1] == CancelledNote
  }

  lemma LastNoteOfAbortedRun(run: Run, step: Step, max: int)
    requires RunReady(run, step) && run.phase != Finished && !step.Start? && !step.Cancel? && !step.ChunkYielded?
    requires RunOk(run, max)
    ensures RunStep(run, step, max, true).phase == Finished
    ensures EndsCancelled(RunStep(run, step, max, true)) <==> NoticesAbort(run, step, max)
  {
    if RejectsBare(step) { assert RunStep(run, step, max, true).emitted == run.emitted; }
  }

  lemma {:induction false} FinishedRunsStay(w: World, steps: seq<Step>, r: nat)
    requires Execution(w, steps) && r < |w.runs| && w.runs[r].phase == Finished
    ensures r < |Final(w, steps).runs| && Final(w, steps).runs[r] == w.runs[r]
    decreases |steps|
  {
    if steps == [] {
    } else {
      var step := steps[0];
      if !step.Start? && !step.Cancel? {
        RunStepSession(w.runs[step.run], step, w.maxToolCalls, step.run in w.aborted);
      }
      hide RunStep, LoopHead;
      FinishedRunsStay(Apply(w, step), steps[1..], r);
    }
  }

  /**
   * In every execution, the last notification of an aborted run is `cancelled` exactly when the await that ended it
   * let it notice the abort: not when the model or the stream rejected, or a tool rejected bare, and not on the last
   * permitted tool call.
   */
  lemma AbortedRunReportsCancelledIff(max: int, before: seq<Step>, step: Step, after: seq<Step>)
    requires Execution(InitWorld(max), before) && Enabled(Final(InitWorld(max), before), step)
    requires !step.Start? && !step.Cancel? && !step.ChunkYielded?
    requires step.run in Final(InitWorld(max), before).aborted
    requires Final(InitWorld(max), before).runs[step.run].phase != Finished
    requires Execution(Apply(Final(InitWorld(max), before), step), after)
    ensures var w := Final(InitWorld(max), before); var end := Final(Apply(w, step), after);
      && step.run < |end.runs| && end.runs[step.run].phase == Finished
      && (EndsCancelled(end.runs[step.run]) <==> NoticesAbort(w.runs[step.run], step, max))
  {
    Reachable(max, before);
    var w := Final(InitWorld(max), before);
    assert RunOk(w.runs[step.run], max);
    LastNoteOfAbortedRun(w.runs[step.run], step, max);
    hide RunStep, NoticesAbort, Inv, RunOk;
    FinishedRunsStay(Apply(w, step), after, step.run);
  }

  lemma {:induction false} OneMore(w: World, steps: seq<Step>, last: Step)
    requires Execution(w, steps) && Enabled(Final(w, steps), last)
    ensures Execution(w, steps + [last]) && Final(w, steps + [last]) == Apply(Final(w, steps), last)
    decreases |steps|
  {
    var all := steps + [last];
    if steps == [] {
      assert all[1..] == [];
    } else {
      hide Enabled, Apply;
      assert all[1..] == steps[1..] + [last];
      OneMore(Apply(w, steps[0]), steps[1..], last);
    }
  }

  /** With one tool call allowed, a cancel during it is followed by the budget error. */
  lemma CancelDuringLastToolCall(s: Session, tool: Text, args: Text, result: ToolValue)
    ensures var steps := [Start(s), DecideResolved(0, Some(ToolCall(tool, args))), Cancel(s), ToolResolved(0, result)];
      && Execution(InitWorld(1), steps) && |Final(InitWorld(1), steps).runs| == 1
      && 0 in Final(InitWorld(1), steps).aborted
      && Final(InitWorld(1), steps).runs[0].emitted == [ToolInvoked(tool, result), ErrorNote(BudgetExceeded)]
  {
    hide TruncateToolResult;
    OneMore(InitWorld(1), [], Start(s));
    var decided := DecideResolved(0, Some(ToolCall(tool, args)));
    OneMore(InitWorld(1), [Start(s)], decided);
    OneMore(InitWorld(1), [Start(s), decided], Cancel(s));
    OneMore(InitWorld(1), [Start(s), decided, Cancel(s)], ToolResolved(0, result));
    assert [Start(s), decided, Cancel(s), ToolResolved(0, result)] == [Start(s), decided, Cancel(s)]
      + [ToolResolved(0, result)];
  }

  /** A model that rejects because of the cancel makes the run end as an answer. */
  lemma CancelThatRejectsTheModelCall(s: Session, reply: Text, max: int)
    requires max > 0
    ensures var steps := [Start(s), Cancel(s), DecideThrew(0, Some(reply))];
      && Execution(InitWorld(max), steps) && |Final(InitWorld(max), steps).runs| == 1
      && 0 in Final(InitWorld(max), steps).aborted
      && Final(InitWorld(max), steps).runs[0].emitted == [AnswerChunk(reply), AnswerDone]
  {
    OneMore(InitWorld(max), [], Start(s));
    OneMore(InitWorld(max), [Start(s)], Cancel(s));
    OneMore(InitWorld(max), [Start(s), Cancel(s)], DecideThrew(0, Some(reply)));
  }

  /** A cancelled run whose tool rejects with `undefined`, budget left: it finishes with no notification at all. */
  lemma BareRejectionEndsSilently(s: Session, tool: Text, args: Text, max: int)
    requires max > 1
    ensures var steps := [Start(s), DecideResolved(0, Some(ToolCall(tool, args))), Cancel(s), ToolThrew(0, None)];
      && Execution(InitWorld(max), steps) && |Final(InitWorld(max), steps).runs| == 1
      && 0 in Final(InitWorld(max), steps).aborted
      && Final(InitWorld(max), steps).runs[0].phase == Finished
      && Final(InitWorld(max), steps).runs[0].emitted == []
  {
    var decided := DecideResolved(0, Some(ToolCall(tool, args)));
    OneMore(InitWorld(max), [], Start(s));
    OneMore(InitWorld(max), [Start(s)], decided);
    OneMore(InitWorld(max), [Start(s), decided], Cancel(s));
    OneMore(InitWorld(max), [Start(s), decided, Cancel(s)], ToolThrew(0, None));
    assert [Start(s), decided, Cancel(s), ToolThrew(0, None)] == [Start(s), decided, Cancel(s)] + [ToolThrew(0, None)];
  }
}
