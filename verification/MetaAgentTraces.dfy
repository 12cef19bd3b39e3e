/** What an un-aborted run of the meta-agent loop emits and calls, in terms of what its awaits settled with. */
module MetaAgentTraces {
  import opened Options
  import opened JsText
  import Splitting
  import opened ToolResults
  import opened MetaAgentProtocol
  import opened MetaAgentInvariants
  import opened MetaAgentTheorems

  // ---- the reference: a fold over the steps of the run ----

  /** A run so far: its notifications, how many tool calls have ended, the one under way, and all those begun. */
  datatype Account = Account(
    told: seq<Notification>, toolsDone: nat, tool: Option<(Text, Text)>, asked: seq<(Text, Text)>)

  const BLANK: Account := Account([], 0, None, [])

  function Told(a: Account, notes: seq<Notification>): Account {
    a.(told := a.told + notes)
  }

  /** A tool call has come to an end; it was the last one permitted if it used up the budget. */
  function ToolDone(a: Account, note: Notification, max: int): Account {
    var b := Account(a.told + [note], a.toolsDone + 1, None, a.asked);
    if b.toolsDone >= max then Told(b, [ErrorNote(BudgetExceeded)]) else b
  }

  /** What one settled await adds. */
  function Account1(a: Account, step: Step, max: int): Account {
    match step
    case DecideResolved(_, Some(ToolCall(tool, args))) =>
      a.(tool := Some((tool, args)), asked := a.asked + [(tool, args)])
    case DecideResolved(_, Some(Answer(_))) => a
    case DecideResolved(_, Some(Clarify(prompt))) => Told(a, [Clarification(prompt)])
    case DecideResolved(_, Some(Fail(message))) => Told(a, [ErrorNote(FromModel(message))])
    case DecideResolved(_, None) => Told(a, [ErrorNote(InvalidAction)])
    case DecideThrew(_, Some(reply)) => Told(a, [AnswerChunk(reply), AnswerDone])
    case ToolResolved(_, result) =>
      if a.tool == None then a else ToolDone(a, ToolInvoked(a.tool.value.0, result), max)
    case ToolThrew(_, Some(message)) =>
      if a.tool == None then a else ToolDone(a, ToolFailed(a.tool.value.0, message), max)
    case ChunkYielded(_, text) => Told(a, [AnswerChunk(text)])
    case StreamEnded(_) => Told(a, [AnswerDone])
    case StreamThrew(_, Some(reply)) => Told(a, [AnswerChunk(reply), AnswerDone])
    case _ => a
  }

  predicate Concerns(step: Step, r: nat) {
    !step.Start? && !step.Cancel? && step.run == r
  }

  /** The account of run `r` after the steps, those of other runs left out. */
  function AccountOf(a: Account, steps: seq<Step>, r: nat, max: int): Account
    decreases |steps|
  {
    if steps == [] then a
    else AccountOf(if Concerns(steps[0], r) then Account1(a, steps[0], max) else a, steps[1..], r, max)
  }

  // ---- the loop follows it ----

  /** The tool calls among the calls begun. */
  function InvokesIn(calls: seq<Call>): seq<(Text, Text)> {
    if calls == [] then []
    else
      var last := calls[|calls| - 1];
      InvokesIn(calls[..|calls| - 1]) + (if last.Invoke? then [(last.tool, last.args)] else [])
  }

  lemma InvokesSnoc(calls: seq<Call>, c: Call)
    ensures InvokesIn(calls + [c]) == InvokesIn(calls) + (if c.Invoke? then [(c.tool, c.args)] else [])
  {
    assert (calls + [c])[..|calls|] == calls;
  }

  /** The run is where its account says. */
  ghost predicate Follows(run: Run, a: Account, max: int) {
    && run.emitted == a.told
    && InvokesIn(run.calls) == a.asked
    && match run.phase
       case Deciding(i) => a.toolsDone == i < max && a.tool == None
       case Invoking(i, tool, args) => a.toolsDone == i < max && a.tool == Some((tool, args))
       case _ => true
  }

  lemma HeadFollows(run: Run, i: nat, a: Account, max: int)
    requires run.emitted == a.told && InvokesIn(run.calls) == a.asked && a.toolsDone == i && a.tool == None
    ensures var b := if i >= max then Told(a, [ErrorNote(BudgetExceeded)]) else a;
      Follows(LoopHead(run, i, max, false), b, max)
  {
    InvokesSnoc(run.calls, Decide(run.prior));
    hide InvokesIn;
  }

  lemma StepFollows(run: Run, step: Step, a: Account, max: int)
    requires RunReady(run, step) && run.phase != Finished && !step.Start? && !step.Cancel? && Follows(run, a, max)
    ensures Follows(RunStep(run, step, max, false), Account1(a, step, max), max)
  {
    match step
    case DecideResolved(_, action) => DecisionFollows(run, step, a, max);
    case DecideThrew(_, reply) => FailureFollows(run, reply, a, max);
    case StreamThrew(_, reply) => FailureFollows(run, reply, a, max);
    case ToolResolved(_, result) =>
      hide InvokesIn, AfterTool, ResultEntry, ToolDone;
      ToolFollows(run, ResultEntry(run, result), ToolInvoked(run.phase.tool, result), a, max);
    case ToolThrew(_, Some(message)) =>
      hide InvokesIn, AfterTool, ToolDone;
      ToolFollows(run, ToolError(run.phase.tool, run.phase.args, message), ToolFailed(run.phase.tool, message), a, max);
    case _ =>
      hide InvokesIn;
  }

  lemma DecisionFollows(run: Run, step: Step, a: Account, max: int)
    requires step.DecideResolved? && run.phase.Deciding? && Follows(run, a, max)
    ensures Follows(AfterDecide(run, run.phase.i, step.action, false), Account1(a, step, max), max)
  {
    match step.action
    case Some(ToolCall(tool, args)) => InvokesSnoc(run.calls, Invoke(tool, args));
    case Some(Answer(draft)) => InvokesSnoc(run.calls, Stream(run.prior + [Decided(Answer(draft))]));
    case _ => hide InvokesIn;
  }

  lemma FailureFollows(run: Run, reply: Option<Text>, a: Account, max: int)
    requires Follows(run, a, max)
    ensures Follows(AnswerFailure(run, reply),
                    if reply == None then a else Told(a, [AnswerChunk(reply.value), AnswerDone]), max)
  {
    hide InvokesIn;
    if reply != None {
      assert (a.told + [AnswerChunk(reply.value)]) + [AnswerDone] == a.told + [AnswerChunk(reply.value), AnswerDone];
    }
  }

  lemma ToolFollows(run: Run, entry: PriorEntry, note: Notification, a: Account, max: int)
    requires run.phase.Invoking? && Follows(run, a, max)
    ensures Follows(AfterTool(run, entry, note, max, false), ToolDone(a, note, max), max)
  {
    var mid := EmitTo(run.(prior := run.prior + [entry]), note);
    assert mid.emitted == a.told + [note] && mid.calls == run.calls;
    hide InvokesIn, LoopHead;
    HeadFollows(mid, run.phase.i + 1, Account(a.told + [note], run.phase.i + 1, None, a.asked), max);
    hide Follows;
  }

  lemma OtherStepsKeepRun(w: World, step: Step, r: nat)
    requires Enabled(w, step) && r < |w.runs| && !Concerns(step, r)
    ensures r < |Apply(w, step).runs| && Apply(w, step).runs[r] == w.runs[r]
  {
    hide RunStep, LoopHead;
  }

  lemma AbortedStay(w: World, step: Step)
    requires Enabled(w, step)
    ensures forall r :: r in w.aborted ==> r in Apply(w, step).aborted
    ensures Apply(w, step).maxToolCalls == w.maxToolCalls
  {
    hide RunStep, LoopHead;
  }

  lemma {:induction false} AbortedStayAborted(w: World, steps: seq<Step>, r: nat)
    requires Execution(w, steps) && r in w.aborted
    ensures r in Final(w, steps).aborted
    decreases |steps|
  {
    if steps == [] {
    } else {
      hide Enabled, Apply;
      AbortedStay(w, steps[0]);
      AbortedStayAborted(Apply(w, steps[0]), steps[1..], r);
    }
  }

  lemma ConcerningStep(w: World, step: Step, r: nat, a: Account)
    requires Enabled(w, step) && Concerns(step, r) && r < |w.runs| && r !in w.aborted
      && Follows(w.runs[r], a, w.maxToolCalls)
    requires w.runs[r].phase != Finished
    ensures r < |Apply(w, step).runs|
    ensures Follows(Apply(w, step).runs[r], Account1(a, step, w.maxToolCalls), w.maxToolCalls)
  {
    StepFollows(w.runs[r], step, a, w.maxToolCalls);
    hide Follows, RunStep, Account1;
  }

  lemma {:induction false} RunFollows(w: World, steps: seq<Step>, r: nat, a: Account)
    requires Execution(w, steps) && r < |w.runs| && r !in Final(w, steps).aborted
      && Follows(w.runs[r], a, w.maxToolCalls)
    ensures r < |Final(w, steps).runs|
    ensures Follows(Final(w, steps).runs[r], AccountOf(a, steps, r, w.maxToolCalls), w.maxToolCalls)
    decreases |steps|
  {
    if steps == [] {
    } else {
      var step := steps[0];
      var w1 := Apply(w, step);
      if r in w.aborted { AbortedStayAborted(w, steps, r); }
      if Concerns(step, r) {
        NotFinished(w, step, r);
        ConcerningStep(w, step, r, a);
      } else {
        OtherStepsKeepRun(w, step, r);
      }
      AbortedStay(w, step);
      hide Enabled, Apply, Follows, Account1, Concerns;
      RunFollows(w1, steps[1..], r, if Concerns(step, r) then Account1(a, step, w.maxToolCalls) else a);
    }
  }

  lemma NotFinished(w: World, step: Step, r: nat)
    requires Enabled(w, step) && Concerns(step, r)
    ensures r < |w.runs| && w.runs[r].phase != Finished
  {
  }

  /**
   * In every execution, a run that is never aborted emits exactly what its settled awaits call for: clarifications,
   * model errors and invalid actions as decided, each chunk once and in order, tool outcomes under the name decided,
   * the budget error after the last permitted tool; and it begins exactly the tool calls decided, in order.
   */
  lemma TraceIsAccount(max: int, before: seq<Step>, s: Session, after: seq<Step>)
    requires Execution(InitWorld(max), before)
    requires Execution(StartStep(Final(InitWorld(max), before), s), after)
    requires |Final(InitWorld(max), before).runs| !in Final(StartStep(Final(InitWorld(max), before), s), after).aborted
    ensures var r := |Final(InitWorld(max), before).runs|;
      var end := Final(StartStep(Final(InitWorld(max), before), s), after);
      var start := if max <= 0 then Told(BLANK, [ErrorNote(BudgetExceeded)]) else BLANK;
      && r < |end.runs|
      && end.runs[r].emitted == AccountOf(start, after, r, max).told
      && InvokesIn(end.runs[r].calls) == AccountOf(start, after, r, max).asked
  {
    Reachable(max, before);
    var w := Final(InitWorld(max), before);
    var w1 := StartStep(w, s);
    var r := |w.runs|;
    HeadFollows(Run(s, Finished, [], [], [], false), 0, BLANK, max);
    assert w1.runs[r] == LoopHead(Run(s, Finished, [], [], [], false), 0, max, false);
    hide LoopHead, InvokesIn;
    RunFollows(w1, after, r, if max <= 0 then Told(BLANK, [ErrorNote(BudgetExceeded)]) else BLANK);
  }

  // ---- what a reader of the trace sees ----

  /** The texts of the answer chunks among the notifications, in order. */
  function ChunkTexts(notes: seq<Notification>): seq<Text> {
    if notes == [] then []
    else (if notes[0].AnswerChunk? then [notes[0].text] else []) + ChunkTexts(notes[1..])
  }

  lemma {:induction false} ChunkTextsAppend(a: seq<Notification>, b: seq<Notification>)
    ensures ChunkTexts(a + b) == ChunkTexts(a) + ChunkTexts(b)
  {
    if a == [] {
      assert a + b == b;
    } else {
      assert (a + b)[1..] == a[1..] + b;
      ChunkTextsAppend(a[1..], b);
    }
  }

  /** What a step hands to run `r` to show as a chunk: a yielded text, or the text for a failed model call or stream. */
  function YieldedBy(step: Step, r: nat): seq<Text> {
    match step
    case ChunkYielded(q, text) => if q == r then [text] else []
    case DecideThrew(q, Some(reply)) => if q == r then [reply] else []
    case StreamThrew(q, Some(reply)) => if q == r then [reply] else []
    case _ => []
  }

  function Yielded(steps: seq<Step>, r: nat): seq<Text> {
    if steps == [] then [] else YieldedBy(steps[0], r) + Yielded(steps[1..], r)
  }

  lemma ToldChunks(a: Account, notes: seq<Notification>, more: seq<Text>)
    requires ChunkTexts(notes) == more
    ensures ChunkTexts(Told(a, notes).told) == ChunkTexts(a.told) + more
  {
    ChunkTextsAppend(a.told, notes);
  }

  lemma ReplyChunks(a: Account, reply: Text)
    ensures ChunkTexts(Told(a, [AnswerChunk(reply), AnswerDone]).told) == ChunkTexts(a.told) + [reply]
  {
    var notes := [AnswerChunk(reply), AnswerDone];
    assert notes[1..] == [AnswerDone] && ChunkTexts([AnswerDone]) == [];
    ToldChunks(a, notes, [reply]);
  }

  lemma StepChunks(a: Account, step: Step, r: nat, max: int)
    requires Concerns(step, r)
    ensures ChunkTexts(Account1(a, step, max).told) == ChunkTexts(a.told) + YieldedBy(step, r)
  {
    match step
    case DecideResolved(_, Some(Clarify(prompt))) => ToldChunks(a, [Clarification(prompt)], []);
    case DecideResolved(_, Some(Fail(message))) => ToldChunks(a, [ErrorNote(FromModel(message))], []);
    case DecideResolved(_, None) => ToldChunks(a, [ErrorNote(InvalidAction)], []);
    case DecideThrew(_, Some(reply)) => ReplyChunks(a, reply);
    case StreamThrew(_, Some(reply)) => ReplyChunks(a, reply);
    case ToolResolved(_, result) =>
      if a.tool != None { ToolDoneChunks(a, ToolInvoked(a.tool.value.0, result), max); }
    case ToolThrew(_, Some(message)) =>
      if a.tool != None { ToolDoneChunks(a, ToolFailed(a.tool.value.0, message), max); }
    case ChunkYielded(_, text) => ToldChunks(a, [AnswerChunk(text)], [text]);
    case StreamEnded(_) => ToldChunks(a, [AnswerDone], []);
    case _ =>
  }

  lemma ToolDoneChunks(a: Account, note: Notification, max: int)
    requires IsToolNote(note)
    ensures ChunkTexts(ToolDone(a, note, max).told) == ChunkTexts(a.told)
  {
    ToldChunks(a, [note], []);
    ToldChunks(Told(a, [note]), [ErrorNote(BudgetExceeded)], []);
  }

  lemma StepOrNoChunks(a: Account, step: Step, r: nat, max: int)
    ensures var b := if Concerns(step, r) then Account1(a, step, max) else a;
      ChunkTexts(b.told) == ChunkTexts(a.told) + YieldedBy(step, r)
  {
    hide ChunkTexts, Account1;
    if Concerns(step, r) { StepChunks(a, step, r, max); }
  }

  /** The account and the yielded texts after one more step at the front. */
  lemma FirstStep(a: Account, steps: seq<Step>, r: nat, max: int)
    requires steps != []
    ensures AccountOf(a, steps, r, max)
      == AccountOf(if Concerns(steps[0], r) then Account1(a, steps[0], max) else a, steps[1..], r, max)
    ensures Yielded(steps, r) == YieldedBy(steps[0], r) + Yielded(steps[1..], r)
  {
    hide Account1, YieldedBy, Concerns;
  }

  lemma NoSteps(a: Account, r: nat, max: int)
    ensures AccountOf(a, [], r, max) == a && Yielded([], r) == []
  {
  }

  lemma {:induction false} AccountChunks(a: Account, steps: seq<Step>, r: nat, max: int)
    ensures ChunkTexts(AccountOf(a, steps, r, max).told) == ChunkTexts(a.told) + Yielded(steps, r)
    decreases |steps|
  {
    hide *;
    if steps == [] {
      NoSteps(a, r, max);
    } else {
      var b := if Concerns(steps[0], r) then Account1(a, steps[0], max) else a;
      FirstStep(a, steps, r, max);
      StepOrNoChunks(a, steps[0], r, max);
      AccountChunks(b, steps[1..], r, max);
      Splitting.Associative(ChunkTexts(a.told), YieldedBy(steps[0], r), Yielded(steps[1..], r));
    }
  }

  /** A run that is never aborted shows exactly the texts its awaits yielded, each once and in order. */
  lemma ChunksAreYieldedTexts(max: int, before: seq<Step>, s: Session, after: seq<Step>)
    requires Execution(InitWorld(max), before)
    requires Execution(StartStep(Final(InitWorld(max), before), s), after)
    requires |Final(InitWorld(max), before).runs| !in Final(StartStep(Final(InitWorld(max), before), s), after).aborted
    ensures var r := |Final(InitWorld(max), before).runs|;
      var end := Final(StartStep(Final(InitWorld(max), before), s), after);
      r < |end.runs| && ChunkTexts(end.runs[r].emitted) == Yielded(after, r)
  {
    TraceIsAccount(max, before, s, after);
    var r := |Final(InitWorld(max), before).runs|;
    var start := if max <= 0 then Told(BLANK, [ErrorNote(BudgetExceeded)]) else BLANK;
    AccountChunks(start, after, r, max);
    assert ChunkTexts(start.told) == [];
  }

  /** The step is one that ends an un-aborted run which has told `told` notifications. */
  predicate Ends(step: Step, told: nat, max: int) {
    match step
    case DecideResolved(_, Some(action)) => action.Clarify? || action.Fail?
    case ToolResolved(_, _) => told + 1 == max
    case ToolThrew(_, message) => message == None || told + 1 == max
    case ChunkYielded(_, _) => false
    case _ => true
  }

  /** The last notification of a run, against the step that ended it. */
  ghost predicate LastNoteTells(last: Notification, step: Step)
    requires !step.Start? && !step.Cancel?
  {
    && (forall p :: last == Clarification(p) <==> step == DecideResolved(step.run, Some(Clarify(p))))
    && (forall m :: last == ErrorNote(FromModel(m)) <==> step == DecideResolved(step.run, Some(Fail(m))))
    && (last == ErrorNote(InvalidAction) <==> step == DecideResolved(step.run, None))
    && (last == AnswerDone <==> step.StreamEnded? || step.StreamThrew? || step.DecideThrew?)
    && (last == ErrorNote(BudgetExceeded) <==> step.ToolResolved? || step.ToolThrew?)
    && last != CancelledNote
  }

  lemma EndOfRun(run: Run, step: Step, max: int)
    requires RunOk(run, max) && RunReady(run, step) && run.phase != Finished && !step.Start? && !step.Cancel?
    ensures var run' := RunStep(run, step, max, false);
      && (run'.phase == Finished <==> Ends(step, |run.emitted|, max))
      && (run'.phase == Finished && !RejectsBare(step) ==>
            run'.emitted != [] && LastNoteTells(run'.emitted[|run'.emitted| - 1], step))
  {
    hide TruncateToolResult, DecidesOk, Pairs, ToolsThenChunks;
  }

  /**
   * Which step ends a run that is not aborted, and that the run's last notification, for good, is fixed by that step:
   * a clarification exactly on a clarify action and with its prompt, and so on.
   */
  lemma LastNoteIsFixedByEndingStep(max: int, before: seq<Step>, step: Step, after: seq<Step>)
    requires Execution(InitWorld(max), before) && Enabled(Final(InitWorld(max), before), step)
    requires !step.Start? && !step.Cancel? && step.run !in Final(InitWorld(max), before).aborted
    requires Execution(Apply(Final(InitWorld(max), before), step), after)
    ensures var w := Final(InitWorld(max), before);
      var w' := Apply(w, step);
      var end := Final(w', after);
      && (w'.runs[step.run].phase == Finished <==> Ends(step, |w.runs[step.run].emitted|, max))
      && (Ends(step, |w.runs[step.run].emitted|, max) && !RejectsBare(step) ==>
            && step.run < |end.runs|
            && var told := end.runs[step.run].emitted;
               told != [] && LastNoteTells(told[|told| - 1], step))
  {
    Reachable(max, before);
    var w := Final(InitWorld(max), before);
    var w' := Apply(w, step);
    NotFinished(w, step, step.run);
    assert RunOk(w.runs[step.run], max);
    EndOfRun(w.runs[step.run], step, max);
    hide RunStep, Inv, LastNoteTells, RunOk, Ends;
    if w'.runs[step.run].phase == Finished { FinishedRunsStay(w', after, step.run); }
  }

  // ---- what the model is shown ----

  /** The history of `n` tool calls, with an answer decided after them. */
  ghost predicate ThenAnswer(shown: seq<PriorEntry>, told: seq<Notification>, n: nat, draft: Text) {
    && |shown| == 2 * n + 1 && Pairs(shown[..2 * n], told, n)
    && shown[2 * n] == Decided(Answer(draft))
  }

  lemma AnswerCalls(run: Run, step: Step, max: int, aborted: bool)
    requires RunOk(run, max) && RunReady(run, step) && run.phase != Finished && !step.Start? && !step.Cancel?
    ensures var calls := RunStep(run, step, max, aborted).calls;
      && run.calls <= calls && |calls| <= |run.calls| + 1
      && (|calls| > |run.calls| && calls[|run.calls|].Stream? <==>
            !aborted && step.DecideResolved? && step.action.Some? && step.action.value.Answer?)
      && (|calls| > |run.calls| && calls[|run.calls|].Stream? ==>
            ThenAnswer(calls[|run.calls|].prior, run.emitted, |run.emitted|, step.action.value.draft))
  {
    hide TruncateToolResult, DecidesOk, ToolsThenChunks, Pairs;
    if step.DecideResolved? && step.action.Some? {
      PriorLength(run, max);
      assert (run.prior + [Decided(step.action.value)])[..2 * |run.emitted|] == run.prior;
    }
  }

  lemma PriorLength(run: Run, max: int)
    requires RunOk(run, max) && run.phase.Deciding?
    ensures |run.prior| == 2 * |run.emitted|
  {
  }

  /**
   * An answer is streamed exactly when one is decided and the run is not aborted, and the streaming call is shown all
   * tool calls made so far, each with its clipped result or its error, and then the answer decided.
   */
  lemma StreamSeesHistory(max: int, before: seq<Step>, step: Step)
    requires Execution(InitWorld(max), before) && Enabled(Final(InitWorld(max), before), step)
    requires !step.Start? && !step.Cancel?
    ensures var w := Final(InitWorld(max), before);
      var run, run' := w.runs[step.run], Apply(w, step).runs[step.run];
      && run.calls <= run'.calls && |run'.calls| <= |run.calls| + 1
      && (|run'.calls| > |run.calls| && run'.calls[|run.calls|].Stream? <==>
            step.run !in w.aborted && step.DecideResolved? && step.action.Some? && step.action.value.Answer?)
      && (|run'.calls| > |run.calls| && run'.calls[|run.calls|].Stream? ==>
            ThenAnswer(run'.calls[|run.calls|].prior, run.emitted, |run.emitted|, step.action.value.draft))
  {
    Reachable(max, before);
    var w := Final(InitWorld(max), before);
    NotFinished(w, step, step.run);
    assert RunOk(w.runs[step.run], max);
    AnswerCalls(w.runs[step.run], step, max, step.run in w.aborted);
    hide RunStep, Inv, RunOk, ThenAnswer;
  }
}
