/** What every interleaving of prompts, cancels and settled awaits keeps. */
module MetaAgentInvariants {
  import opened Options
  import opened JsText
  import opened ToolResults
  import opened MetaAgentProtocol

  // ---- one run: the shape of its trace and of the history it shows the model ----

  ghost predicate IsToolNote(n: Notification) {
    n.ToolInvoked? || n.ToolFailed?
  }

  ghost predicate IsTerminal(n: Notification) {
    n.AnswerDone? || n.Clarification? || n.ErrorNote? || n.CancelledNote?
  }

  /** The first `k` notifications are tool outcomes, all later ones answer chunks. */
  ghost predicate ToolsThenChunks(emitted: seq<Notification>, k: nat) {
    && k <= |emitted|
    && (forall j :: 0 <= j < k ==> IsToolNote(emitted[j]))
    && (forall j :: k <= j < |emitted| ==> emitted[j].AnswerChunk?)
  }

  /** Tool outcomes, at most `max` of them, then chunks. */
  ghost predicate TraceBody(body: seq<Notification>, max: int) {
    exists k: nat :: ToolsThenChunks(body, k) && (k == 0 || k <= max)
  }

  /** At most `max` tool outcomes, then answer chunks, then exactly one terminal notification, the last. */
  ghost predicate CompleteTrace(emitted: seq<Notification>, max: int) {
    && emitted != []
    && IsTerminal(emitted[|emitted| - 1])
    && TraceBody(emitted[..|emitted| - 1], max)
  }

  /** One tool call in the history with its outcome, against the notification emitted for it. */
  ghost predicate PairOk(call: PriorEntry, outcome: PriorEntry, note: Notification) {
    && call.Decided? && call.action.ToolCall?
    && match outcome
       case Decided(_) => false
       case ToolResult(tool, args, result, truncated) =>
         && tool == call.action.tool && args == call.action.args && FitsPrompt(result)
         && note.ToolInvoked? && note.tool == tool && TruncateToolResult(note.result) == Clipped(result, truncated)
       case ToolError(tool, args, message) =>
         tool == call.action.tool && args == call.action.args && note == ToolFailed(tool, message)
  }

  /** `n` matching tool / tool-result pairs, one per notification. */
  ghost predicate Pairs(prior: seq<PriorEntry>, emitted: seq<Notification>, n: nat) {
    && |prior| == 2 * n && n <= |emitted|
    && forall j :: 0 <= j < n ==> PairOk(prior[2 * j], prior[2 * j + 1], emitted[j])
  }

  function DecidePriors(calls: seq<Call>): seq<seq<PriorEntry>> {
    if calls == [] then []
    else
      var last := calls[|calls| - 1];
      DecidePriors(calls[..|calls| - 1]) + (if last.Decide? then [last.prior] else [])
  }

  /** At the i-th decide call the history held i pairs. */
  ghost predicate DecidesOk(run: Run, n: nat) {
    && |DecidePriors(run.calls)| == n
    && forall i :: 0 <= i < n ==> Pairs(DecidePriors(run.calls)[i], run.emitted, i)
  }

  ghost predicate RunOk(run: Run, max: int) {
    (run.rejected ==> run.phase.Finished?) && PhaseOk(run, max)
  }

  ghost predicate PhaseOk(run: Run, max: int) {
    match run.phase
    case Deciding(i) =>
      i < max && |run.emitted| == i && ToolsThenChunks(run.emitted, i) && Pairs(run.prior, run.emitted, i)
        && DecidesOk(run, i + 1)
    case Invoking(i, tool, args) =>
      && i < max && |run.emitted| == i && ToolsThenChunks(run.emitted, i)
      && |run.prior| == 2 * i + 1 && Pairs(run.prior[..2 * i], run.emitted, i)
        && run.prior[2 * i] == Decided(ToolCall(tool, args))
      && DecidesOk(run, i + 1)
    case Streaming(i) =>
      i < max && ToolsThenChunks(run.emitted, i) && DecidesOk(run, i + 1)
    case Closing(i) =>
      i < max && ToolsThenChunks(run.emitted, i) && DecidesOk(run, i + 1)
    case Finished =>
      && (if run.rejected then TraceBody(run.emitted, max) else CompleteTrace(run.emitted, max))
      && exists n: nat :: DecidesOk(run, n) && (n == 0 || n <= max)
  }

  lemma PairsExtend(prior: seq<PriorEntry>, emitted: seq<Notification>, n: nat, more: seq<Notification>)
    requires Pairs(prior, emitted, n)
    ensures Pairs(prior, emitted + more, n)
  {
  }

  /** Notifications and calls that are not decides leave the decide record alone. */
  lemma DecidesKept(run: Run, n: nat, notes: seq<Notification>, run': Run)
    requires DecidesOk(run, n) && run'.emitted == run.emitted + notes
    requires run'.calls == run.calls || (exists c: Call :: !c.Decide? && run'.calls == run.calls + [c])
    ensures DecidesOk(run', n)
  {
    if run'.calls != run.calls { assert run'.calls[..|run'.calls| - 1] == run.calls; }
    forall i | 0 <= i < n ensures Pairs(DecidePriors(run'.calls)[i], run'.emitted, i) {
      PairsExtend(DecidePriors(run.calls)[i], run.emitted, i, notes);
    }
  }

  lemma DecideAdded(run: Run, n: nat)
    requires DecidesOk(run, n) && Pairs(run.prior, run.emitted, n)
    ensures DecidesOk(run.(calls := run.calls + [Decide(run.prior)]), n + 1)
  {
    var calls := run.calls + [Decide(run.prior)];
    assert calls[..|calls| - 1] == run.calls;
  }

  lemma EndOk(run: Run, n: Notification, k: nat, max: int, decides: nat)
    requires ToolsThenChunks(run.emitted, k) && (k == 0 || k <= max) && IsTerminal(n) && !run.rejected
    requires DecidesOk(run, decides) && (decides == 0 || decides <= max)
    ensures RunOk(End(run, n), max)
  {
    var run' := End(run, n);
    assert run'.emitted[..|run'.emitted| - 1] == run.emitted;
    DecidesKept(run, decides, [n], run');
  }

  lemma RejectOk(run: Run, k: nat, max: int, decides: nat)
    requires ToolsThenChunks(run.emitted, k) && (k == 0 || k <= max)
    requires DecidesOk(run, decides) && (decides == 0 || decides <= max)
    ensures RunOk(Reject(run), max)
  {
    DecidesKept(run, decides, [], Reject(run));
  }

  lemma AnswerFailureOk(run: Run, reply: Option<Text>, k: nat, max: int, decides: nat)
    requires ToolsThenChunks(run.emitted, k) && (k == 0 || k <= max) && !run.rejected
    requires DecidesOk(run, decides) && (decides == 0 || decides <= max)
    ensures RunOk(AnswerFailure(run, reply), max)
  {
    match reply
    case None => RejectOk(run, k, max, decides);
    case Some(text) =>
      DecidesKept(run, decides, [AnswerChunk(text)], EmitTo(run, AnswerChunk(text)));
      EndOk(EmitTo(run, AnswerChunk(text)), AnswerDone, k, max, decides);
  }

  lemma LoopHeadOk(run: Run, i: nat, max: int, aborted: bool)
    requires |run.emitted| == i && ToolsThenChunks(run.emitted, i) && Pairs(run.prior, run.emitted, i)
    requires DecidesOk(run, i) && (i == 0 || i <= max) && !run.rejected
    ensures RunOk(LoopHead(run, i, max, aborted), max)
  {
    if i >= max {
      EndOk(run, ErrorNote(BudgetExceeded), i, max, i);
    } else if aborted {
      EndOk(run, CancelledNote, i, max, i);
    } else {
      DecideAdded(run, i);
      var run' := LoopHead(run, i, max, aborted);
      assert DecidesOk(run', i + 1);
    }
  }

  lemma AfterDecideOk(run: Run, action: Option<Action>, max: int, aborted: bool)
    requires RunOk(run, max) && run.phase.Deciding?
    ensures RunOk(AfterDecide(run, run.phase.i, action, aborted), max)
  {
    var i := run.phase.i;
    var run' := AfterDecide(run, i, action, aborted);
    if aborted {
      EndOk(run, CancelledNote, i, max, i + 1);
    } else if action == None {
      EndOk(run, ErrorNote(InvalidAction), i, max, i + 1);
    } else {
      var mid := run.(prior := run.prior + [Decided(action.value)]);
      DecidesKept(run, i + 1, [], mid);
      match action.value
      case ToolCall(tool, args) =>
        DecidesKept(run, i + 1, [], run');
        assert run'.prior[..2 * i] == run.prior;
      case Answer(_) => DecidesKept(run, i + 1, [], run');
      case Clarify(prompt) => EndOk(mid, Clarification(prompt), i, max, i + 1);
      case Fail(message) => EndOk(mid, ErrorNote(FromModel(message)), i, max, i + 1);
    }
  }

  lemma PairAppended(prior: seq<PriorEntry>, emitted: seq<Notification>, i: nat, entry: PriorEntry, note: Notification)
    requires |prior| == 2 * i + 1 && |emitted| == i && Pairs(prior[..2 * i], emitted, i)
    requires PairOk(prior[2 * i], entry, note)
    ensures Pairs(prior + [entry], emitted + [note], i + 1)
  {
    var p, e := prior + [entry], emitted + [note];
    forall j | 0 <= j < i + 1 ensures PairOk(p[2 * j], p[2 * j + 1], e[j]) {
      if j < i {
        assert prior[..2 * i][2 * j] == p[2 * j] && prior[..2 * i][2 * j + 1] == p[2 * j + 1];
      }
    }
  }

  lemma AfterToolOk(run: Run, entry: PriorEntry, note: Notification, max: int, aborted: bool)
    requires RunOk(run, max) && run.phase.Invoking? && IsToolNote(note)
    requires PairOk(Decided(ToolCall(run.phase.tool, run.phase.args)), entry, note)
    ensures RunOk(AfterTool(run, entry, note, max, aborted), max)
  {
    var i := run.phase.i;
    var run' := EmitTo(run.(prior := run.prior + [entry]), note);
    PairAppended(run.prior, run.emitted, i, entry, note);
    DecidesKept(run, i + 1, [note], run');
    LoopHeadOk(run', i + 1, max, aborted);
  }

  lemma StreamOk(run: Run, step: Step, max: int, aborted: bool)
    requires RunOk(run, max) && (run.phase.Streaming? || run.phase.Closing?) && RunReady(run, step)
    ensures RunOk(RunStep(run, step, max, aborted), max)
  {
    var i := run.phase.i;
    match step
    case ChunkYielded(_, text) =>
      if aborted { DecidesKept(run, i + 1, [], run.(phase := Closing(i))); }
      else { DecidesKept(run, i + 1, [AnswerChunk(text)], EmitTo(run, AnswerChunk(text))); }
    case StreamEnded(_) => EndOk(run, if aborted then CancelledNote else AnswerDone, i, max, i + 1);
    case StreamThrew(_, reply) => AnswerFailureOk(run, reply, i, max, i + 1);
    case _ =>
  }

  lemma RunStepOk(run: Run, step: Step, max: int, aborted: bool)
    requires RunOk(run, max) && RunReady(run, step)
    ensures RunOk(RunStep(run, step, max, aborted), max)
  {
    hide RunOk;
    match step
    case DecideResolved(_, action) => AfterDecideOk(run, action, max, aborted);
    case DecideThrew(_, reply) => DecideThrewOk(run, reply, max);
    case ToolResolved(_, result) =>
      TruncateFits(result);
      AfterToolOk(run, ResultEntry(run, result), ToolInvoked(run.phase.tool, result), max, aborted);
    case ToolThrew(_, None) => ToolRejectOk(run, max);
    case ToolThrew(_, Some(message)) =>
      AfterToolOk(run, ToolError(run.phase.tool, run.phase.args, message), ToolFailed(run.phase.tool, message), max,
        aborted);
    case ChunkYielded(_, _) => StreamOk(run, step, max, aborted);
    case StreamEnded(_) => StreamOk(run, step, max, aborted);
    case StreamThrew(_, _) => StreamOk(run, step, max, aborted);
    case _ =>
  }

  lemma DecideThrewOk(run: Run, reply: Option<Text>, max: int)
    requires RunOk(run, max) && run.phase.Deciding?
    ensures RunOk(AnswerFailure(run, reply), max)
  {
    AnswerFailureOk(run, reply, run.phase.i, max, run.phase.i + 1);
  }

  lemma ToolRejectOk(run: Run, max: int)
    requires RunOk(run, max) && run.phase.Invoking?
    ensures RunOk(Reject(run), max)
  {
    RejectOk(run, run.phase.i, max, run.phase.i + 1);
  }

  // ---- the registry and aborted runs ----

  /** The slot of a session holds the un-aborted controller of its most recently started run, still live. */
  ghost predicate SlotOk(w: World, s: Session) {
    s in w.controllers ==>
      && w.controllers[s] < |w.runs|
      && w.runs[w.controllers[s]].session == s
      && w.runs[w.controllers[s]].phase != Finished
      && w.controllers[s] !in w.aborted
      && (forall q :: w.controllers[s] < q < |w.runs| ==> w.runs[q].session != s)
  }

  /** An aborted run begins no call and, in ending, emits at most two more notifications. */
  ghost predicate AbortOk(run: Run, mark: Mark) {
    && |run.calls| == mark.calls
    && mark.emitted <= |run.emitted| <= mark.emitted + 2
    && (run.phase != Finished ==> |run.emitted| == mark.emitted)
  }

  ghost predicate Inv(w: World) {
    && (forall s :: s in w.controllers ==> SlotOk(w, s))
    && (forall r :: r in w.aborted ==> r < |w.runs| && AbortOk(w.runs[r], w.aborted[r]))
    && (forall r :: 0 <= r < |w.runs| ==> RunOk(w.runs[r], w.maxToolCalls))
  }

  /** The await rejected with no error object, so that its handler throws and the run's promise is rejected. */
  predicate RejectsBare(step: Step) {
    match step
    case DecideThrew(_, reply) => reply == None
    case ToolThrew(_, message) => message == None
    case StreamThrew(_, reply) => reply == None
    case _ => false
  }

  /**
   * After an abort the next settled await ends the run, without a new call and with one or two notifications, or
   * none if it rejected bare; a chunk first closes the stream, without a notification, and then the closing ends it.
   */
  lemma AbortedRunEnds(run: Run, step: Step, max: int)
    requires RunReady(run, step) && run.phase != Finished && !step.Start? && !step.Cancel?
    ensures var run' := RunStep(run, step, max, true);
      && run'.calls == run.calls && run'.session == run.session
      && (run'.phase == Finished <==> !step.ChunkYielded?)
      && (run'.emitted == run.emitted <==> step.ChunkYielded? || RejectsBare(step))
      && |run.emitted| <= |run'.emitted| <= |run.emitted| + 2
      && (run'.phase != Finished ==> run'.phase.Closing?)
    ensures run.phase.Closing? ==> !step.ChunkYielded?
  {
    var run' := RunStep(run, step, max, true);
    assert run'.emitted != run.emitted ==> |run'.emitted| > |run.emitted|;
  }

  lemma RunStepSession(run: Run, step: Step, max: int, aborted: bool)
    requires RunReady(run, step)
    ensures RunStep(run, step, max, aborted).session == run.session
    ensures run.phase == Finished ==> RunStep(run, step, max, aborted) == run
  {
  }

  lemma BlankRunOk(s: Session, max: int)
    ensures RunOk(LoopHead(Run(s, Finished, [], [], [], false), 0, max, false), max)
  {
    var blank := Run(s, Finished, [], [], [], false);
    assert DecidesOk(blank, 0);
    LoopHeadOk(blank, 0, max, false);
  }

  lemma StartKeeps(w: World, s: Session)
    requires Inv(w)
    ensures Inv(StartStep(w, s))
  {
    hide RunOk, AbortOk, Pairs, DecidesOk, ToolsThenChunks;
    var w' := StartStep(w, s);
    var r := |w.runs|;
    BlankRunOk(s, w.maxToolCalls);
    forall q | 0 <= q < |w'.runs| ensures RunOk(w'.runs[q], w'.maxToolCalls) {
      if q < r { assert w'.runs[q] == w.runs[q]; }
    }
    forall t | t in w'.controllers ensures SlotOk(w', t) {
      if t != s {
        assert SlotOk(w, t);
      }
    }
  }

  lemma CancelKeeps(w: World, s: Session)
    requires Inv(w)
    ensures Inv(CancelStep(w, s))
  {
    hide RunOk;
    if s in w.controllers {
      assert SlotOk(w, s);
      var w' := CancelStep(w, s);
      var r := w.controllers[s];
      forall t | t in w'.controllers ensures SlotOk(w', t) {
        assert SlotOk(w, t);
      }
    }
  }

  /** A finishing run takes away at most its own slot; every other slot stays in order. */
  lemma SlotsAfterSettle(w: World, r: nat, run: Run)
    requires r < |w.runs| && run.session == w.runs[r].session
    requires forall s :: s in w.controllers ==> SlotOk(w, s)
    ensures var w' := w.(runs := w.runs[r := run], controllers := ReleaseSlot(w.controllers, r, run));
      forall s :: s in w'.controllers ==> SlotOk(w', s)
  {
    var w' := w.(runs := w.runs[r := run], controllers := ReleaseSlot(w.controllers, r, run));
    forall s | s in w'.controllers ensures SlotOk(w', s) {
      assert SlotOk(w, s);
    }
  }

  lemma SettleKeeps(w: World, step: Step)
    requires Inv(w) && Enabled(w, step) && !step.Start? && !step.Cancel?
    ensures Inv(Apply(w, step))
  {
    var r := step.run;
    var run := w.runs[r];
    RunStepOk(run, step, w.maxToolCalls, r in w.aborted);
    RunStepSession(run, step, w.maxToolCalls, r in w.aborted);
    if r in w.aborted && run.phase != Finished { AbortedRunEnds(run, step, w.maxToolCalls); }
    hide RunOk, RunStep, RunReady, SlotOk;
    SlotsAfterSettle(w, r, RunStep(run, step, w.maxToolCalls, r in w.aborted));
  }

  lemma StepKeepsInv(w: World, step: Step)
    requires Inv(w) && Enabled(w, step)
    ensures Inv(Apply(w, step))
  {
    hide Inv;
    match step
    case Start(s) => StartKeeps(w, s);
    case Cancel(s) => CancelKeeps(w, s);
    case _ => SettleKeeps(w, step);
  }

  lemma {:induction false} EveryReachableStateOk(w: World, steps: seq<Step>)
    requires Inv(w) && Execution(w, steps)
    ensures Inv(Final(w, steps))
    decreases |steps|
  {
    if steps == [] {
    } else {
      hide Inv, Apply, Enabled;
      StepKeepsInv(w, steps[0]);
      EveryReachableStateOk(Apply(w, steps[0]), steps[1..]);
    }
  }
}
