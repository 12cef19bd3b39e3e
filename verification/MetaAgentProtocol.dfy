/**
 * The browser meta-agent loop as a transition system: any number of overlapping `runPrompt` calls share one
 * registry of abort controllers.  One step is the code from one settled await to the next await.
 */
module MetaAgentProtocol {
  import opened Options
  import opened JsText
  import opened ToolResults

  datatype Session = Session(id: Text)

  datatype Action = ToolCall(tool: Text, args: Text) | Answer(draft: Text) | Clarify(prompt: Text) | Fail(message: Text)

  datatype Notification =
    | ToolInvoked(tool: Text, result: ToolValue)
    | ToolFailed(tool: Text, message: Text)
    | AnswerChunk(text: Text)
    | AnswerDone
    | Clarification(prompt: Text)
    | ErrorNote(reason: ErrorReason)
    | CancelledNote

  datatype ErrorReason = InvalidAction | BudgetExceeded | FromModel(message: Text)

  datatype PriorEntry =
    | Decided(action: Action)
    | ToolResult(tool: Text, args: Text, result: ToolValue, truncated: bool)
    | ToolError(tool: Text, args: Text, message: Text)

  /** A call begun on the adapter or the tool registry. */
  datatype Call = Decide(prior: seq<PriorEntry>) | Invoke(tool: Text, args: Text) | Stream(prior: seq<PriorEntry>)

  /** What a run is waiting for; `Closing` is the iterator's `return()`, awaited after a break out of the stream. */
  datatype Phase =
    | Deciding(i: nat)
    | Invoking(i: nat, tool: Text, args: Text)
    | Streaming(i: nat)
    | Closing(i: nat)
    | Finished

  /** `rejected`: the promise of this `runPrompt` call was rejected. */
  datatype Run = Run(
    session: Session, phase: Phase, prior: seq<PriorEntry>, emitted: seq<Notification>, calls: seq<Call>,
      rejected: bool)

  /** How much a run had emitted and called when its signal was aborted. */
  datatype Mark = Mark(emitted: nat, calls: nat)

  /** A controller is named by the run that created it; runs are numbered in the order they start. */
  datatype World = World(maxToolCalls: int, controllers: map<Session, nat>, aborted: map<nat, Mark>, runs: seq<Run>)

  /**
   * A rejection carries the text shown for its reason.  None stands for a reason that is `null` or `undefined`, on
   * which the handler itself throws.
   */
  datatype Step =
    | Start(session: Session)
    | Cancel(session: Session)
    | DecideResolved(run: nat, action: Option<Action>)
    | DecideThrew(run: nat, reply: Option<Text>)
    | ToolResolved(run: nat, result: ToolValue)
    | ToolThrew(run: nat, message: Option<Text>)
    | ChunkYielded(run: nat, text: Text)
    /** The stream is exhausted, or its `return()` has settled. */
    | StreamEnded(run: nat)
    /** The stream failed, or its `return()` rejected. */
    | StreamThrew(run: nat, reply: Option<Text>)

  // ---- one run ----

  function EmitTo(run: Run, n: Notification): Run {
    run.(emitted := run.emitted + [n])
  }

  function End(run: Run, n: Notification): Run {
    EmitTo(run, n).(phase := Finished)
  }

  /** The run ends with its promise rejected and without a last notification. */
  function Reject(run: Run): Run {
    run.(phase := Finished, rejected := true)
  }

  /** A rejected model call or stream is answered as well as possible. */
  function AnswerFailure(run: Run, reply: Option<Text>): Run {
    match reply
    case None => Reject(run)
    case Some(text) => End(EmitTo(run, AnswerChunk(text)), AnswerDone)
  }

  /** From the head of iteration `i` up to the next await or the end. */
  function LoopHead(run: Run, i: nat, maxToolCalls: int, aborted: bool): Run {
    if i >= maxToolCalls then End(run, ErrorNote(BudgetExceeded))
    else if aborted then End(run, CancelledNote)
    else run.(calls := run.calls + [Decide(run.prior)], phase := Deciding(i))
  }

  function AfterDecide(run: Run, i: nat, action: Option<Action>, aborted: bool): Run {
    if aborted then End(run, CancelledNote)
    else
      match action
      case None => End(run, ErrorNote(InvalidAction))
      case Some(a) =>
        var run' := run.(prior := run.prior + [Decided(a)]);
        match a
        case ToolCall(tool, args) => run'.(calls := run.calls + [Invoke(tool, args)], phase := Invoking(i, tool, args))
        case Answer(_) => run'.(calls := run.calls + [Stream(run'.prior)], phase := Streaming(i))
        case Clarify(prompt) => End(run', Clarification(prompt))
        case Fail(message) => End(run', ErrorNote(FromModel(message)))
  }

  function AfterTool(run: Run, entry: PriorEntry, note: Notification, maxToolCalls: int, aborted: bool): Run
    requires run.phase.Invoking?
  {
    LoopHead(EmitTo(run.(prior := run.prior + [entry]), note), run.phase.i + 1, maxToolCalls, aborted)
  }

  function ResultEntry(run: Run, result: ToolValue): PriorEntry
    requires run.phase.Invoking?
  {
    var clipped := TruncateToolResult(result);
    ToolResult(run.phase.tool, run.phase.args, clipped.value, clipped.truncated)
  }

  function RunStep(run: Run, step: Step, maxToolCalls: int, aborted: bool): Run
    requires RunReady(run, step)
  {
    match step
    case DecideResolved(_, action) => AfterDecide(run, run.phase.i, action, aborted)
    case DecideThrew(_, reply) => AnswerFailure(run, reply)
    case ToolResolved(_, result) =>
      AfterTool(run, ResultEntry(run, result), ToolInvoked(run.phase.tool, result), maxToolCalls, aborted)
    case ToolThrew(_, None) => Reject(run)
    case ToolThrew(_, Some(message)) =>
      var entry, note := ToolError(run.phase.tool, run.phase.args, message), ToolFailed(run.phase.tool, message);
      AfterTool(run, entry, note, maxToolCalls, aborted)
    case ChunkYielded(_, text) => if aborted then run.(phase := Closing(run.phase.i))
      else EmitTo(run, AnswerChunk(text))
    case StreamEnded(_) => End(run, if aborted then CancelledNote else AnswerDone)
    case StreamThrew(_, reply) => AnswerFailure(run, reply)
    case _ => run
  }

  /** The step settles what the run is waiting for. */
  predicate RunReady(run: Run, step: Step) {
    match step
    case DecideResolved(_, _) => run.phase.Deciding?
    case DecideThrew(_, _) => run.phase.Deciding?
    case ToolResolved(_, _) => run.phase.Invoking?
    case ToolThrew(_, _) => run.phase.Invoking?
    case ChunkYielded(_, _) => run.phase.Streaming?
    case StreamEnded(_) => run.phase.Streaming? || run.phase.Closing?
    case StreamThrew(_, _) => run.phase.Streaming? || run.phase.Closing?
    case _ => true
  }

  // ---- the shared registry ----

  predicate Enabled(w: World, step: Step) {
    step.Start? || step.Cancel? || (step.run < |w.runs| && RunReady(w.runs[step.run], step))
  }

  /** The `finally` block: a finished run clears the slot only if it still owns it. */
  function ReleaseSlot(controllers: map<Session, nat>, r: nat, run: Run): map<Session, nat> {
    if run.phase.Finished? && run.session in controllers && controllers[run.session] == r
    then controllers - {run.session}
    else controllers
  }

  /** The synchronous part of `runPrompt`; the first iteration replaces the blank run's phase. */
  function StartStep(w: World, session: Session): World {
    var r := |w.runs|;
    var run := LoopHead(Run(session, Finished, [], [], [], false), 0, w.maxToolCalls, false);
    w.(controllers := ReleaseSlot(w.controllers[session := r], r, run), runs := w.runs + [run])
  }

  function CancelStep(w: World, session: Session): World {
    if session !in w.controllers then w
    else
      var r := w.controllers[session];
      w.(controllers := w.controllers - {session},
         aborted := if r < |w.runs| then w.aborted[r := Mark(|w.runs[r].emitted|, |w.runs[r].calls|)] else w.aborted)
  }

  function Apply(w: World, step: Step): World
    requires Enabled(w, step)
  {
    match step
    case Start(session) => StartStep(w, session)
    case Cancel(session) => CancelStep(w, session)
    case _ =>
      var run := RunStep(w.runs[step.run], step, w.maxToolCalls, step.run in w.aborted);
      w.(runs := w.runs[step.run := run], controllers := ReleaseSlot(w.controllers, step.run, run))
  }

  function InitWorld(maxToolCalls: int): World {
    World(maxToolCalls, map[], map[], [])
  }

  predicate Execution(w: World, steps: seq<Step>)
    decreases |steps|
  {
    steps == [] || (Enabled(w, steps[0]) && Execution(Apply(w, steps[0]), steps[1..]))
  }

  function Final(w: World, steps: seq<Step>): World
    requires Execution(w, steps)
    decreases |steps|
  {
    if steps == [] then w else Final(Apply(w, steps[0]), steps[1..])
  }
}
