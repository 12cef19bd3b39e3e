/**
 * The playground store as a transition system.  One step is the code that runs between two awaits or timer
 * callbacks; steps of any number of in-flight drivers interleave freely.  Listeners do not re-enter dispatch.
 */
module PlaygroundProtocol {
  import opened Options
  import opened JsText
  import opened PlaygroundReducer

  /** Identity of a runner object; one factory may hand out the same runner twice. */
  datatype RunnerId = RunnerId(n: nat)

  /** Where a driver's async function is suspended. */
  datatype Driver = AwaitingFactory | Prompting(runner: RunnerId) | Settled

  /** Who asked for an event to be appended. */
  datatype Source = Bridged(run: RunId) | ErrorOf(run: RunId) | External

  datatype Entry = Entry(event: Event, source: Source)

  /**
   * The store's closure variables and pending continuations, with three auxiliary records: every event ever
   * appended to a present run, the log positions a replay has re-emitted, and every run id ever used.
   */
  datatype World = World(
    state: State,
    timer: bool,
    drivers: map<RunId, Driver>,
    activeRunner: Option<RunnerId>,
    activeSession: Option<RunId>,
    cancels: seq<(RunnerId, RunId)>,
    log: map<RunId, seq<Entry>>,
    positions: seq<nat>,
    used: set<RunId>)

  datatype Step =
    | DispatchStartRun(runId: RunId, prompt: Text, startedAt: int)
    | DispatchCancelRun(endedAt: int)
    | DispatchReceive(event: Event)
    | DispatchStartReplay(runId: RunId)
    | DispatchStopReplay
    | DispatchClearSessions
    | Tick
    | FactoryResolved(runId: RunId, runner: RunnerId)
    | FactoryRejected(runId: RunId, message: Text, endedAt: int)
    | Notify(runId: RunId, events: seq<Event>)
    | PromptResolved(runId: RunId, endedAt: int)
    | PromptRejected(runId: RunId, message: Text, endedAt: int)

  const INIT: World := World(State(map[], None, None, []), false, map[], None, None, [], map[], [], {})

  function LogOf(w: World, r: RunId): seq<Entry> {
    if r in w.log then w.log[r] else []
  }

  function EventsOf(entries: seq<Entry>): seq<Event> {
    seq(|entries|, i requires 0 <= i < |entries| => entries[i].event)
  }

  /** The full-log index of the next event a replay would re-emit. */
  function NextPosition(w: World): nat {
    if w.state.replayMode == None || w.state.replayMode.value.runId !in w.state.runs then 0
    else
      var rp := w.state.replayMode.value;
      rp.nextIndex + Dropped(w, rp.runId)
  }

  /** How many of a run's events have fallen off the front. */
  function Dropped(w: World, r: RunId): nat
    requires r in w.state.runs
  {
    if |LogOf(w, r)| < |w.state.runs[r].events| then 0 else |LogOf(w, r)| - |w.state.runs[r].events|
  }

  predicate HasActive(w: World) {
    w.state.activeRunId.Some? && w.state.activeRunId.value in w.state.runs
  }

  predicate IsRunning(w: World, r: RunId) {
    r in w.state.runs && w.state.runs[r].status == Running
  }

  // ---- one commit: the reducer plus the auxiliary records ----

  function CommitReceive(w: World, e: Event, source: Source): World {
    var w' := w.(state := Reduce(w.state, ReceiveEvent(e)));
    if HasActive(w) then
      var a := w.state.activeRunId.value;
      w'.(log := w.log[a := LogOf(w, a) + [Entry(e, source)]])
    else w'
  }

  function CommitStart(w: World, runId: RunId, prompt: Text, startedAt: int): World {
    w.(state := Reduce(w.state, StartRun(runId, prompt, startedAt)), log := w.log[runId := []])
  }

  function CommitEnd(w: World, a: Action): World
    requires a.CancelRun? || a.FinalizeRun?
  {
    w.(state := Reduce(w.state, a))
  }

  function CommitStopReplay(w: World): World {
    w.(state := Reduce(w.state, StopReplay), positions := [])
  }

  function CommitStartReplay(w: World, r: RunId): World {
    w.(state := Reduce(w.state, StartReplay(r)), positions := if r in w.state.runs then [] else w.positions)
  }

  function CommitReplayEvent(w: World, e: Event): World
    requires w.state.replayMode.Some?
  {
    var rp := w.state.replayMode.value;
    w.(state := Reduce(w.state, ReceiveReplayEvent(rp.runId, e, rp.nextIndex + 1)), positions := w.positions
      + [NextPosition(w)])
  }

  function CommitClear(w: World): World {
    w.(state := Reduce(w.state, ClearSessions), log := map[], positions := [])
  }

  // ---- the steps ----

  function StartRunStep(w: World, runId: RunId, prompt: Text, startedAt: int): World {
    var w1 := if w.state.replayMode.Some? then CommitStopReplay(w.(timer := false)) else w;
    CommitStart(w1, runId, prompt, startedAt).(
      drivers := w.drivers[runId := AwaitingFactory],
      activeSession := Some(runId),
      used := w.used + {runId})
  }

  function CancelRunStep(w: World, endedAt: int): World {
    var w1 := CommitEnd(w, CancelRun(endedAt));
    if w.activeRunner.Some? && w.activeSession.Some?
    then w1.(cancels := w.cancels + [(w.activeRunner.value, w.activeSession.value)])
    else w1
  }

  function StartReplayStep(w: World, r: RunId): World {
    if r !in w.state.runs then w
    else
      var w1 := CommitStartReplay(w.(timer := false), r);
      if w.state.runs[r].events == [] then CommitStopReplay(w1) else w1.(timer := true)
  }

  /** A replay is on, its source run exists and holds the event to re-emit. */
  predicate TickFindsEvent(w: World) {
    && w.state.replayMode.Some?
    && var rp := w.state.replayMode.value;
       rp.runId in w.state.runs && rp.nextIndex < |w.state.runs[rp.runId].events|
  }

  function TickStep(w: World): World {
    var w0 := w.(timer := false);
    if w.state.replayMode == None then w0
    else if !TickFindsEvent(w) then CommitStopReplay(w0)
    else
      var rp := w.state.replayMode.value;
      var run := w.state.runs[rp.runId];
      var w1 := CommitReplayEvent(w0, run.events[rp.nextIndex]);
      if w1.state.replayMode.Some? && w1.state.replayMode.value.nextIndex < |run.events|
      then w1.(timer := true)
      else CommitStopReplay(w1)
  }

  function FactoryRejectedStep(w: World, r: RunId, message: Text, endedAt: int): World {
    var w1 := CommitReceive(w, RunError(message), ErrorOf(r));
    CommitEnd(w1, FinalizeRun(r, Errored, endedAt)).(drivers := w.drivers[r := Settled])
  }

  /** The events one notification is bridged to; each is dropped unless its run is still the active one. */
  function NotifyStep(w: World, r: RunId, events: seq<Event>): World
    decreases |events|
  {
    if events == [] || w.state.activeRunId != Some(r) then w
    else NotifyStep(CommitReceive(w, events[0], Bridged(r)), r, events[1..])
  }

  /** The `finally` block. */
  function Release(w: World, r: RunId, runner: RunnerId): World {
    var w1 := w.(drivers := w.drivers[r := Settled]);
    if w.activeRunner == Some(runner) then w1.(activeRunner := None, activeSession := None) else w1
  }

  function PromptResolvedStep(w: World, r: RunId, runner: RunnerId, endedAt: int): World {
    var w1 := if IsRunning(w, r) then CommitEnd(w, FinalizeRun(r, Completed, endedAt)) else w;
    Release(w1, r, runner)
  }

  function PromptRejectedStep(w: World, r: RunId, runner: RunnerId, message: Text, endedAt: int): World {
    var w1 := if IsRunning(w, r)
              then CommitEnd(CommitReceive(w, RunError(message), ErrorOf(r)), FinalizeRun(r, Errored, endedAt))
              else w;
    Release(w1, r, runner)
  }

  /** Run ids are fresh; a continuation runs only where its driver is suspended; a tick needs a pending timer. */
  predicate Enabled(w: World, step: Step) {
    match step
    case DispatchStartRun(r, _, _) => r !in w.used
    case Tick => w.timer
    case FactoryResolved(r, _) => r in w.drivers && w.drivers[r] == AwaitingFactory
    case FactoryRejected(r, _, _) => r in w.drivers && w.drivers[r] == AwaitingFactory
    case Notify(r, _) => r in w.drivers && w.drivers[r] != AwaitingFactory
    case PromptResolved(r, _) => r in w.drivers && w.drivers[r].Prompting?
    case PromptRejected(r, _, _) => r in w.drivers && w.drivers[r].Prompting?
    case _ => true
  }

  function Apply(w: World, step: Step): World
    requires Enabled(w, step)
  {
    match step
    case DispatchStartRun(r, prompt, startedAt) => StartRunStep(w, r, prompt, startedAt)
    case DispatchCancelRun(endedAt) => CancelRunStep(w, endedAt)
    case DispatchReceive(e) => CommitReceive(w, e, External)
    case DispatchStartReplay(r) => StartReplayStep(w, r)
    case DispatchStopReplay => CommitStopReplay(w.(timer := false))
    case DispatchClearSessions => CommitClear(w.(timer := false))
    case Tick => TickStep(w)
    case FactoryResolved(r, runner) => w.(activeRunner := Some(runner), drivers := w.drivers[r := Prompting(runner)])
    case FactoryRejected(r, message, endedAt) => FactoryRejectedStep(w, r, message, endedAt)
    case Notify(r, events) => NotifyStep(w, r, events)
    case PromptResolved(r, endedAt) => PromptResolvedStep(w, r, w.drivers[r].runner, endedAt)
    case PromptRejected(r, message, endedAt) => PromptRejectedStep(w, r, w.drivers[r].runner, message, endedAt)
  }

  /** `steps` can be taken one after the other from `w`. */
  predicate Execution(w: World, steps: seq<Step>)
    decreases |steps|
  {
    steps == [] || (Enabled(w, steps[0]) && Execution(Apply(w, steps[0]), steps[1..]))
  }

  function Final(w: World, steps: seq<Step>): World
    requires Execution(w, steps)
    decreases |steps|
  {
    if steps == [] then w else Final(Apply(w, steps[0]), steps[1..])
  }
}
