/** The playground's state and its pure reducer, restricted to runs and replay. */
module PlaygroundReducer {
  import opened Options
  import opened JsText

  const EVENT_CAP: nat := 200

  datatype RunId = RunId(text: Text)

  datatype Event = RunError(message: Text) | Agui(payload: Text)

  datatype Status = Running | Completed | Cancelled | Errored

  datatype RunRecord = RunRecord(
    id: RunId, prompt: Text, startedAt: int, endedAt: Option<int>, status: Status, events: seq<Event>)

  datatype Replay = Replay(runId: RunId, nextIndex: nat)

  datatype State = State(
    runs: map<RunId, RunRecord>, activeRunId: Option<RunId>, replayMode: Option<Replay>, replayBuffer: seq<Event>)

  datatype Action =
    | StartRun(runId: RunId, prompt: Text, startedAt: int)
    | CancelRun(endedAt: int)
    | FinalizeRun(runId: RunId, status: Status, endedAt: int)
    | ReceiveEvent(event: Event)
    | ReceiveReplayEvent(runId: RunId, event: Event, replaySeq: nat)
    | StartReplay(runId: RunId)
    | StopReplay
    | ClearSessions

  /** `while (events.length > EVENT_CAP) events.shift()` */
  function TrimToCap(events: seq<Event>): seq<Event> {
    if |events| > EVENT_CAP then TrimToCap(events[1..]) else events
  }

  /** The last `EVENT_CAP` elements, or all of them. */
  function LastEvents(events: seq<Event>): seq<Event> {
    if |events| <= EVENT_CAP then events else events[|events| - EVENT_CAP..]
  }

  lemma {:induction false} TrimKeepsLast(events: seq<Event>)
    ensures TrimToCap(events) == LastEvents(events)
  {
    if |events| <= EVENT_CAP {
    } else {
      TrimKeepsLast(events[1..]);
    }
  }

  /** Appending to a trimmed log and trimming again is trimming the longer log. */
  lemma LastOfLast(log: seq<Event>, e: Event)
    ensures TrimToCap(LastEvents(log) + [e]) == LastEvents(log + [e])
  {
    TrimKeepsLast(LastEvents(log) + [e]);
  }

  function Reduce(s: State, a: Action): State {
    match a
    case StartRun(runId, prompt, startedAt) =>
      s.(runs := s.runs[runId := RunRecord(runId, prompt, startedAt, None, Running, [])], activeRunId := Some(runId))
    case ReceiveEvent(event) =>
      if s.activeRunId == None || s.activeRunId.value !in s.runs then s
      else
        var run := s.runs[s.activeRunId.value];
        s.(runs := s.runs[run.id := run.(events := TrimToCap(run.events + [event]))])
    case CancelRun(endedAt) =>
      if s.activeRunId == None || s.activeRunId.value !in s.runs then s
      else
        var run := s.runs[s.activeRunId.value];
        if run.status != Running then s
        else s.(runs := s.runs[run.id := run.(status := Cancelled, endedAt := Some(endedAt))])
    case FinalizeRun(runId, status, endedAt) =>
      if runId !in s.runs || s.runs[runId].status != Running then s
      else s.(runs := s.runs[runId := s.runs[runId].(status := status, endedAt := Some(endedAt))])
    case StartReplay(runId) =>
      if runId !in s.runs then s
      else s.(replayMode := Some(Replay(runId, 0)), replayBuffer := [])
    case ReceiveReplayEvent(runId, event, _) =>
      if s.replayMode == None || s.replayMode.value.runId != runId then s
      else s.(replayMode := Some(Replay(runId, s.replayMode.value.nextIndex + 1)), replayBuffer := s.replayBuffer
        + [event])
    case StopReplay =>
      if s.replayMode == None && s.replayBuffer == [] then s
      else s.(replayMode := None, replayBuffer := [])
    case ClearSessions =>
      State(map[], None, None, [])
  }
}
