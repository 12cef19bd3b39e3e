/** Droid's event stream translated to ACP notifications, with the per-turn state that deduplicates it. */
module DroidTranslator {
  import opened Options
  import opened JsText
  import opened Splitting

  /** The fields the translator reads; an absent or ill-typed field is `None`. */
  datatype DroidEvent =
    | System(isInit: bool, sessionId: Option<Text>)
    | Message(fromAssistant: bool, text: Option<Text>)
    | Reasoning(id: Option<Text>, text: Option<Text>)
    | ToolCall(id: Option<Text>, toolName: Option<Text>)
    | ToolResult(id: Option<Text>, isError: bool)
    | Completion
    | Unknown

  datatype Notification =
    | AgentMessageChunk(text: Text)
    | AgentThoughtChunk(text: Text)
    | ToolCallStarted(id: Text, title: Text)
    | ToolCallUpdate(id: Text, failed: bool)

  datatype StopReason = EndTurn | CancelledTurn

  datatype StepResult = StepResult(
    notifications: seq<Notification>, turnComplete: Option<StopReason>, droidSessionId: Option<Text>)

  datatype TurnState = TurnState(turnActive: bool, startedToolCalls: set<Text>, seenReasoningIds: set<Text>)

  const TURN_STARTED: TurnState := TurnState(true, {}, {})

  /** "<thinking>" */
  const OPEN_TAG: Text := [60, 116, 104, 105, 110, 107, 105, 110, 103, 62]

  /** "</thinking>" */
  const CLOSE_TAG: Text := [60, 47, 116, 104, 105, 110, 107, 105, 110, 103, 62]

  /** Removes the shortest tagged blocks from left to right, each with the white space after it. */
  function RemoveThinking(t: Text): Text
    decreases |t|
  {
    var open := IndexOf(t, OPEN_TAG);
    if open == -1 then t
    else
      var close := FirstFrom(t, CLOSE_TAG, open + |OPEN_TAG|);
      if close == -1 then t else t[..open] + RemoveThinking(TrimStart(t[close + |CLOSE_TAG|..]))
  }

  function StripInlineThinking(t: Text): Text {
    TrimEnd(TrimStart(RemoveThinking(t)))
  }

  predicate NonEmpty(t: Option<Text>) {
    t.Some? && t.value != []
  }

  function Only(notifications: seq<Notification>): StepResult {
    StepResult(notifications, None, None)
  }

  /** One event: the new state and what is sent. */
  function Translate(s: TurnState, e: DroidEvent): (TurnState, StepResult) {
    match e
    case System(isInit, sessionId) => (s, StepResult([], None, if isInit then sessionId else None))
    case Message(fromAssistant, text) =>
      if !fromAssistant || text == None then (s, Only([]))
      else
        var stripped := StripInlineThinking(text.value);
        (s, Only(if stripped == [] then [] else [AgentMessageChunk(stripped)]))
    case Reasoning(id, text) =>
      if !NonEmpty(text) then (s, Only([]))
      else if id == None then (s, Only([AgentThoughtChunk(text.value)]))
      else if id.value in s.seenReasoningIds then (s, Only([]))
      else (s.(seenReasoningIds := s.seenReasoningIds + {id.value}), Only([AgentThoughtChunk(text.value)]))
    case ToolCall(id, toolName) =>
      if !NonEmpty(id) then (s, Only([]))
      else
        (s.(startedToolCalls := s.startedToolCalls + {id.value}),
         Only([ToolCallStarted(id.value, if NonEmpty(toolName) then toolName.value else id.value)]))
    case ToolResult(id, isError) =>
      if !NonEmpty(id) then (s, Only([]))
      else if id.value in s.startedToolCalls then (s, Only([ToolCallUpdate(id.value, isError)]))
      else
        (s.(startedToolCalls := s.startedToolCalls + {id.value}),
         Only([ToolCallStarted(id.value, id.value), ToolCallUpdate(id.value, isError)]))
    case Completion => (s.(turnActive := false), StepResult([], Some(EndTurn), None))
    case Unknown => (s, Only([]))
  }

  class Translator {
    var turnActive: bool
    var startedToolCalls: set<Text>
    var seenReasoningIds: set<Text>

    ghost function View(): TurnState
      reads this
    {
      TurnState(turnActive, startedToolCalls, seenReasoningIds)
    }

    constructor ()
      ensures View() == TURN_STARTED.(turnActive := false)
    {
      turnActive, startedToolCalls, seenReasoningIds := false, {}, {};
    }

    method MarkTurnStarted()
      modifies this
      ensures View() == TURN_STARTED
    {
      turnActive := true;
      startedToolCalls := {};
      seenReasoningIds := {};
    }

    method HandleEvent(event: DroidEvent) returns (step: StepResult)
      modifies this
      ensures (View(), step) == Translate(old(View()), event)
    {
      match event
      case System(isInit, sessionId) =>
        step := StepResult([], None, if isInit then sessionId else None);
      case Message(fromAssistant, text) =>
        if !fromAssistant || text == None {
          return Only([]);
        }
        var stripped := StripInlineThinking(text.value);
        step := Only(if stripped == [] then [] else [AgentMessageChunk(stripped)]);
      case Reasoning(id, text) =>
        if !NonEmpty(text) {
          return Only([]);
        }
        if id.Some? {
          if id.value in seenReasoningIds {
            return Only([]);
          }
          seenReasoningIds := seenReasoningIds + {id.value};
        }
        step := Only([AgentThoughtChunk(text.value)]);
      case ToolCall(id, toolName) =>
        if !NonEmpty(id) {
          return Only([]);
        }
        startedToolCalls := startedToolCalls + {id.value};
        step := Only([ToolCallStarted(id.value, if NonEmpty(toolName) then toolName.value else id.value)]);
      case ToolResult(id, isError) =>
        if !NonEmpty(id) {
          return Only([]);
        }
        var synthesized: seq<Notification> := [];
        if id.value !in startedToolCalls {
          startedToolCalls := startedToolCalls + {id.value};
          synthesized := [ToolCallStarted(id.value, id.value)];
        }
        synthesized := synthesized + [ToolCallUpdate(id.value, isError)];
        assert synthesized == [ToolCallUpdate(id.value, isError)]
            || synthesized == [ToolCallStarted(id.value, id.value), ToolCallUpdate(id.value, isError)];
        step := Only(synthesized);
      case Completion =>
        turnActive := false;
        step := StepResult([], Some(EndTurn), None);
      case Unknown =>
        step := Only([]);
    }
  }

  // ---- whole turns ----

  function StateAfter(s: TurnState, events: seq<DroidEvent>): TurnState {
    if events == [] then s
    else Translate(StateAfter(s, events[..|events| - 1]), events[|events| - 1]).0
  }

  /** What the last event of a turn so far sends. */
  function SentBy(s: TurnState, events: seq<DroidEvent>): seq<Notification>
    requires events != []
  {
    Translate(StateAfter(s, events[..|events| - 1]), events[|events| - 1]).1.notifications
  }

  /** Everything a turn sends. */
  function Sent(s: TurnState, events: seq<DroidEvent>): seq<Notification> {
    if events == [] then [] else Sent(s, events[..|events| - 1]) + SentBy(s, events)
  }

  /** The ids announced by a sequence of notifications. */
  ghost predicate Announced(sent: seq<Notification>, id: Text) {
    exists j :: 0 <= j < |sent| && sent[j].ToolCallStarted? && sent[j].id == id
  }

  ghost predicate UpdatesFollowCalls(sent: seq<Notification>) {
    forall i :: 0 <= i < |sent| && sent[i].ToolCallUpdate? ==> Announced(sent[..i], sent[i].id)
  }

  lemma AnnouncedExtends(a: seq<Notification>, b: seq<Notification>, id: Text)
    ensures Announced(a + b, id) <==> Announced(a, id) || Announced(b, id)
  {
    if Announced(a, id) {
      var j :| 0 <= j < |a| && a[j].ToolCallStarted? && a[j].id == id;
      assert (a + b)[j] == a[j];
    }
    if Announced(b, id) {
      var j :| 0 <= j < |b| && b[j].ToolCallStarted? && b[j].id == id;
      assert (a + b)[|a| + j] == b[j];
    }
  }

  /** Appending notifications whose updates refer to earlier or just announced calls keeps the order. */
  lemma FollowsAppend(sent: seq<Notification>, more: seq<Notification>)
    requires UpdatesFollowCalls(sent)
    requires forall i :: 0 <= i < |more| && more[i].ToolCallUpdate? ==>
      Announced(sent, more[i].id) || Announced(more[..i], more[i].id)
    ensures UpdatesFollowCalls(sent + more)
  {
    var all := sent + more;
    forall i | 0 <= i < |all| && all[i].ToolCallUpdate? ensures Announced(all[..i], all[i].id) {
      if i < |sent| {
        assert all[..i] == sent[..i];
      } else {
        assert all[..i] == sent + more[..i - |sent|];
        AnnouncedExtends(sent, more[..i - |sent|], all[i].id);
      }
    }
  }

  lemma {:induction false} TurnKeepsOrder(events: seq<DroidEvent>)
    ensures UpdatesFollowCalls(Sent(TURN_STARTED, events))
    ensures forall id :: id in StateAfter(TURN_STARTED, events).startedToolCalls <==>
      Announced(Sent(TURN_STARTED, events), id)
    decreases |events|
  {
    hide UpdatesFollowCalls, Announced;
    if events == [] {
      NothingSent();
    } else {
      var front, last := events[..|events| - 1], events[|events| - 1];
      TurnKeepsOrder(front);
      var before := StateAfter(TURN_STARTED, front);
      var sent, more := Sent(TURN_STARTED, front), SentBy(TURN_STARTED, events);
      forall id ensures Announced(sent + more, id) <==> Announced(sent, id) || Announced(more, id) {
        AnnouncedExtends(sent, more, id);
      }
      OneEventOrder(before, last);
      FollowsAppend(sent, more);
    }
  }

  lemma NothingSent()
    ensures UpdatesFollowCalls([]) && forall id :: !Announced([], id)
  {
  }

  /** One event announces exactly the ids it adds, and updates only calls started before or just announced. */
  lemma OneEventOrder(s: TurnState, e: DroidEvent)
    ensures var (s', step) := Translate(s, e); var more := step.notifications;
      && (forall id :: id in s'.startedToolCalls <==> id in s.startedToolCalls || Announced(more, id))
      && (forall i :: 0 <= i < |more| && more[i].ToolCallUpdate? ==>
        more[i].id in s.startedToolCalls || Announced(more[..i], more[i].id))
  {
    var (s', step) := Translate(s, e);
    var more := step.notifications;
    if e.ToolResult? && NonEmpty(e.id) && e.id.value !in s.startedToolCalls {
      assert more[0].ToolCallStarted? && more[..1][0] == more[0];
    } else if e.ToolCall? && NonEmpty(e.id) {
      assert more[0].ToolCallStarted?;
    }
  }

  /** In every turn, each tool_call_update comes after a tool_call with the same id. */
  lemma EveryUpdateFollowsItsCall(events: seq<DroidEvent>, i: nat)
    requires i < |Sent(TURN_STARTED, events)| && Sent(TURN_STARTED, events)[i].ToolCallUpdate?
    ensures Announced(Sent(TURN_STARTED, events)[..i], Sent(TURN_STARTED, events)[i].id)
  {
    TurnKeepsOrder(events);
  }

  // ---- reasoning ids ----

  predicate ForwardsReasoning(e: DroidEvent, id: Text) {
    e.Reasoning? && e.id == Some(id) && NonEmpty(e.text)
  }

  lemma {:induction false} SeenAreForwarded(events: seq<DroidEvent>, id: Text)
    ensures id in StateAfter(TURN_STARTED, events).seenReasoningIds
      <==> exists i :: 0 <= i < |events| && ForwardsReasoning(events[i], id)
    decreases |events|
  {
    if events == [] {
    } else {
      var front := events[..|events| - 1];
      SeenAreForwarded(front, id);
      SeenStep(StateAfter(TURN_STARTED, front), events[|events| - 1], id);
      hide Translate, ForwardsReasoning;
      assert forall i :: 0 <= i < |front| ==> front[i] == events[i];
      if i :| 0 <= i < |front| && ForwardsReasoning(front[i], id) {
        assert ForwardsReasoning(events[i], id);
      }
    }
  }

  lemma SeenStep(s: TurnState, e: DroidEvent, id: Text)
    ensures id in Translate(s, e).0.seenReasoningIds <==> id in s.seenReasoningIds || ForwardsReasoning(e, id)
  {
  }

  /**
   * The k-th event of a turn, a reasoning event with id and text, is forwarded iff no earlier event of the
   * turn carried the same id with text: each reasoning id yields at most one thought chunk, its first.
   */
  lemma ReasoningForwardedOnce(events: seq<DroidEvent>, k: nat, id: Text)
    requires k < |events| && ForwardsReasoning(events[k], id)
    ensures var sent := SentBy(TURN_STARTED, events[..k + 1]);
      if exists i :: 0 <= i < k && ForwardsReasoning(events[i], id) then sent == []
        else sent == [AgentThoughtChunk(events[k].text.value)]
  {
    var upTo := events[..k + 1];
    assert upTo[..k] == events[..k] && upTo[k] == events[k];
    SeenAreForwarded(events[..k], id);
    assert forall i :: 0 <= i < k ==> events[..k][i] == events[i];
  }
}
