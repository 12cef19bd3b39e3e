/**
 * The Droid adapter's session: one droid child per prompt turn, at most one prompt in flight.  A step is one
 * call from the ACP client or one callback from a spawned child; children of earlier turns may still be alive.
 */
module DroidSessionProtocol {
  import opened Options
  import opened JsText
  import opened DroidTranslator

  /** Why a prompt's promise settled. */
  datatype Settlement = Resolved(reason: StopReason) | SpawnFailed | ExitedEarly

  /**
   * A spawned child, the prompt it was spawned for and the session id it was given; `drained` once its stdout has
   * ended and no further event can be delivered.
   */
  datatype Child = Child(prompt: nat, resumed: Option<Text>, exited: bool, drained: bool)

  /** Prompts are numbered in the order they are accepted. */
  datatype World = World(
    accepted: nat,
    pending: Option<nat>,
    settled: seq<(nat, Settlement)>,
    activeClient: Option<nat>,
    translator: Option<TurnState>,
    droidSessionId: Option<Text>,
    cancelRequested: bool,
    children: seq<Child>,
    kills: seq<nat>,
    sent: seq<Notification>)

  datatype Step =
    | Prompt(spawned: bool)
    | Cancel
    | Close
    | ChildEvent(child: nat, event: DroidEvent)
    | ChildExit(child: nat)
    | ChildDrained(child: nat)

  const INIT: World := World(0, None, [], None, None, None, false, [], [], [])

  /** A busy session throws before it changes anything. */
  function PromptStep(w: World, spawned: bool): World {
    if w.pending.Some? then w
    else
      var p := w.accepted;
      var w1 := w.(accepted := p + 1, cancelRequested := false);
      if spawned then
        w1.(pending := Some(p), translator := Some(TURN_STARTED), activeClient := Some(|w.children|),
            children := w.children + [Child(p, w.droidSessionId, false, false)])
      else
        w1.(pending := None, translator := None, settled := w.settled + [(p, SpawnFailed)])
  }

  function Settle(w: World, s: Settlement): World {
    if w.pending == None then w else w.(pending := None, settled := w.settled + [(w.pending.value, s)])
  }

  /** SIGTERM to the active child, unless it is known to have exited. */
  function KillActive(w: World): World {
    if w.activeClient.Some? && w.activeClient.value < |w.children| && !w.children[w.activeClient.value].exited
    then w.(kills := w.kills + [w.activeClient.value])
    else w
  }

  function CancelStep(w: World): World {
    var w1 := KillActive(w).(cancelRequested := true);
    if w.pending == None then w1
    else
      Settle(w1.(translator := if w.translator.Some? then Some(w.translator.value.(turnActive := false)) else None),
             Resolved(CancelledTurn))
  }

  /** Events are translated by the current turn's translator, whichever child sent them. */
  function EventStep(w: World, e: DroidEvent): World {
    if w.translator == None then w
    else
      var (t, step) := Translate(w.translator.value, e);
      var w1 := w.(translator := Some(t), sent := w.sent + step.notifications,
        droidSessionId := if NonEmpty(step.droidSessionId) then step.droidSessionId else w.droidSessionId);
      if step.turnComplete.Some? then Settle(w1, Resolved(step.turnComplete.value)) else w1
  }

  function ExitStep(w: World, child: nat): World
    requires child < |w.children|
  {
    var w1 := w.(children := w.children[child := w.children[child].(exited := true)], activeClient := None,
      translator := None);
    Settle(w1, if w.cancelRequested then Resolved(CancelledTurn) else ExitedEarly)
  }

  /** A child reports its exit once; its buffered stdout may still be delivered afterwards, until it is drained. */
  predicate Enabled(w: World, step: Step) {
    match step
    case ChildEvent(child, _) => child < |w.children| && !w.children[child].drained
    case ChildDrained(child) => child < |w.children| && !w.children[child].drained
    case ChildExit(child) => child < |w.children| && !w.children[child].exited
    case _ => true
  }

  function Apply(w: World, step: Step): World
    requires Enabled(w, step)
  {
    match step
    case Prompt(spawned) => PromptStep(w, spawned)
    case Cancel => CancelStep(w)
    case Close => KillActive(w).(activeClient := None)
    case ChildEvent(_, e) => EventStep(w, e)
    case ChildExit(child) => ExitStep(w, child)
    case ChildDrained(child) => w.(children := w.children[child := w.children[child].(drained := true)])
  }

  predicate Execution(w: World, steps: seq<Step>)
    decreases |steps|
  {
    steps == [] || (Enabled(w, steps[0]) && Execution(Apply(w, steps[0]), steps[1..]))
  }

  function Final(w: World, steps: seq<Step>): World
    requires Execution(w, steps)
    decreases |steps|
  {
    if steps == [] then w else Final(Apply(w, steps[0]), steps[1..])
  }

  // ---- conservation ----

  /** Every accepted prompt below `accepted` is settled once, except the pending one, which is the latest. */
  ghost predicate Conserved(w: World) {
    && (forall i :: 0 <= i < |w.settled| ==> w.settled[i].0 == i)
    && w.accepted == |w.settled| + (if w.pending.Some? then 1 else 0)
    && (w.pending.Some? ==> w.pending.value == |w.settled|)
  }

  /**
   * The pending prompt's own child is the last one spawned and still runs; it is the active one, or a close has killed
   * it.
   */
  ghost predicate PendingOk(w: World) {
    w.pending.Some? ==>
      && (w.activeClient == Some(|w.children| - 1) || |w.children| - 1 in w.kills)
      && w.children != []
      && w.children[|w.children| - 1].prompt == w.pending.value
      && !w.children[|w.children| - 1].exited
      && w.translator.Some?
      && !w.cancelRequested
  }

  ghost predicate ChildrenOk(w: World) {
    && (forall c :: 0 <= c < |w.children| ==> w.children[c].prompt < w.accepted)
    && (forall c, d :: 0 <= c < d < |w.children| ==> w.children[c].prompt < w.children[d].prompt)
    && (w.activeClient.Some? ==>
         w.activeClient.value == |w.children| - 1 && w.children != [] && !w.children[w.activeClient.value].exited)
  }

  ghost predicate Inv(w: World) {
    Conserved(w) && PendingOk(w) && ChildrenOk(w)
  }

  lemma SettleKeeps(w: World, s: Settlement)
    requires Conserved(w) && ChildrenOk(w)
    ensures Inv(Settle(w, s))
  {
  }

  lemma PromptKeeps(w: World, spawned: bool)
    requires Inv(w)
    ensures Inv(PromptStep(w, spawned))
  {
  }

  lemma EventKeeps(w: World, e: DroidEvent)
    requires Inv(w)
    ensures Inv(EventStep(w, e))
  {
    hide Translate;
  }

  lemma ExitKeeps(w: World, child: nat)
    requires Inv(w) && child < |w.children|
    ensures Inv(ExitStep(w, child))
  {
    var w1 := w.(children := w.children[child := w.children[child].(exited := true)], activeClient := None,
      translator := None);
    SettleKeeps(w1, if w.cancelRequested then Resolved(CancelledTurn) else ExitedEarly);
  }

  lemma CancelKeeps(w: World)
    requires Inv(w)
    ensures Inv(CancelStep(w))
  {
  }

  lemma StepKeepsInv(w: World, step: Step)
    requires Inv(w) && Enabled(w, step)
    ensures Inv(Apply(w, step))
  {
    match step
    case Prompt(spawned) => PromptKeeps(w, spawned);
    case Cancel => CancelKeeps(w);
    case Close =>
    case ChildEvent(_, e) => EventKeeps(w, e);
    case ChildExit(child) => ExitKeeps(w, child);
    case ChildDrained(_) =>
  }

  lemma {:induction false} EveryReachableStateOk(w: World, steps: seq<Step>)
    requires Inv(w) && Execution(w, steps)
    ensures Inv(Final(w, steps))
    decreases |steps|
  {
    if steps == [] {
    } else {
      hide Inv, Apply, Enabled;
      StepKeepsInv(w, steps[0]);
      EveryReachableStateOk(Apply(w, steps[0]), steps[1..]);
    }
  }

  /** In every run, accepted prompts = settled prompts + (1 if one is pending), and each settles once, in order. */
  lemma PromptsAreConserved(steps: seq<Step>)
    requires Execution(INIT, steps)
    ensures var w := Final(INIT, steps);
      && w.accepted == |w.settled| + (if w.pending.Some? then 1 else 0)
      && (forall i :: 0 <= i < |w.settled| ==> w.settled[i].0 == i)
  {
    EveryReachableStateOk(INIT, steps);
  }

  /** A pending prompt's own child has not exited, so `handleExit` never sees a cancel request with a prompt pending. */
  lemma PendingPromptHasLiveChild(steps: seq<Step>)
    requires Execution(INIT, steps) && Final(INIT, steps).pending.Some?
    ensures var w := Final(INIT, steps);
      && (exists c :: 0 <= c < |w.children| && w.children[c].prompt == w.pending.value && !w.children[c].exited)
      && !w.cancelRequested
  {
    EveryReachableStateOk(INIT, steps);
    var w := Final(INIT, steps);
    assert w.children[|w.children| - 1].prompt == w.pending.value;
  }

  // ---- which child's exit rejects a prompt ----

  /** Some child of an earlier turn is still alive. */
  ghost predicate StaleChildAlive(w: World) {
    exists c :: 0 <= c < |w.children| - 1 && !w.children[c].exited
  }

  /** The exit of `c` rejects the pending prompt while the prompt's own child lives on. */
  ghost predicate ForeignExitRejects(w: World, c: nat) {
    && Enabled(w, ChildExit(c))
    && w.pending.Some?
    && w.children[c].prompt != w.pending.value
    && ExitStep(w, c).settled == w.settled + [(w.pending.value, ExitedEarly)]
    && !ExitStep(w, c).children[|w.children| - 1].exited
  }

  /** A prompt can be rejected by another turn's child exactly while an earlier child is still alive. */
  lemma ForeignExitPossibleIffStaleChild(steps: seq<Step>)
    requires Execution(INIT, steps) && Final(INIT, steps).pending.Some?
    ensures (exists c: nat :: ForeignExitRejects(Final(INIT, steps), c)) <==> StaleChildAlive(Final(INIT, steps))
  {
    EveryReachableStateOk(INIT, steps);
    var w := Final(INIT, steps);
    if StaleChildAlive(w) {
      var c :| 0 <= c < |w.children| - 1 && !w.children[c].exited;
      assert ForeignExitRejects(w, c);
    }
    if c: nat :| ForeignExitRejects(w, c) {
      assert c != |w.children| - 1;
    }
  }

  /** A step of a child that was not spawned for the pending prompt settles that prompt. */
  ghost predicate ForeignStepSettles(w: World, step: Step) {
    && (step.ChildEvent? || step.ChildExit?) && Enabled(w, step)
    && w.pending.Some? && w.children[step.child].prompt != w.pending.value
    && Apply(w, step).pending == None
  }

  /** Some child of an earlier turn is alive, or its stdout has not been delivered to the end. */
  ghost predicate StaleChildHeard(w: World) {
    exists c :: 0 <= c < |w.children| - 1 && (!w.children[c].exited || !w.children[c].drained)
  }

  /** Counting completions, that is possible exactly while an earlier child is alive or not drained. */
  lemma ForeignSettlementPossibleIffStaleChildHeard(steps: seq<Step>)
    requires Execution(INIT, steps) && Final(INIT, steps).pending.Some?
    ensures (exists step :: ForeignStepSettles(Final(INIT, steps), step)) <==> StaleChildHeard(Final(INIT, steps))
  {
    EveryReachableStateOk(INIT, steps);
    var w := Final(INIT, steps);
    if StaleChildHeard(w) {
      var c :| 0 <= c < |w.children| - 1 && (!w.children[c].exited || !w.children[c].drained);
      assert w.children[c].prompt < w.children[|w.children| - 1].prompt;
      var step := if !w.children[c].exited then ChildExit(c) else ChildEvent(c, Completion);
      assert ForeignStepSettles(w, step);
    }
    if step :| ForeignStepSettles(w, step) {
      assert step.child != |w.children| - 1;
    }
  }

  /** A cancel with a prompt pending has killed that prompt's own child. */
  lemma CancelKillsOwnChild(steps: seq<Step>)
    requires Execution(INIT, steps) && Final(INIT, steps).pending.Some?
    ensures var w := Final(INIT, steps); var w' := Apply(w, Cancel);
      && |w.children| > 0 && w.children[|w.children| - 1].prompt == w.pending.value
      && |w.children| - 1 in w'.kills && w'.settled == w.settled + [(w.pending.value, Resolved(CancelledTurn))]
  {
    EveryReachableStateOk(INIT, steps);
  }

  lemma {:induction false} OneMore(w: World, steps: seq<Step>, last: Step)
    requires Execution(w, steps) && Enabled(Final(w, steps), last)
    ensures Execution(w, steps + [last]) && Final(w, steps + [last]) == Apply(Final(w, steps), last)
    decreases |steps|
  {
    var all := steps + [last];
    if steps == [] {
      assert all[1..] == [];
    } else {
      hide Enabled, Apply;
      assert all[1..] == steps[1..] + [last];
      OneMore(Apply(w, steps[0]), steps[1..], last);
    }
  }

  /** The case is reachable: cancel a turn, start the next, and the cancelled child's exit rejects it. */
  lemma StaleExitRejectsNextPrompt()
    ensures var steps := [Prompt(true), Cancel, Prompt(true), ChildExit(0)];
      && Execution(INIT, steps)
      && Final(INIT, steps).settled == [(0, Resolved(CancelledTurn)), (1, ExitedEarly)]
      && !Final(INIT, steps).children[1].exited
  {
    OneMore(INIT, [], Prompt(true));
    OneMore(INIT, [Prompt(true)], Cancel);
    OneMore(INIT, [Prompt(true), Cancel], Prompt(true));
    OneMore(INIT, [Prompt(true), Cancel, Prompt(true)], ChildExit(0));
  }

  /** Even a dead child's late completion does it: the next prompt ends as if its own turn had ended. */
  lemma StaleCompletionResolvesNextPrompt()
    ensures var before := [Prompt(true), Cancel, ChildExit(0), Prompt(true)];
      && Execution(INIT, before) && !StaleChildAlive(Final(INIT, before))
      && Execution(INIT, before + [ChildEvent(0, Completion)])
      && Final(INIT, before + [ChildEvent(0, Completion)]).settled
        == [(0, Resolved(CancelledTurn)), (1, Resolved(EndTurn))]
  {
    OneMore(INIT, [], Prompt(true));
    OneMore(INIT, [Prompt(true)], Cancel);
    OneMore(INIT, [Prompt(true), Cancel], ChildExit(0));
    OneMore(INIT, [Prompt(true), Cancel, ChildExit(0)], Prompt(true));
    OneMore(INIT, [Prompt(true), Cancel, ChildExit(0), Prompt(true)], ChildEvent(0, Completion));
  }

  // ---- which session id is kept ----

  /** The id of an init event that reaches a translator. */
  function ObservedId(w: World, step: Step): seq<Text> {
    match step
    case ChildEvent(_, System(true, Some(id))) => if w.translator.Some? && id != [] then [id] else []
    case _ => []
  }

  function Observed(w: World, steps: seq<Step>): seq<Text>
    requires Execution(w, steps)
    decreases |steps|
  {
    if steps == [] then [] else ObservedId(w, steps[0]) + Observed(Apply(w, steps[0]), steps[1..])
  }

  function LastOr(ids: seq<Text>, otherwise: Option<Text>): Option<Text> {
    if ids == [] then otherwise else Some(ids[|ids| - 1])
  }

  lemma StepObserves(w: World, step: Step)
    requires Enabled(w, step)
    ensures Apply(w, step).droidSessionId == LastOr(ObservedId(w, step), w.droidSessionId)
    ensures |ObservedId(w, step)| <= 1
  {
  }

  /** In every run the remembered id is the one observed last. */
  lemma {:induction false} SessionIdIsLastObserved(w: World, steps: seq<Step>)
    requires Execution(w, steps)
    ensures Final(w, steps).droidSessionId == LastOr(Observed(w, steps), w.droidSessionId)
    decreases |steps|
  {
    if steps == [] {
    } else {
      hide Enabled, Apply, ObservedId;
      StepObserves(w, steps[0]);
      SessionIdIsLastObserved(Apply(w, steps[0]), steps[1..]);
    }
  }

  /** So that is the one the next turn resumes. */
  lemma NextTurnResumesLastObserved(steps: seq<Step>)
    requires Execution(INIT, steps) && Final(INIT, steps).pending == None
    ensures var w' := Apply(Final(INIT, steps), Prompt(true));
      |w'.children| > 0 && w'.children[|w'.children| - 1].resumed == LastOr(Observed(INIT, steps), None)
  {
    SessionIdIsLastObserved(INIT, steps);
  }

  /** At every point of the run the session id is `id` or not known yet. */
  ghost predicate KeptThroughout(w: World, steps: seq<Step>, id: Text)
    requires Execution(w, steps)
    decreases |steps|
  {
    && w.droidSessionId in {None, Some(id)}
    && (steps == [] || KeptThroughout(Apply(w, steps[0]), steps[1..], id))
  }

  lemma {:induction false} KeptIffAllSame(w: World, steps: seq<Step>, id: Text)
    requires Execution(w, steps) && w.droidSessionId in {None, Some(id)}
    ensures KeptThroughout(w, steps, id) <==> forall x :: x in Observed(w, steps) ==> x == id
    decreases |steps|
  {
    if steps == [] {
    } else {
      hide Enabled, Apply;
      StepObserves(w, steps[0]);
      var w1, ids := Apply(w, steps[0]), ObservedId(w, steps[0]);
      assert Observed(w, steps) == ids + Observed(w1, steps[1..]);
      hide ObservedId;
      if w1.droidSessionId in {None, Some(id)} {
        KeptIffAllSame(w1, steps[1..], id);
        if ids != [] { assert ids == [ids[0]] && ids[0] == id; }
        assert forall x :: x in Observed(w, steps) <==> x in ids || x in Observed(w1, steps[1..]);
      } else {
        assert ids[0] in Observed(w, steps) && ids[0] != id;
      }
    }
  }

  /** The first id observed is latched, as the comment says, exactly when no other one is observed later. */
  lemma FirstIdKeptIffNoOther(steps: seq<Step>)
    requires Execution(INIT, steps) && Observed(INIT, steps) != []
    ensures KeptThroughout(INIT, steps, Observed(INIT, steps)[0])
      <==> forall x :: x in Observed(INIT, steps) ==> x == Observed(INIT, steps)[0]
  {
    KeptIffAllSame(INIT, steps, Observed(INIT, steps)[0]);
  }

  /** Two init events with different ids in one turn: the next turn resumes the second. */
  lemma SecondIdReplacesFirst(a: Text, b: Text)
    requires a != [] && b != [] && a != b
    ensures var before := [Prompt(true), ChildEvent(0, System(true, Some(a)))];
      var after := before + [ChildEvent(0, System(true, Some(b)))] + [Cancel] + [Prompt(true)];
      && Execution(INIT, before) && Final(INIT, before).droidSessionId == Some(a)
      && Execution(INIT, after) && |Final(INIT, after).children| == 2
        && Final(INIT, after).children[1].resumed == Some(b)
  {
    var before := [Prompt(true), ChildEvent(0, System(true, Some(a)))];
    var third := before + [ChildEvent(0, System(true, Some(b)))];
    OneMore(INIT, [], Prompt(true));
    OneMore(INIT, [Prompt(true)], before[1]);
    assert [Prompt(true)] + [before[1]] == before;
    OneMore(INIT, before, third[2]);
    OneMore(INIT, third, Cancel);
    OneMore(INIT, third + [Cancel], Prompt(true));
  }
}

/** The session object, each method refining one step. */
module DroidSession {
  import opened Options
  import opened JsText
  import opened DroidTranslator
  import opened DroidSessionProtocol

  class Session {
    var accepted: nat
    var pendingPrompt: Option<nat>
    var settled: seq<(nat, Settlement)>
    var activeClient: Option<nat>
    var translator: Option<TurnState>
    var droidSessionId: Option<Text>
    var cancelRequested: bool
    var children: seq<Child>
    /** The children that were sent SIGTERM. */
    var kills: seq<nat>
    var sent: seq<Notification>

    ghost function View(): World
      reads this
    {
      World(accepted, pendingPrompt, settled, activeClient, translator, droidSessionId, cancelRequested, children,
        kills, sent)
    }

    constructor ()
      ensures View() == INIT && Inv(View())
    {
      accepted, pendingPrompt, settled, activeClient, translator := 0, None, [], None, None;
      droidSessionId, cancelRequested, children, kills, sent := None, false, [], [], [];
    }

    method RunPrompt(spawned: bool) returns (busy: bool)
      requires Inv(View())
      modifies this
      ensures View() == Apply(old(View()), Prompt(spawned)) && Inv(View())
      ensures busy <==> old(pendingPrompt).Some?
      ensures busy ==> View() == old(View())
    {
      hide Inv;
      StepKeepsInv(View(), Prompt(spawned));
      if pendingPrompt.Some? {
        return true;
      }
      busy := false;
      cancelRequested := false;
      translator := Some(TURN_STARTED);
      var prompt := accepted;
      accepted := accepted + 1;
      pendingPrompt := Some(prompt);
      if spawned {
        activeClient := Some(|children|);
        children := children + [Child(prompt, droidSessionId, false, false)];
      } else {
        pendingPrompt := None;
        translator := None;
        settled := settled + [(prompt, SpawnFailed)];
      }
    }

    method CancelPrompt()
      requires Inv(View())
      modifies this
      ensures View() == Apply(old(View()), Cancel) && Inv(View())
    {
      StepKeepsInv(View(), Cancel);
      assert activeClient.Some? ==> activeClient.value < |children|;
      hide Inv;
      cancelRequested := true;
      KillActiveChild();
      if pendingPrompt.Some? {
        var pending := pendingPrompt.value;
        pendingPrompt := None;
        if translator.Some? {
          translator := Some(translator.value.(turnActive := false));
        }
        settled := settled + [(pending, Resolved(CancelledTurn))];
      }
    }

    method CloseSession()
      requires Inv(View())
      modifies this
      ensures View() == Apply(old(View()), Close) && Inv(View())
    {
      StepKeepsInv(View(), Close);
      assert activeClient.Some? ==> activeClient.value < |children|;
      hide Inv;
      KillActiveChild();
      activeClient := None;
    }

    /** Both cancel and close signal the child only while it is not known to have exited. */
    method KillActiveChild()
      requires activeClient.Some? ==> activeClient.value < |children|
      modifies `kills
      ensures View() == KillActive(old(View()))
      ensures activeClient.Some? && !children[activeClient.value].exited ==> kills == old(kills) + [activeClient.value]
    {
      if activeClient.Some? {
        if !children[activeClient.value].exited {
          kills := kills + [activeClient.value];
        }
      }
    }

    method HandleEvent(child: nat, event: DroidEvent)
      requires Enabled(View(), ChildEvent(child, event)) && Inv(View())
      modifies this
      ensures View() == Apply(old(View()), ChildEvent(child, event)) && Inv(View())
    {
      hide Inv, Translate;
      StepKeepsInv(View(), ChildEvent(child, event));
      if translator == None {
        return;
      }
      var (next, step) := Translate(translator.value, event);
      translator := Some(next);
      if NonEmpty(step.droidSessionId) {
        droidSessionId := step.droidSessionId;
      }
      sent := sent + step.notifications;
      if step.turnComplete.Some? {
        if pendingPrompt.Some? {
          var pending := pendingPrompt.value;
          pendingPrompt := None;
          settled := settled + [(pending, Resolved(step.turnComplete.value))];
        }
      }
    }

    /** The child's stdout has ended: no event of it is delivered any more. */
    method StdoutEnded(child: nat)
      requires Enabled(View(), ChildDrained(child)) && Inv(View())
      modifies this
      ensures View() == Apply(old(View()), ChildDrained(child)) && Inv(View())
    {
      hide Inv;
      StepKeepsInv(View(), ChildDrained(child));
      children := children[child := children[child].(drained := true)];
    }

    method HandleExit(child: nat)
      requires Enabled(View(), ChildExit(child))
      modifies this
      ensures View() == Apply(old(View()), ChildExit(child))
      ensures old(Inv(View())) ==> Inv(View())
    {
      if Inv(View()) { StepKeepsInv(View(), ChildExit(child)); }
      hide Inv;
      children := children[child := children[child].(exited := true)];
      activeClient := None;
      translator := None;
      if pendingPrompt == None {
        return;
      }
      var pending := pendingPrompt.value;
      pendingPrompt := None;
      if cancelRequested {
        settled := settled + [(pending, Resolved(CancelledTurn))];
        return;
      }
      settled := settled + [(pending, ExitedEarly)];
    }
  }
}
