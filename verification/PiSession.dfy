/** The Pi adapter's session: one long-lived Pi process, at most one prompt in flight. */
module PiSessionProtocol {
  import opened Options

  datatype StopReason = EndTurn | CancelledTurn

  datatype Settlement = Resolved(reason: StopReason) | SendFailed | ExitedEarly

  /**
   * Prompts are numbered in the order they are accepted.  Three auxiliary records: the turns sent to Pi whose
   * `agent_end` has not arrived yet, the number of `agent_end`s that arrived while no prompt was pending, and for
   * each prompt resolved by an `agent_end` the turn that one belonged to.
   */
  datatype World = World(
    accepted: nat,
    pending: Option<nat>,
    settled: seq<(nat, Settlement)>,
    exited: bool,
    awaited: set<nat>,
    absorbed: nat,
    endedBy: map<nat, nat>)

  /** `turn` is the turn an `agent_end` message belongs to; the message itself does not say. */
  datatype Step = Prompt(sent: bool) | Cancel | AgentEnd(turn: nat) | OtherMessage | Exit

  const INIT: World := World(0, None, [], false, {}, 0, map[])

  function Settle(w: World, s: Settlement): World {
    if w.pending == None then w else w.(pending := None, settled := w.settled + [(w.pending.value, s)])
  }

  function PromptStep(w: World, sent: bool): World {
    if w.pending.Some? || w.exited then w
    else if sent then w.(accepted := w.accepted + 1, pending := Some(w.accepted), awaited := w.awaited + {w.accepted})
    else w.(accepted := w.accepted + 1, settled := w.settled + [(w.accepted, SendFailed)])
  }

  function AgentEndStep(w: World, turn: nat): World {
    var w1 := w.(awaited := w.awaited - {turn});
    match w.pending
    case None => w1.(absorbed := w.absorbed + 1)
    case Some(p) => Settle(w1.(endedBy := w.endedBy[p := turn]), Resolved(EndTurn))
  }

  /** Pi ends each turn it was sent once. */
  predicate Enabled(w: World, step: Step) {
    step.AgentEnd? ==> step.turn in w.awaited
  }

  function Apply(w: World, step: Step): World
    requires Enabled(w, step)
  {
    match step
    case Prompt(sent) => PromptStep(w, sent)
    case Cancel => if w.exited then w else Settle(w, Resolved(CancelledTurn))
    case AgentEnd(turn) => AgentEndStep(w, turn)
    case OtherMessage => w
    case Exit => Settle(w.(exited := true), ExitedEarly)
  }

  predicate Execution(w: World, steps: seq<Step>)
    decreases |steps|
  {
    steps == [] || (Enabled(w, steps[0]) && Execution(Apply(w, steps[0]), steps[1..]))
  }

  function Final(w: World, steps: seq<Step>): World
    requires Execution(w, steps)
    decreases |steps|
  {
    if steps == [] then w else Final(Apply(w, steps[0]), steps[1..])
  }

  function CancelledIn(settled: seq<(nat, Settlement)>): nat {
    if settled == [] then 0
    else CancelledIn(settled[..|settled| - 1]) + (if settled[|settled| - 1].1 == Resolved(CancelledTurn) then 1 else 0)
  }

  ghost predicate Conserved(w: World) {
    && (forall i :: 0 <= i < |w.settled| ==> w.settled[i].0 == i)
    && w.accepted == |w.settled| + (if w.pending.Some? then 1 else 0)
    && (w.pending.Some? ==> w.pending.value == |w.settled| && !w.exited)
  }

  /**
   * The outstanding `agent_end`s: one for the pending prompt, and one for each cancelled prompt less those that
   * arrived between prompts.
   */
  ghost predicate Balanced(w: World) {
    && (forall t :: t in w.awaited ==> t < w.accepted)
    && (w.pending.Some? ==> w.pending.value in w.awaited)
    && (!w.exited ==> |w.awaited| + w.absorbed == CancelledIn(w.settled) + (if w.pending.Some? then 1 else 0))
  }

  ghost predicate Inv(w: World) {
    Conserved(w) && Balanced(w)
  }

  lemma CancelledSnoc(settled: seq<(nat, Settlement)>, last: (nat, Settlement))
    ensures CancelledIn(settled + [last]) == CancelledIn(settled) + (if last.1 == Resolved(CancelledTurn) then 1 else 0)
  {
    assert (settled + [last])[..|settled|] == settled;
  }

  lemma SettleKeeps(w: World, s: Settlement)
    requires Inv(w) && (w.exited || s == Resolved(CancelledTurn))
    ensures Inv(Settle(w, s)) && w.settled <= Settle(w, s).settled
  {
    if w.pending.Some? { CancelledSnoc(w.settled, (w.pending.value, s)); }
    hide CancelledIn;
  }

  lemma PromptKeeps(w: World, sent: bool)
    requires Inv(w)
    ensures Inv(PromptStep(w, sent)) && w.settled <= PromptStep(w, sent).settled
  {
    CancelledSnoc(w.settled, (w.accepted, SendFailed));
    hide CancelledIn;
    assert w.accepted !in w.awaited;
  }

  lemma AgentEndKeeps(w: World, turn: nat)
    requires Inv(w) && turn in w.awaited
    ensures Inv(AgentEndStep(w, turn)) && w.settled <= AgentEndStep(w, turn).settled
  {
    if w.pending.Some? { CancelledSnoc(w.settled, (w.pending.value, Resolved(EndTurn))); }
    hide CancelledIn;
    assert |w.awaited - {turn}| == |w.awaited| - 1;
  }

  /** The exit settles the pending prompt; the count of outstanding ends matters no more. */
  lemma ExitKeeps(w: World)
    requires Inv(w)
    ensures Inv(Apply(w, Exit)) && w.settled <= Apply(w, Exit).settled
  {
    hide CancelledIn;
  }

  lemma StepKeepsInv(w: World, step: Step)
    requires Inv(w) && Enabled(w, step)
    ensures Inv(Apply(w, step)) && w.settled <= Apply(w, step).settled
  {
    hide Inv;
    match step
    case Prompt(sent) => PromptKeeps(w, sent);
    case Cancel => SettleKeeps(w, Resolved(CancelledTurn));
    case AgentEnd(turn) => AgentEndKeeps(w, turn);
    case OtherMessage =>
    case Exit => ExitKeeps(w);
  }

  lemma AfterExit(w: World, step: Step)
    requires Inv(w) && w.exited && Enabled(w, step)
    ensures var w' := Apply(w, step);
      w'.exited && w'.accepted == w.accepted && w'.pending == None && w'.settled == w.settled && w'.endedBy == w.endedBy
  {
  }

  /**
   * In every run accepted prompts = settled prompts + (1 if one is pending), each prompt settles once and for
   * good, and after the process exits nothing is pending and nothing settles any more.
   */
  lemma {:induction false} PromptsAreConserved(w: World, steps: seq<Step>)
    requires Inv(w) && Execution(w, steps)
    ensures Inv(Final(w, steps)) && w.settled <= Final(w, steps).settled
    ensures w.exited ==> Final(w, steps).accepted == w.accepted && Final(w, steps).settled == w.settled
    ensures w.exited ==> Final(w, steps).pending == None
    decreases |steps|
  {
    if steps == [] {
    } else {
      StepKeepsInv(w, steps[0]);
      if w.exited { AfterExit(w, steps[0]); }
      hide Inv, Apply, Enabled;
      PromptsAreConserved(Apply(w, steps[0]), steps[1..]);
    }
  }

  // ---- what settles a prompt ----

  /** How the step settles the pending prompt. */
  function SettlesAs(step: Step): Option<Settlement> {
    match step
    case Cancel => Some(Resolved(CancelledTurn))
    case AgentEnd(_) => Some(Resolved(EndTurn))
    case Exit => Some(ExitedEarly)
    case _ => None
  }

  /**
   * In every run: a pending prompt is settled by a cancel, an end or the exit, each with its own outcome, and by
   * nothing else; with none pending, only a prompt that could not be sent settles, before the exit.
   */
  lemma StepSettles(steps: seq<Step>, step: Step)
    requires Execution(INIT, steps) && Enabled(Final(INIT, steps), step)
    ensures var w := Final(INIT, steps);
      Apply(w, step).settled
        == w.settled
           + (if w.pending.Some? && SettlesAs(step) != None then [(w.pending.value, SettlesAs(step).value)]
              else if w.pending == None && !w.exited && step == Prompt(false) then [(w.accepted, SendFailed)]
              else [])
    ensures var w := Final(INIT, steps);
      Apply(w, step).pending
        == if w.pending.Some? then (if SettlesAs(step) == None then w.pending else None)
           else if step == Prompt(true) && !w.exited then Some(w.accepted) else None
  {
    PromptsAreConserved(INIT, steps);
    hide Balanced;
  }

  // ---- whose end resolves a prompt ----

  /** The end of turn `t` can arrive next and resolves the pending prompt of another turn. */
  ghost predicate ForeignEndResolves(w: World, t: nat) {
    && Enabled(w, AgentEnd(t))
    && w.pending.Some? && w.pending.value != t
    && Apply(w, AgentEnd(t)).settled == w.settled + [(w.pending.value, Resolved(EndTurn))]
  }

  /** Ends of other turns are outstanding exactly when the count says so. */
  lemma OthersCounted(w: World)
    requires Balanced(w) && w.pending.Some? && !w.exited
    ensures w.awaited - {w.pending.value} != {} <==> CancelledIn(w.settled) > w.absorbed
  {
    hide CancelledIn;
    var others := w.awaited - {w.pending.value};
    assert w.awaited == others + {w.pending.value};
    assert |w.awaited| == |others| + 1;
    assert |others| == 0 <==> others == {};
  }

  lemma ForeignEndIffOthers(w: World)
    requires w.pending.Some?
    ensures (exists t: nat :: ForeignEndResolves(w, t)) <==> w.awaited - {w.pending.value} != {}
  {
    var others := w.awaited - {w.pending.value};
    if others != {} {
      var t :| t in others;
      assert ForeignEndResolves(w, t);
    }
    forall t: nat | ForeignEndResolves(w, t) ensures others != {} {
      assert t in others;
    }
  }

  /**
   * A pending prompt can be resolved by another turn's end exactly when more prompts have been cancelled so far than
   * ends have arrived between prompts.
   */
  lemma ForeignEndPossibleIffCancelOutstanding(steps: seq<Step>)
    requires Execution(INIT, steps) && Final(INIT, steps).pending.Some?
    ensures var w := Final(INIT, steps);
      (exists t: nat :: ForeignEndResolves(w, t)) <==> CancelledIn(w.settled) > w.absorbed
  {
    PromptsAreConserved(INIT, steps);
    hide ForeignEndResolves, CancelledIn;
    ForeignEndIffOthers(Final(INIT, steps));
    OthersCounted(Final(INIT, steps));
  }

  /** Without a cancel no end is outstanding but the pending prompt's own. */
  ghost predicate NothingForeign(w: World) {
    && (forall p :: p in w.endedBy ==> w.endedBy[p] == p)
    && (!w.exited ==> w.awaited == if w.pending.Some? then {w.pending.value} else {})
  }

  lemma {:induction false} NoCancelNothingForeign(w: World, steps: seq<Step>)
    requires Inv(w) && NothingForeign(w) && Execution(w, steps)
    requires forall i :: 0 <= i < |steps| ==> !steps[i].Cancel?
    ensures NothingForeign(Final(w, steps))
    decreases |steps|
  {
    if steps == [] {
    } else {
      assert !steps[0].Cancel?;
      assert NothingForeign(Apply(w, steps[0]));
      StepKeepsInv(w, steps[0]);
      hide Inv, Apply, NothingForeign, Enabled;
      assert forall i :: 0 <= i < |steps[1..]| ==> steps[1..][i] == steps[i + 1];
      NoCancelNothingForeign(Apply(w, steps[0]), steps[1..]);
    }
  }

  /** In a run without cancels every prompt that an `agent_end` resolves is resolved by its own turn's. */
  lemma WithoutCancelEachEndIsItsOwn(steps: seq<Step>, p: nat)
    requires Execution(INIT, steps) && forall i :: 0 <= i < |steps| ==> !steps[i].Cancel?
    requires p in Final(INIT, steps).endedBy
    ensures Final(INIT, steps).endedBy[p] == p
  {
    NoCancelNothingForeign(INIT, steps);
  }

  /** The end of a cancelled turn, arriving after the next prompt was sent, resolves that next prompt. */
  lemma LateAgentEndResolvesNextPrompt()
    ensures var steps := [Prompt(true), Cancel, Prompt(true), AgentEnd(0)];
      && Execution(INIT, steps)
      && Final(INIT, steps).settled == [(0, Resolved(CancelledTurn)), (1, Resolved(EndTurn))]
      && Final(INIT, steps).endedBy == map[1 := 0]
  {
    var w1 := Apply(INIT, Prompt(true));
    var w2 := Apply(w1, Cancel);
    var w3 := Apply(w2, Prompt(true));
    var w4 := Apply(w3, AgentEnd(0));
    var s1, s2, s3 := [Cancel, Prompt(true), AgentEnd(0)], [Prompt(true), AgentEnd(0)], [AgentEnd(0)];
    assert [Prompt(true), Cancel, Prompt(true), AgentEnd(0)][1..] == s1 && s1[1..] == s2 && s2[1..] == s3;
    assert |s3[1..]| == 0;
    assert Execution(w4, s3[1..]) && Final(w4, s3[1..]) == w4;
    assert Execution(w3, s3) && Final(w3, s3) == w4;
    assert Execution(w2, s2) && Final(w2, s2) == w4;
    assert Execution(w1, s1) && Final(w1, s1) == w4;
  }
}

/** The session object. */
module PiSession {
  import opened Options
  import opened PiSessionProtocol

  datatype PromptResult = Accepted | Busy | HasExited

  class Session {
    var accepted: nat
    var pendingPrompt: Option<nat>
    var settled: seq<(nat, Settlement)>
    var exited: bool
    ghost var awaited: set<nat>
    ghost var absorbed: nat
    ghost var endedBy: map<nat, nat>

    ghost function View(): World
      reads this
    {
      World(accepted, pendingPrompt, settled, exited, awaited, absorbed, endedBy)
    }

    constructor ()
      ensures View() == INIT && Inv(View())
    {
      accepted, pendingPrompt, settled, exited := 0, None, [], false;
      awaited, absorbed, endedBy := {}, 0, map[];
    }

    method RunPrompt(sent: bool) returns (r: PromptResult)
      requires Inv(View())
      modifies this
      ensures View() == Apply(old(View()), Prompt(sent)) && Inv(View())
      ensures r == if old(pendingPrompt).Some? then Busy else if old(exited) then HasExited else Accepted
    {
      StepKeepsInv(View(), Prompt(sent));
      if pendingPrompt.Some? {
        return Busy;
      }
      if exited {
        return HasExited;
      }
      var prompt := accepted;
      accepted := accepted + 1;
      pendingPrompt := Some(prompt);
      if sent {
        awaited := awaited + {prompt};
      } else {
        pendingPrompt := None;
        settled := settled + [(prompt, SendFailed)];
      }
      r := Accepted;
    }

    method CancelPrompt()
      requires Inv(View())
      modifies this
      ensures View() == Apply(old(View()), Cancel) && Inv(View())
    {
      StepKeepsInv(View(), Cancel);
      if exited {
        return;
      }
      SettlePending(Resolved(CancelledTurn));
    }

    /** The message does not say which turn it ends. */
    method HandleAgentEnd(ghost turn: nat)
      requires Inv(View()) && Enabled(View(), AgentEnd(turn))
      modifies this
      ensures View() == Apply(old(View()), AgentEnd(turn)) && Inv(View())
    {
      StepKeepsInv(View(), AgentEnd(turn));
      awaited := awaited - {turn};
      if pendingPrompt.Some? {
        endedBy := endedBy[pendingPrompt.value := turn];
      } else {
        absorbed := absorbed + 1;
      }
      SettlePending(Resolved(EndTurn));
    }

    method HandleExit()
      requires Inv(View())
      modifies this
      ensures View() == Apply(old(View()), Exit) && Inv(View())
    {
      StepKeepsInv(View(), Exit);
      exited := true;
      SettlePending(ExitedEarly);
    }

    method SettlePending(s: Settlement)
      modifies `pendingPrompt, `settled
      ensures View() == Settle(old(View()), s)
    {
      if pendingPrompt.Some? {
        var pending := pendingPrompt.value;
        pendingPrompt := None;
        settled := settled + [(pending, s)];
      }
    }
  }
}
