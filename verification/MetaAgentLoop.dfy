/** The loop itself: one controller registry updated in place by overlapping runs. */
module MetaAgentLoop {
  import opened Options
  import opened JsText
  import opened ToolResults
  import opened MetaAgentProtocol
  import opened MetaAgentInvariants

  class Loop {
    const maxToolCalls: int
    var controllers: map<Session, nat>
    /** The controllers whose signal is aborted, with how far their run had got. */
    var aborted: map<nat, Mark>
    /** The local variables and suspension point of every `runPrompt` call. */
    var runs: seq<Run>

    ghost function View(): World
      reads this
    {
      World(maxToolCalls, controllers, aborted, runs)
    }

    constructor (maxToolCalls: int)
      ensures View() == InitWorld(maxToolCalls) && Inv(View())
    {
      this.maxToolCalls := maxToolCalls;
      controllers, aborted, runs := map[], map[], [];
    }

    /** `w` with run `r` advanced to `run` and, if that ended it, its slot released. */
    static ghost function Advanced(w: World, r: nat, run: Run): World
      requires r < |w.runs|
    {
      w.(runs := w.runs[r := run], controllers := ReleaseSlot(w.controllers, r, run))
    }

    method Abort(session: Session)
      requires Inv(View())
      modifies this
      ensures View() == Apply(old(View()), Cancel(session)) && Inv(View())
    {
      StepKeepsInv(View(), Cancel(session));
      assert SlotOk(View(), session);
      hide RunOk, AbortOk;
      if session !in controllers {
        return;
      }
      var controller := controllers[session];
      aborted := aborted[controller := Mark(|runs[controller].emitted|, |runs[controller].calls|)];
      controllers := controllers - {session};
    }

    method RunPrompt(session: Session)
      requires Inv(View())
      modifies this
      ensures View() == Apply(old(View()), Start(session)) && Inv(View())
    {
      StepKeepsInv(View(), Start(session));
      assert |runs| !in aborted;
      hide Inv;
      var controller := |runs|;
      runs := runs + [Run(session, Finished, [], [], [], false)];
      controllers := controllers[session := controller];
      EnterIteration(controller, 0);
      assert runs == old(runs) + [runs[controller]];
    }

    /** The top of the for loop, and the code after it. */
    method EnterIteration(r: nat, i: nat)
      requires r < |runs|
      modifies `runs, `controllers
      ensures View() == Advanced(old(View()), r, LoopHead(old(runs)[r], i, maxToolCalls, r in aborted))
    {
      if i >= maxToolCalls {
        Finish(r, ErrorNote(BudgetExceeded));
      } else if r in aborted {
        Finish(r, CancelledNote);
      } else {
        runs := runs[r := runs[r].(calls := runs[r].calls + [Decide(runs[r].prior)], phase := Deciding(i))];
      }
    }

    /** The last notification, then the `finally` block. */
    method Finish(r: nat, note: Notification)
      requires r < |runs|
      modifies `runs, `controllers
      ensures View() == Advanced(old(View()), r, End(old(runs)[r], note))
    {
      runs := runs[r := EmitTo(runs[r], note)];
      runs := runs[r := runs[r].(phase := Finished)];
      var session := runs[r].session;
      if session in controllers && controllers[session] == r {
        controllers := controllers - {session};
      }
    }

    /** The handler of a rejection throws on a bare reason; only the `finally` block is left to do. */
    method Throw(r: nat)
      requires r < |runs|
      modifies `runs, `controllers
      ensures View() == Advanced(old(View()), r, Reject(old(runs)[r]))
    {
      runs := runs[r := runs[r].(phase := Finished, rejected := true)];
      var session := runs[r].session;
      if session in controllers && controllers[session] == r {
        controllers := controllers - {session};
      }
    }

    method OnDecision(r: nat, decision: Option<Action>)
      requires Enabled(View(), DecideResolved(r, decision)) && Inv(View())
      modifies this
      ensures View() == Apply(old(View()), DecideResolved(r, decision)) && Inv(View())
    {
      hide Inv;
      StepKeepsInv(View(), DecideResolved(r, decision));
      var i := runs[r].phase.i;
      if r in aborted {
        Finish(r, CancelledNote);
        return;
      }
      if decision == None {
        Finish(r, ErrorNote(InvalidAction));
        return;
      }
      var action := decision.value;
      runs := runs[r := runs[r].(prior := runs[r].prior + [Decided(action)])];
      match action
      case ToolCall(tool, args) =>
        runs := runs[r := runs[r].(calls := runs[r].calls + [Invoke(tool, args)], phase := Invoking(i, tool, args))];
      case Answer(_) =>
        runs := runs[r := runs[r].(calls := runs[r].calls + [Stream(runs[r].prior)], phase := Streaming(i))];
      case Clarify(prompt) => Finish(r, Clarification(prompt));
      case Fail(message) => Finish(r, ErrorNote(FromModel(message)));
    }

    method OnDecideThrew(r: nat, reply: Option<Text>)
      requires Enabled(View(), DecideThrew(r, reply)) && Inv(View())
      modifies this
      ensures View() == Apply(old(View()), DecideThrew(r, reply)) && Inv(View())
    {
      hide Inv;
      StepKeepsInv(View(), DecideThrew(r, reply));
      if reply == None {
        Throw(r);
        return;
      }
      runs := runs[r := EmitTo(runs[r], AnswerChunk(reply.value))];
      Finish(r, AnswerDone);
    }

    method OnToolResult(r: nat, result: ToolValue)
      requires Enabled(View(), ToolResolved(r, result)) && Inv(View())
      modifies this
      ensures View() == Apply(old(View()), ToolResolved(r, result)) && Inv(View())
    {
      hide Inv, TruncateToolResult;
      StepKeepsInv(View(), ToolResolved(r, result));
      var phase := runs[r].phase;
      var clipped := TruncateToolResult(result);
      runs := runs[r := runs[r].(prior := runs[r].prior
        + [ToolResult(phase.tool, phase.args, clipped.value, clipped.truncated)])];
      runs := runs[r := EmitTo(runs[r], ToolInvoked(phase.tool, result))];
      EnterIteration(r, phase.i + 1);
    }

    method OnToolThrew(r: nat, message: Option<Text>)
      requires Enabled(View(), ToolThrew(r, message)) && Inv(View())
      modifies this
      ensures View() == Apply(old(View()), ToolThrew(r, message)) && Inv(View())
    {
      hide Inv;
      StepKeepsInv(View(), ToolThrew(r, message));
      if message == None {
        Throw(r);
        return;
      }
      var phase := runs[r].phase;
      runs := runs[r := runs[r].(prior := runs[r].prior + [ToolError(phase.tool, phase.args, message.value)])];
      runs := runs[r := EmitTo(runs[r], ToolFailed(phase.tool, message.value))];
      EnterIteration(r, phase.i + 1);
    }

    /** Breaking out of the `for await` closes the stream first. */
    method OnChunk(r: nat, text: Text)
      requires Enabled(View(), ChunkYielded(r, text)) && Inv(View())
      modifies this
      ensures View() == Apply(old(View()), ChunkYielded(r, text)) && Inv(View())
    {
      hide Inv;
      StepKeepsInv(View(), ChunkYielded(r, text));
      if r in aborted {
        runs := runs[r := runs[r].(phase := Closing(runs[r].phase.i))];
        return;
      }
      runs := runs[r := EmitTo(runs[r], AnswerChunk(text))];
    }

    /** The stream has ended or has been closed. */
    method OnStreamEnd(r: nat)
      requires Enabled(View(), StreamEnded(r)) && Inv(View())
      modifies this
      ensures View() == Apply(old(View()), StreamEnded(r)) && Inv(View())
    {
      hide Inv;
      StepKeepsInv(View(), StreamEnded(r));
      if r in aborted {
        Finish(r, CancelledNote);
        return;
      }
      Finish(r, AnswerDone);
    }

    method OnStreamThrew(r: nat, reply: Option<Text>)
      requires Enabled(View(), StreamThrew(r, reply)) && Inv(View())
      modifies this
      ensures View() == Apply(old(View()), StreamThrew(r, reply)) && Inv(View())
    {
      hide Inv;
      StepKeepsInv(View(), StreamThrew(r, reply));
      if reply == None {
        Throw(r);
        return;
      }
      runs := runs[r := EmitTo(runs[r], AnswerChunk(reply.value))];
      Finish(r, AnswerDone);
    }
  }
}
