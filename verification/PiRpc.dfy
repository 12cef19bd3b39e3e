/**
 * Pi's request/response correlation.  Promises created by `sendAndAwait` are numbered in the order they are
 * created; a step is one call or one message from the child.
 */
module PiRpcProtocol {
  import opened Options
  import opened JsText
  import opened Decimals

  datatype Outcome = Fulfilled | Refused | WriteFailed | ExitedBeforeResponse

  datatype World = World(
    nextId: nat,
    pending: map<Text, nat>,
    exited: bool,
    issued: nat,
    settled: map<nat, Outcome>,
    orphaned: set<nat>)

  /** `id` is the caller's id, if it gave one; `written` says whether the write to stdin succeeded. */
  datatype Step =
    | Request(id: Option<Text>, written: bool)
    | Response(id: Option<Text>, success: bool)
    | Exit

  const INIT: World := World(1, map[], false, 0, map[], {})

  /** "pi-acp-" */
  const ID_PREFIX: Text := [112, 105, 45, 97, 99, 112, 45]

  function GeneratedId(n: nat): Text {
    ID_PREFIX + Print(n)
  }

  function RequestId(w: World, id: Option<Text>): Text {
    match id case Some(given) => given case None => GeneratedId(w.nextId)
  }

  /** After exit the call throws; a reused id replaces the older request, whose promise is then out of reach. */
  function RequestStep(w: World, given: Option<Text>, written: bool): World {
    if w.exited then w
    else
      var id := RequestId(w, given);
      var p := w.issued;
      var w1 := w.(
        nextId := if given.None? then w.nextId + 1 else w.nextId,
        issued := p + 1,
        orphaned := if id in w.pending then w.orphaned + {w.pending[id]} else w.orphaned);
      if written then w1.(pending := w.pending[id := p])
      else w1.(pending := w.pending - {id}, settled := w.settled[p := WriteFailed])
  }

  function ResponseStep(w: World, id: Option<Text>, success: bool): World {
    if id == None || id.value !in w.pending then w
    else w.(pending := w.pending - {id.value},
      settled := w.settled[w.pending[id.value] := if success then Fulfilled else Refused])
  }

  function ExitStep(w: World): World {
    if w.exited then w
    else w.(exited := true, pending := map[], settled := w.settled + map p | p in w.pending.Values ::
      ExitedBeforeResponse)
  }

  function Apply(w: World, step: Step): World {
    match step
    case Request(id, written) => RequestStep(w, id, written)
    case Response(id, success) => ResponseStep(w, id, success)
    case Exit => ExitStep(w)
  }

  function Final(w: World, steps: seq<Step>): World
    decreases |steps|
  {
    if steps == [] then w else Final(Apply(w, steps[0]), steps[1..])
  }

  // ---- conservation ----

  ghost predicate Injective(m: map<Text, nat>) {
    forall a, b :: a in m && b in m && m[a] == m[b] ==> a == b
  }

  /** `a`, `b` and `c` are disjoint and together hold exactly the numbers below `n`. */
  ghost predicate Parts(n: nat, a: set<nat>, b: set<nat>, c: set<nat>) {
    a !! b !! c && forall p: nat :: p < n <==> p in a || p in b || p in c
  }

  /** Each issued promise is in exactly one place: settled, awaiting its response, or orphaned. */
  ghost predicate Partitioned(w: World) {
    Parts(w.issued, w.settled.Keys, w.pending.Values, w.orphaned)
  }

  ghost predicate Inv(w: World) {
    Injective(w.pending) && Partitioned(w) && (w.exited ==> w.pending == map[])
  }

  lemma RemovedValues(m: map<Text, nat>, id: Text)
    requires Injective(m) && id in m
    ensures (m - {id}).Values == m.Values - {m[id]} && Injective(m - {id})
  {
    var m' := m - {id};
    forall p ensures p in m'.Values <==> p in m.Values && p != m[id] {
      if p in m.Values && p != m[id] {
        var a :| a in m && m[a] == p;
        assert a in m' && m'[a] == p;
      }
      if p in m'.Values {
        var a :| a in m' && m'[a] == p;
        assert a in m && m[a] == p;
      }
    }
  }

  lemma RequestKeeps(w: World, given: Option<Text>, written: bool)
    requires Inv(w)
    ensures Inv(RequestStep(w, given, written))
  {
    if !w.exited {
      hide Injective, Parts, RequestId;
      var id, p := RequestId(w, given), w.issued;
      var rest := w.pending - {id};
      RestValues(w.pending, id);
      NextIsNew(p, w.settled.Keys, w.pending.Values, w.orphaned);
      var lost := if id in w.pending then {w.pending[id]} else {};
      PartsAfterRequest(p, w.settled.Keys, w.pending.Values, w.orphaned, lost);
      var w' := RequestStep(w, given, written);
      assert w'.orphaned == w.orphaned + lost;
      if written {
        AddedValues(rest, id, p);
        assert w'.pending == rest[id := p];
      } else {
        assert w'.settled.Keys == w.settled.Keys + {p};
      }
    }
  }

  lemma RestValues(m: map<Text, nat>, id: Text)
    requires Injective(m)
    ensures var lost := if id in m then {m[id]} else {};
      lost <= m.Values && (m - {id}).Values == m.Values - lost && Injective(m - {id})
  {
    if id in m { RemovedValues(m, id); } else { assert m - {id} == m; }
  }

  lemma NextIsNew(n: nat, a: set<nat>, b: set<nat>, c: set<nat>)
    requires Parts(n, a, b, c)
    ensures n !in a && n !in b && n !in c
  {
  }

  lemma PartsAfterRequest(n: nat, a: set<nat>, b: set<nat>, c: set<nat>, lost: set<nat>)
    requires Parts(n, a, b, c) && lost <= b
    ensures Parts(n + 1, a, b - lost + {n}, c + lost)
    ensures Parts(n + 1, a + {n}, b - lost, c + lost)
  {
    NextIsNew(n, a, b, c);
  }

  lemma AddedValues(m: map<Text, nat>, id: Text, p: nat)
    requires Injective(m) && id !in m && p !in m.Values
    ensures m[id := p].Values == m.Values + {p} && Injective(m[id := p])
  {
    var m' := m[id := p];
    assert m'[id] == p;
    forall q | q in m.Values ensures q in m'.Values {
      var a :| a in m && m[a] == q;
      assert m'[a] == q;
    }
    forall a | a in m ensures m[a] != p { assert m[a] in m.Values; }
  }

  lemma ResponseKeeps(w: World, id: Option<Text>, success: bool)
    requires Inv(w)
    ensures Inv(ResponseStep(w, id, success))
  {
    if id.Some? && id.value in w.pending {
      RemovedValues(w.pending, id.value);
      assert w.pending[id.value] in w.pending.Values;
      hide Injective;
      assert ResponseStep(w, id, success).settled.Keys == w.settled.Keys + {w.pending[id.value]};
    }
  }

  lemma ExitKeeps(w: World)
    requires Inv(w)
    ensures Inv(ExitStep(w))
  {
    if !w.exited {
      var none: map<Text, nat> := map[];
      assert none.Values == {};
      assert ExitStep(w).settled.Keys == w.settled.Keys + w.pending.Values;
    }
  }

  lemma StepKeepsInv(w: World, step: Step)
    requires Inv(w)
    ensures Inv(Apply(w, step))
  {
    match step
    case Request(id, written) => RequestKeeps(w, id, written);
    case Response(id, success) => ResponseKeeps(w, id, success);
    case Exit => ExitKeeps(w);
  }

  /** A settled promise stays as it settled: no step touches an outcome again. */
  lemma StepSettlesOnce(w: World, step: Step)
    requires Inv(w)
    ensures forall p :: p in w.settled ==> p in Apply(w, step).settled && Apply(w, step).settled[p] == w.settled[p]
  {
    if step.Response? && step.id.Some? && step.id.value in w.pending {
      assert w.pending[step.id.value] in w.pending.Values;
    }
  }

  lemma {:induction false} PromisesSettleAtMostOnce(w: World, steps: seq<Step>)
    requires Inv(w)
    ensures Inv(Final(w, steps))
    ensures forall p :: p in w.settled ==> p in Final(w, steps).settled && Final(w, steps).settled[p] == w.settled[p]
    decreases |steps|
  {
    if steps == [] {
    } else {
      hide Inv, Apply;
      StepKeepsInv(w, steps[0]);
      StepSettlesOnce(w, steps[0]);
      PromisesSettleAtMostOnce(Apply(w, steps[0]), steps[1..]);
    }
  }

  lemma {:induction false} ExitIsFinal(w: World, steps: seq<Step>)
    requires Inv(w) && w.exited
    ensures Final(w, steps) == w
    decreases |steps|
  {
    if steps == [] {
    } else {
      assert Apply(w, steps[0]) == w;
      ExitIsFinal(w, steps[1..]);
    }
  }

  // ---- what each promise settles as ----

  /** How a step settles promise `p`, which has not settled before. */
  ghost predicate SettlesAs(w: World, step: Step, p: nat, o: Outcome) {
    match o
    case Fulfilled => exists id :: id in w.pending && w.pending[id] == p && step == Response(Some(id), true)
    case Refused => exists id :: id in w.pending && w.pending[id] == p && step == Response(Some(id), false)
    case WriteFailed => step.Request? && !step.written && !w.exited && p == w.issued
    case ExitedBeforeResponse => step.Exit? && !w.exited && p in w.pending.Values
  }

  /** A promise settles with an outcome exactly on the step that calls for it. */
  lemma StepOutcome(w: World, step: Step, p: nat, o: Outcome)
    requires Inv(w) && p !in w.settled
    ensures p in Apply(w, step).settled && Apply(w, step).settled[p] == o <==> SettlesAs(w, step, p, o)
  {
    hide RequestId, Partitioned;
    if step.Response? && step.id != None && step.id.value in w.pending {
      assert w.pending[step.id.value] in w.pending.Values;
    }
  }

  /** Neither the exit nor anything else under the id comes up. */
  predicate Undisturbed(w: World, steps: seq<Step>, id: Text)
    decreases |steps|
  {
    steps == [] ||
    (match steps[0]
     case Exit => false
     case Response(other, _) => other != Some(id) && Undisturbed(Apply(w, steps[0]), steps[1..], id)
     case Request(given, _) => RequestId(w, given) != id && Undisturbed(Apply(w, steps[0]), steps[1..], id))
  }

  lemma {:induction false} StillPending(w: World, steps: seq<Step>, id: Text)
    requires Undisturbed(w, steps, id) && id in w.pending && !w.exited
    ensures !Final(w, steps).exited
    ensures id in Final(w, steps).pending && Final(w, steps).pending[id] == w.pending[id]
    decreases |steps|
  {
    if steps == [] {
    } else {
      hide RequestId;
      StillPending(Apply(w, steps[0]), steps[1..], id);
    }
  }

  /** The response to a written request settles that request's promise, as a success or as a refusal. */
  lemma RequestGetsItsResponse(before: seq<Step>, given: Option<Text>, between: seq<Step>, success: bool)
    requires !Final(INIT, before).exited
    requires var w := Final(INIT, before);
      Undisturbed(RequestStep(w, given, true), between, RequestId(w, given))
    ensures var w := Final(INIT, before); var p := w.issued;
      var w1 := Final(RequestStep(w, given, true), between);
      var w2 := ResponseStep(w1, Some(RequestId(w, given)), success);
      p !in w1.settled && p in w2.settled && w2.settled[p] == if success then Fulfilled else Refused
  {
    var w := Final(INIT, before);
    var id := RequestId(w, given);
    var w0 := RequestStep(w, given, true);
    PromisesSettleAtMostOnce(INIT, before);
    RequestKeeps(w, given, true);
    PromisesSettleAtMostOnce(w0, between);
    StillPending(w0, between, id);
    var w1 := Final(w0, between);
    assert w1.pending[id] in w1.pending.Values;
    hide RequestId, Injective, Undisturbed;
  }

  // ---- a promise whose id is reused while it is outstanding never settles ----

  /** A caller can check this before the call. */
  predicate Collides(w: World, step: Step) {
    step.Request? && !w.exited && RequestId(w, step.id) in w.pending
  }

  ghost predicate CollisionFree(w: World, steps: seq<Step>)
    decreases |steps|
  {
    steps == [] || (!Collides(w, steps[0]) && CollisionFree(Apply(w, steps[0]), steps[1..]))
  }

  lemma StepOrphans(w: World, step: Step)
    requires Inv(w)
    ensures w.orphaned <= Apply(w, step).orphaned
    ensures !Collides(w, step) ==> Apply(w, step).orphaned == w.orphaned
    ensures Collides(w, step) ==> w.pending[RequestId(w, step.id)] in Apply(w, step).orphaned
  {
  }

  /** Nothing that comes later settles it: not its own response, not another one, not the exit. */
  lemma {:induction false} OrphansNeverSettle(w: World, steps: seq<Step>, p: nat)
    requires Inv(w) && p in w.orphaned
    ensures p in Final(w, steps).orphaned && p !in Final(w, steps).settled
    decreases |steps|
  {
    if steps == [] {
    } else {
      hide Apply;
      StepOrphans(w, steps[0]);
      StepKeepsInv(w, steps[0]);
      OrphansNeverSettle(Apply(w, steps[0]), steps[1..], p);
    }
  }

  lemma {:induction false} OrphansIffCollision(w: World, steps: seq<Step>)
    requires Inv(w) && w.orphaned == {}
    ensures Final(w, steps).orphaned == {} <==> CollisionFree(w, steps)
    decreases |steps|
  {
    if steps == [] {
    } else {
      hide Inv, Apply;
      StepKeepsInv(w, steps[0]);
      StepOrphans(w, steps[0]);
      if Collides(w, steps[0]) {
        OrphansNeverSettle(Apply(w, steps[0]), steps[1..], w.pending[RequestId(w, steps[0].id)]);
      } else {
        OrphansIffCollision(Apply(w, steps[0]), steps[1..]);
      }
    }
  }

  /** A request that reuses an outstanding id leaves the earlier promise unsettled, whatever happens afterwards. */
  lemma CollisionLosesPromise(w: World, step: Step, later: seq<Step>)
    requires Inv(w) && Collides(w, step)
    ensures w.pending[RequestId(w, step.id)] !in Final(Apply(w, step), later).settled
  {
    StepKeepsInv(w, step);
    StepOrphans(w, step);
    OrphansNeverSettle(Apply(w, step), later, w.pending[RequestId(w, step.id)]);
  }

  /**
   * Once the child has exited, every promise issued has settled exactly if no request ever reused an outstanding
   * id; and nothing changes after that.
   */
  lemma AllSettledIffCollisionFree(steps: seq<Step>, more: seq<Step>)
    requires Final(INIT, steps).exited
    ensures (forall p :: 0 <= p < Final(INIT, steps).issued ==> p in Final(INIT, steps).settled) <==>
      CollisionFree(INIT, steps)
    ensures Final(Final(INIT, steps), more) == Final(INIT, steps)
  {
    PromisesSettleAtMostOnce(INIT, steps);
    OrphansIffCollision(INIT, steps);
    ExitIsFinal(Final(INIT, steps), more);
    var w := Final(INIT, steps);
    if p :| p in w.orphaned { assert p < w.issued && p !in w.settled; }
  }

  /** Two requests under one id, one response, then the exit: the first promise never settles. */
  lemma ReusedIdLosesPromise(id: Text)
    ensures var steps := [Request(Some(id), true), Request(Some(id), true), Response(Some(id), true), Exit];
      && Final(INIT, steps).exited && Final(INIT, steps).issued == 2
      && Final(INIT, steps).settled == map[1 := Fulfilled]
  {
    var s1, s2, s3 := [Request(Some(id), true), Response(Some(id), true), Exit], [Response(Some(id), true), Exit],
      [Exit];
    assert [Request(Some(id), true), Request(Some(id), true), Response(Some(id), true), Exit][1..] == s1;
    assert s1[1..] == s2 && s2[1..] == s3 && s3[1..] == [];
    var w1 := Apply(INIT, Request(Some(id), true));
    var w2 := Apply(w1, Request(Some(id), true));
    var w3 := Apply(w2, Response(Some(id), true));
    var w4 := Apply(w3, Exit);
    assert w3.pending == map[] && w3.settled == map[1 := Fulfilled];
    var none: map<Text, nat> := map[];
    assert none.Values == {};
    assert w4.settled == map[1 := Fulfilled];
    assert Final(w3, s3) == w4 && Final(w2, s2) == w4 && Final(w1, s1) == w4;
  }

  ghost predicate PendingAreGenerated(w: World) {
    forall id :: id in w.pending ==> exists n :: 1 <= n < w.nextId && id == GeneratedId(n)
  }

  lemma GeneratedInjective(m: nat, n: nat)
    requires GeneratedId(m) == GeneratedId(n)
    ensures m == n
  {
    assert GeneratedId(m)[|ID_PREFIX|..] == Print(m) && GeneratedId(n)[|ID_PREFIX|..] == Print(n);
    PrintInjective(m, n);
  }

  lemma GeneratedStep(w: World, step: Step)
    requires PendingAreGenerated(w) && w.nextId >= 1 && (step.Request? ==> step.id == None)
    ensures !Collides(w, step) && PendingAreGenerated(Apply(w, step))
  {
    hide GeneratedId;
    var w' := Apply(w, step);
    if step.Request? && GeneratedId(w.nextId) in w.pending {
      var n :| 1 <= n < w.nextId && GeneratedId(w.nextId) == GeneratedId(n);
      GeneratedInjective(w.nextId, n);
    }
    forall id | id in w'.pending ensures exists n :: 1 <= n < w'.nextId && id == GeneratedId(n) {
      if id in w.pending {
        var n :| 1 <= n < w.nextId && id == GeneratedId(n);
        assert n < w'.nextId;
      } else {
        assert id == GeneratedId(w.nextId) && w.nextId < w'.nextId;
      }
    }
  }

  /** Generated ids never collide. */
  lemma {:induction false} GeneratedIdsAreCollisionFree(w: World, steps: seq<Step>)
    requires PendingAreGenerated(w) && w.nextId >= 1
    requires forall i :: 0 <= i < |steps| && steps[i].Request? ==> steps[i].id == None
    ensures CollisionFree(w, steps)
    decreases |steps|
  {
    if steps == [] {
    } else {
      GeneratedStep(w, steps[0]);
      assert Apply(w, steps[0]).nextId >= 1;
      hide Apply, Collides, PendingAreGenerated;
      assert forall i :: 0 <= i < |steps[1..]| ==> steps[1..][i] == steps[i + 1];
      GeneratedIdsAreCollisionFree(Apply(w, steps[0]), steps[1..]);
    }
  }
}

/** The client object: the pending-response table updated in place, fed by the line buffer. */
module PiRpcClient {
  import opened Options
  import opened JsText
  import opened Splitting
  import opened LineBuffers
  import opened PiRpcProtocol

  /** A decoded message: a response, or any other event. */
  datatype Message = ResponseMessage(id: Option<Text>, success: bool) | EventMessage(payload: Text)

  /** `parse` stands for JSON.parse and the object check. */
  type Parser = Text -> Option<Message>

  function Messages(lines: seq<Text>, parse: Parser): seq<Message> {
    if lines == [] then []
    else
      (match parse(lines[0]) case None => [] case Some(m) => [m]) + Messages(lines[1..], parse)
  }

  /** The lines that are no message. */
  function Unreadable(lines: seq<Text>, parse: Parser): seq<Text> {
    if lines == [] then []
    else (if parse(lines[0]) == None then [lines[0]] else []) + Unreadable(lines[1..], parse)
  }

  /** The correlation steps a list of messages amounts to. */
  function Responses(messages: seq<Message>): seq<Step> {
    if messages == [] then []
    else
      (match messages[0] case ResponseMessage(id, success) => [Response(id, success)] case EventMessage(_) => [])
      + Responses(messages[1..])
  }

  lemma {:induction false} ReadInOrder(lines: seq<Text>, parse: Parser, messages: seq<Message>)
    requires |lines| == |messages| && forall i :: 0 <= i < |lines| ==> parse(lines[i]) == Some(messages[i])
    ensures Messages(lines, parse) == messages && Unreadable(lines, parse) == []
  {
    if lines == [] {
    } else {
      ReadInOrder(lines[1..], parse, messages[1..]);
      assert messages == [messages[0]] + messages[1..];
    }
  }

  /** Messages written one a line, ended by LF, are read as written, each once and in order. */
  lemma WrittenMessagesAreRead(lines: seq<Text>, parse: Parser, messages: seq<Message>)
    requires |lines| == |messages| && forall i :: 0 <= i < |lines| ==> parse(lines[i]) == Some(messages[i])
    requires forall i :: 0 <= i < |lines| ==> Transparent(lines[i])
    ensures Messages(LinesOf(Framed(lines, NEWLINE)), parse) == messages
    ensures Unreadable(LinesOf(Framed(lines, NEWLINE)), parse) == []
  {
    hide LinesOf, ResidualOf, Framed;
    FramingRoundTrip(lines);
    ReadInOrder(lines, parse, messages);
  }

  lemma {:induction false} FinalAppend(w: World, a: seq<Step>, b: seq<Step>)
    ensures Final(w, a + b) == Final(Final(w, a), b)
    decreases |a|
  {
    if a == [] {
      assert a + b == b;
    } else {
      assert (a + b)[1..] == a[1..] + b;
      FinalAppend(Apply(w, a[0]), a[1..], b);
    }
  }

  class Client {
    const buffer: LineBuffer
    const parse: Parser
    var nextId: nat
    var pendingResponses: map<Text, nat>
    var exited: bool
    /** The promises created so far, and how they settled. */
    var issued: nat
    var settled: map<nat, Outcome>
    ghost var orphaned: set<nat>
    /** The `onMessage` calls. */
    var delivered: seq<Message>
    /** The `onProtocolError` calls. */
    var protocolErrors: seq<Text>

    ghost function View(): World
      reads this
    {
      World(nextId, pendingResponses, exited, issued, settled, orphaned)
    }

    constructor (parse: Parser)
      ensures View() == INIT && Inv(View()) && fresh(buffer) && buffer.buffer == [] && delivered == []
      ensures this.parse == parse && protocolErrors == []
    {
      this.parse := parse;
      protocolErrors := [];
      buffer := new LineBuffer();
      nextId, pendingResponses, exited, issued, settled, delivered := 1, map[], false, 0, map[], [];
      orphaned := {};
    }

    /** Returns the new promise, or nothing when the process has exited and the call throws. */
    method SendAndAwait(id: Option<Text>, written: bool) returns (promise: Option<nat>)
      requires Inv(View())
      modifies this
      ensures View() == Apply(old(View()), Request(id, written)) && Inv(View())
      ensures promise == if old(exited) then None else Some(old(issued))
      ensures delivered == old(delivered) && protocolErrors == old(protocolErrors)
    {
      hide Inv, GeneratedId;
      StepKeepsInv(View(), Request(id, written));
      if exited {
        return None;
      }
      var requestId := RequestId(World(nextId, pendingResponses, exited, issued, settled, {}), id);
      if id == None {
        nextId := nextId + 1;
      }
      promise := Some(issued);
      if requestId in pendingResponses {
        orphaned := orphaned + {pendingResponses[requestId]};
      }
      pendingResponses := pendingResponses[requestId := issued];
      if !written {
        pendingResponses := pendingResponses - {requestId};
        settled := settled[issued := WriteFailed];
      }
      issued := issued + 1;
      assert !written ==> pendingResponses == old(pendingResponses) - {requestId};
    }

    method HandleLine(line: Text)
      requires Inv(View())
      modifies this
      ensures View() == Final(old(View()), Responses(Messages([line], parse))) && Inv(View())
      ensures delivered == old(delivered) + Messages([line], parse)
      ensures protocolErrors == old(protocolErrors) + Unreadable([line], parse)
    {
      var parsed := parse(line);
      assert Messages([line], parse) == match parsed case None => [] case Some(m) => [m] by {
        assert Messages([line][1..], parse) == [];
      }
      assert Unreadable([line], parse) == if parsed == None then [line] else [] by {
        assert Unreadable([line][1..], parse) == [];
      }
      if parsed == None {
        protocolErrors := protocolErrors + [line];
        return;
      }
      var message := parsed.value;
      assert [message][1..] == [];
      match message {
        case ResponseMessage(id, success) =>
          StepKeepsInv(View(), Response(id, success));
          OneStep(View(), Response(id, success));
          if id.Some? {
            if id.value in pendingResponses {
              var promise := pendingResponses[id.value];
              pendingResponses := pendingResponses - {id.value};
              settled := settled[promise := if success then Fulfilled else Refused];
            }
          }
        case EventMessage(_) =>
      }
      delivered := delivered + [message];
    }

    method HandleStdoutChunk(chunk: Text)
      requires Inv(View())
      modifies this, buffer
      ensures buffer.buffer == ResidualOf(old(buffer.buffer) + chunk)
      ensures View() == Final(old(View()), Responses(Messages(LinesOf(old(buffer.buffer) + chunk), parse)))
        && Inv(View())
      ensures delivered == old(delivered) + Messages(LinesOf(old(buffer.buffer) + chunk), parse)
      ensures protocolErrors == old(protocolErrors) + Unreadable(LinesOf(old(buffer.buffer) + chunk), parse)
    {
      hide Inv, LinesOf, ResidualOf, Apply, Final, Messages, Responses, Unreadable;
      var lines := buffer.Push(chunk);
      NoLines(old(View()), parse);
      assert lines[..0] == [];
      for k := 0 to |lines|
        invariant Inv(View()) && buffer.buffer == ResidualOf(old(buffer.buffer) + chunk)
        invariant View() == Final(old(View()), Responses(Messages(lines[..k], parse)))
        invariant delivered == old(delivered) + Messages(lines[..k], parse)
        invariant protocolErrors == old(protocolErrors) + Unreadable(lines[..k], parse)
      {
        NextLine(old(View()), lines, k, parse);
        HandleLine(lines[k]);
      }
      assert lines[..|lines|] == lines;
    }

    method HandleExit()
      requires Inv(View())
      modifies this, buffer
      ensures View() == Apply(old(View()), Exit) && Inv(View())
      ensures delivered == old(delivered)
      ensures old(exited) ==> buffer.buffer == old(buffer.buffer) && protocolErrors == old(protocolErrors)
      ensures !old(exited) ==> buffer.buffer == []
      ensures !old(exited) ==>
        protocolErrors == old(protocolErrors) + (if old(buffer.buffer) == [] then [] else [old(buffer.buffer)])
    {
      hide Inv;
      StepKeepsInv(View(), Exit);
      if exited {
        return;
      }
      exited := true;
      var tail := buffer.Drain();
      if |tail| > 0 {
        protocolErrors := protocolErrors + [tail];
      }
      settled := settled + map p | p in pendingResponses.Values :: ExitedBeforeResponse;
      pendingResponses := map[];
    }
  }

  lemma NoLines(w: World, parse: Parser)
    ensures Messages([], parse) == [] && Unreadable([], parse) == [] && Final(w, Responses(Messages([], parse))) == w
  {
  }

  lemma NextLine(w: World, lines: seq<Text>, k: nat, parse: Parser)
    requires k < |lines|
    ensures Messages(lines[..k + 1], parse) == Messages(lines[..k], parse) + Messages([lines[k]], parse)
    ensures Unreadable(lines[..k + 1], parse) == Unreadable(lines[..k], parse) + Unreadable([lines[k]], parse)
    ensures Final(w, Responses(Messages(lines[..k + 1], parse)))
         == Final(Final(w, Responses(Messages(lines[..k], parse))), Responses(Messages([lines[k]], parse)))
  {
    hide *;
    assert lines[..k + 1] == lines[..k] + [lines[k]];
    MessagesAppend(lines[..k], [lines[k]], parse);
    UnreadableAppend(lines[..k], [lines[k]], parse);
    ResponsesAppend(Messages(lines[..k], parse), Messages([lines[k]], parse));
    FinalAppend(w, Responses(Messages(lines[..k], parse)), Responses(Messages([lines[k]], parse)));
  }

  lemma OneStep(w: World, step: Step)
    ensures Final(w, [step]) == Apply(w, step)
  {
    assert [step][1..] == [];
  }

  lemma {:induction false} MessagesAppend(a: seq<Text>, b: seq<Text>, parse: Parser)
    ensures Messages(a + b, parse) == Messages(a, parse) + Messages(b, parse)
  {
    if a == [] {
      assert a + b == b;
    } else {
      assert (a + b)[0] == a[0] && (a + b)[1..] == a[1..] + b;
      MessagesAppend(a[1..], b, parse);
    }
  }

  lemma {:induction false} UnreadableAppend(a: seq<Text>, b: seq<Text>, parse: Parser)
    ensures Unreadable(a + b, parse) == Unreadable(a, parse) + Unreadable(b, parse)
  {
    if a == [] {
      assert a + b == b;
    } else {
      assert (a + b)[0] == a[0] && (a + b)[1..] == a[1..] + b;
      UnreadableAppend(a[1..], b, parse);
    }
  }

  lemma {:induction false} ResponsesAppend(a: seq<Message>, b: seq<Message>)
    ensures Responses(a + b) == Responses(a) + Responses(b)
  {
    if a == [] {
      assert a + b == b;
    } else {
      assert (a + b)[0] == a[0] && (a + b)[1..] == a[1..] + b;
      ResponsesAppend(a[1..], b);
    }
  }
}
