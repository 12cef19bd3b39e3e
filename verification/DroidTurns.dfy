/** What the ACP client is told during a Droid turn, read off the events of the turn. */
module DroidTurns {
  import opened Options
  import opened JsText
  import opened Splitting
  import opened LineBuffers
  import opened DroidTranslator
  import opened DroidExecClient

  /** Everything `pick` finds, in order. */
  function Collect<A, B>(xs: seq<A>, pick: A -> seq<B>): seq<B> {
    if xs == [] then [] else Collect(xs[..|xs| - 1], pick) + pick(xs[|xs| - 1])
  }

  lemma {:induction false} CollectAppend<A, B>(xs: seq<A>, ys: seq<A>, pick: A -> seq<B>)
    ensures Collect(xs + ys, pick) == Collect(xs, pick) + Collect(ys, pick)
  {
    if ys == [] {
      assert xs + ys == xs;
    } else {
      var front := ys[..|ys| - 1];
      assert (xs + ys)[..|xs + ys| - 1] == xs + front;
      CollectAppend(xs, front, pick);
    }
  }

  // ---- tool results, messages and tool calls ----

  function UpdateIn(n: Notification): seq<(Text, bool)> {
    if n.ToolCallUpdate? then [(n.id, n.failed)] else []
  }

  function ResultIn(e: DroidEvent): seq<(Text, bool)> {
    match e
    case ToolResult(Some(id), isError) => if id == [] then [] else [(id, isError)]
    case _ => []
  }

  function ChunkIn(n: Notification): seq<Text> {
    if n.AgentMessageChunk? then [n.text] else []
  }

  function MessageIn(e: DroidEvent): seq<Text> {
    match e
    case Message(true, Some(text)) => if StripInlineThinking(text) == [] then [] else [StripInlineThinking(text)]
    case _ => []
  }

  lemma {:induction false} Mirrors<B>(s: TurnState, events: seq<DroidEvent>, told: Notification -> seq<B>,
        meant: DroidEvent -> seq<B>)
    requires forall t, e :: Collect(Translate(t, e).1.notifications, told) == meant(e)
    ensures Collect(Sent(s, events), told) == Collect(events, meant)
    decreases |events|
  {
    if events == [] {
    } else {
      var front := events[..|events| - 1];
      Mirrors(s, front, told, meant);
      hide Collect, Translate;
      CollectAppend(Sent(s, front), SentBy(s, events), told);
      CollectLast(events, meant);
    }
  }

  lemma CollectLast<A, B>(xs: seq<A>, pick: A -> seq<B>)
    requires xs != []
    ensures Collect(xs, pick) == Collect(xs[..|xs| - 1], pick) + pick(xs[|xs| - 1])
  {
  }

  lemma CollectOne<A, B>(x: A, pick: A -> seq<B>)
    ensures Collect([x], pick) == pick(x)
  {
    assert [x][..0] == [];
  }

  lemma CollectTwo<A, B>(x: A, y: A, pick: A -> seq<B>)
    ensures Collect([x, y], pick) == pick(x) + pick(y)
  {
    assert [x, y][..1] == [x];
    CollectOne(x, pick);
  }

  lemma OneEventTells(s: TurnState, e: DroidEvent)
    ensures Collect(Translate(s, e).1.notifications, UpdateIn) == ResultIn(e)
    ensures Collect(Translate(s, e).1.notifications, ChunkIn) == MessageIn(e)
  {
    hide StripInlineThinking;
    var sent := Translate(s, e).1.notifications;
    if |sent| == 1 {
      CollectOne(sent[0], UpdateIn);
      CollectOne(sent[0], ChunkIn);
    } else if |sent| == 2 {
      CollectTwo(sent[0], sent[1], UpdateIn);
      CollectTwo(sent[0], sent[1], ChunkIn);
    }
  }

  /** A turn updates exactly the tool calls that had results, as they ended, and sends exactly the cleaned messages. */
  lemma TurnMirrorsResultsAndMessages(s: TurnState, events: seq<DroidEvent>)
    ensures Collect(Sent(s, events), UpdateIn) == Collect(events, ResultIn)
    ensures Collect(Sent(s, events), ChunkIn) == Collect(events, MessageIn)
  {
    forall t, e ensures Collect(Translate(t, e).1.notifications, UpdateIn) == ResultIn(e)
                        && Collect(Translate(t, e).1.notifications, ChunkIn) == MessageIn(e)
    {
      OneEventTells(t, e);
    }
    hide Collect, Translate;
    Mirrors(s, events, UpdateIn, ResultIn);
    Mirrors(s, events, ChunkIn, MessageIn);
  }

  // ---- a whole turn, without the translator's state ----

  predicate NamesTool(e: DroidEvent, id: Text) {
    (e.ToolCall? || e.ToolResult?) && e.id == Some(id)
  }

  ghost predicate NamedBefore(before: seq<DroidEvent>, id: Text) {
    exists i :: 0 <= i < |before| && NamesTool(before[i], id)
  }

  ghost predicate ReasonedBefore(before: seq<DroidEvent>, id: Text) {
    exists i :: 0 <= i < |before| && ForwardsReasoning(before[i], id)
  }

  /** What an event means to the client, given the events of the turn before it. */
  ghost function Meaning(before: seq<DroidEvent>, e: DroidEvent): seq<Notification> {
    match e
    case Message(true, Some(text)) =>
      if StripInlineThinking(text) == [] then [] else [AgentMessageChunk(StripInlineThinking(text))]
    case Reasoning(id, Some(text)) =>
      if text == [] || (id != None && ReasonedBefore(before, id.value)) then [] else [AgentThoughtChunk(text)]
    case ToolCall(Some(id), title) =>
      if id == [] then []
      else [ToolCallStarted(id, if title == None || title.value == [] then id else title.value)]
    case ToolResult(Some(id), isError) =>
      if id == [] then []
      else if NamedBefore(before, id) then [ToolCallUpdate(id, isError)]
      else [ToolCallStarted(id, id), ToolCallUpdate(id, isError)]
    case _ => []
  }

  ghost function TurnMeaning(events: seq<DroidEvent>): seq<Notification> {
    if events == [] then []
    else TurnMeaning(events[..|events| - 1]) + Meaning(events[..|events| - 1], events[|events| - 1])
  }

  lemma NamedSnoc(front: seq<DroidEvent>, e: DroidEvent, id: Text)
    ensures NamedBefore(front + [e], id) <==> NamedBefore(front, id) || NamesTool(e, id)
    ensures ReasonedBefore(front + [e], id) <==> ReasonedBefore(front, id) || ForwardsReasoning(e, id)
  {
    var all := front + [e];
    hide NamesTool, ForwardsReasoning;
    assert all[|front|] == e && forall i :: 0 <= i < |front| ==> all[i] == front[i];
  }

  lemma StateStep(s: TurnState, e: DroidEvent, id: Text)
    requires id != []
    ensures id in Translate(s, e).0.startedToolCalls <==> id in s.startedToolCalls || NamesTool(e, id)
  {
  }

  lemma {:induction false} StateIsPast(events: seq<DroidEvent>, id: Text)
    ensures id != [] ==> (id in StateAfter(TURN_STARTED, events).startedToolCalls <==> NamedBefore(events, id))
    ensures id in StateAfter(TURN_STARTED, events).seenReasoningIds <==> ReasonedBefore(events, id)
  {
    if events == [] {
    } else {
      var front, last := events[..|events| - 1], events[|events| - 1];
      StateIsPast(front, id);
      assert events == front + [last];
      NamedSnoc(front, last, id);
      hide NamedBefore, ReasonedBefore, NamesTool;
      if id != [] { StateStep(StateAfter(TURN_STARTED, front), last, id); }
      SeenStep(StateAfter(TURN_STARTED, front), last, id);
      hide Translate;
    }
  }

  /** Every turn sends what its events mean, in order. */
  lemma {:induction false} TurnSendsMeaning(events: seq<DroidEvent>)
    ensures Sent(TURN_STARTED, events) == TurnMeaning(events)
  {
    if events == [] {
    } else {
      var front, last := events[..|events| - 1], events[|events| - 1];
      TurnSendsMeaning(front);
      if (last.ToolResult? || last.Reasoning?) && last.id != None { StateIsPast(front, last.id.value); }
      hide NamedBefore, ReasonedBefore, StripInlineThinking, StateAfter;
      assert SentBy(TURN_STARTED, events) == Meaning(front, last);
    }
  }

  // ---- inline thinking ----

  /** A thinking block, the white space after it, and the text up to the next block. */
  datatype Segment = Segment(thinking: Text, spaces: Text, text: Text)

  function Tagged(first: Text, segments: seq<Segment>): Text
    decreases |segments|
  {
    if segments == [] then first
    else
      var g := segments[0];
      first + (OPEN_TAG + (g.thinking + (CLOSE_TAG + (g.spaces + Tagged(g.text, segments[1..])))))
  }

  function Untagged(first: Text, segments: seq<Segment>): Text
    decreases |segments|
  {
    if segments == [] then first else first + Untagged(segments[0].text, segments[1..])
  }

  ghost predicate PlainSegment(g: Segment) {
    && IndexOf(g.thinking, CLOSE_TAG) == -1
    && (forall i :: 0 <= i < |g.spaces| ==> IsSpace(g.spaces[i]))
    && IndexOf(g.text, OPEN_TAG) == -1 && (g.text == [] || !IsSpace(g.text[0]))
  }

  predicate StartsUniquely(tag: Text) {
    tag != [] && forall i :: 0 < i < |tag| ==> tag[i] != tag[0]
  }

  lemma TagsStartUniquely()
    ensures StartsUniquely(OPEN_TAG) && StartsUniquely(CLOSE_TAG) && CLOSE_TAG != []
  {
  }

  /** A tag begins with a character it has nowhere else, so text without the tag does not hide its start. */
  lemma TagAfterText(text: Text, tag: Text, rest: Text)
    requires IndexOf(text, tag) == -1 && StartsUniquely(tag)
    ensures IndexOf(text + (tag + rest), tag) == |text|
  {
    var t := text + (tag + rest);
    assert t[|text|..|text| + |tag|] == tag;
    assert OccursAt(t, tag, |text|);
    var j := IndexOf(t, tag);
    if j + |tag| <= |text| {
      assert text[j..j + |tag|] == t[j..j + |tag|];
      assert OccursAt(text, tag, j);
    } else if j < |text| {
      NoOverlap(text, tag, rest, j);
      assert false;
    }
  }

  lemma NoOverlap(text: Text, tag: Text, rest: Text, j: nat)
    requires j < |text| < j + |tag| && StartsUniquely(tag)
    ensures !OccursAt(text + (tag + rest), tag, j)
  {
    var t := text + (tag + rest);
    assert t[j..j + |tag|][|text| - j] == tag[0];
  }

  lemma FirstFromIsIndexOf(head: Text, tail: Text, sep: Text)
    requires sep != [] && IndexOf(tail, sep) != -1
    ensures FirstFrom(head + tail, sep, |head|) == |head| + IndexOf(tail, sep)
  {
    hide FirstFrom, IndexOf, OccursAt;
    var i, r := IndexOf(tail, sep), FirstFrom(head + tail, sep, |head|);
    IndexOfFinds(tail, sep, i);
    OccursLater(head, tail, sep, i);
    FirstFromFinds(head + tail, sep, |head|, |head| + i);
    OccursLater(head, tail, sep, r - |head|);
    IndexOfFinds(tail, sep, r - |head|);
  }

  lemma FirstFromFinds(t: Text, sep: Text, from: nat, j: int)
    requires from <= j && OccursAt(t, sep, j)
    ensures from <= FirstFrom(t, sep, from) <= j && OccursAt(t, sep, FirstFrom(t, sep, from))
  {
    hide OccursAt;
  }

  lemma IndexOfFinds(t: Text, sep: Text, j: int)
    requires OccursAt(t, sep, j)
    ensures 0 <= IndexOf(t, sep) <= j
  {
  }

  lemma OccursLater(head: Text, tail: Text, sep: Text, j: int)
    ensures 0 <= j ==> (OccursAt(head + tail, sep, |head| + j) <==> OccursAt(tail, sep, j))
  {
    if 0 <= j && j + |sep| <= |tail| {
      assert (head + tail)[|head| + j..|head| + j + |sep|] == tail[j..j + |sep|];
    }
  }

  lemma {:induction false} TrimStartSkips(spaces: Text, t: Text)
    requires forall i :: 0 <= i < |spaces| ==> IsSpace(spaces[i])
    requires t == [] || !IsSpace(t[0])
    ensures TrimStart(spaces + t) == t
  {
    if spaces == [] {
      assert spaces + t == t;
    } else {
      assert (spaces + t)[1..] == spaces[1..] + t;
      TrimStartSkips(spaces[1..], t);
    }
  }

  lemma TaggedStart(first: Text, segments: seq<Segment>)
    requires first == [] || !IsSpace(first[0])
    ensures Tagged(first, segments) == [] || !IsSpace(Tagged(first, segments)[0])
  {
  }

  lemma BlockFound(first: Text, thinking: Text, tail: Text)
    requires IndexOf(first, OPEN_TAG) == -1 && IndexOf(thinking, CLOSE_TAG) == -1
    ensures var t := first + (OPEN_TAG + (thinking + (CLOSE_TAG + tail)));
      && IndexOf(t, OPEN_TAG) == |first|
      && FirstFrom(t, CLOSE_TAG, |first| + |OPEN_TAG|) == |first| + |OPEN_TAG| + |thinking|
  {
    hide *;
    TagsStartUniquely();
    var inner := thinking + (CLOSE_TAG + tail);
    TagAfterText(first, OPEN_TAG, inner);
    TagAfterText(thinking, CLOSE_TAG, tail);
    FirstFromIsIndexOf(first + OPEN_TAG, inner, CLOSE_TAG);
    assert first + (OPEN_TAG + inner) == (first + OPEN_TAG) + inner;
  }

  /** One complete block at the front of what is left goes, with the white space after it. */
  lemma RemoveOne(first: Text, g: Segment, rest: Text)
    requires IndexOf(first, OPEN_TAG) == -1 && PlainSegment(g) && (rest == [] || !IsSpace(rest[0]))
    ensures RemoveThinking(first + (OPEN_TAG + (g.thinking + (CLOSE_TAG + (g.spaces + rest)))))
         == first + RemoveThinking(rest)
  {
    hide IndexOf, FirstFrom, TrimStart, RemoveThinking, IsSpace;
    BlockFound(first, g.thinking, g.spaces + rest);
    TrimStartSkips(g.spaces, rest);
    AfterClose(first, g, rest);
    hide PlainSegment, OPEN_TAG, CLOSE_TAG;
    RemovedThere(first + (OPEN_TAG + (g.thinking + (CLOSE_TAG + (g.spaces + rest)))), |first|,
                 |first| + |OPEN_TAG| + |g.thinking|);
  }

  lemma AfterClose(first: Text, g: Segment, rest: Text)
    ensures var t := first + (OPEN_TAG + (g.thinking + (CLOSE_TAG + (g.spaces + rest))));
      var close := |first| + |OPEN_TAG| + |g.thinking|;
      t[..|first|] == first && t[close + |CLOSE_TAG|..] == g.spaces + rest
  {
    var tail := CLOSE_TAG + (g.spaces + rest);
    var t := first + (OPEN_TAG + (g.thinking + tail));
    var close := |first| + |OPEN_TAG| + |g.thinking|;
    assert t[close..] == tail;
    assert t[close + |CLOSE_TAG|..] == tail[|CLOSE_TAG|..];
  }

  lemma RemovedThere(t: Text, open: nat, close: nat)
    requires IndexOf(t, OPEN_TAG) == open && FirstFrom(t, CLOSE_TAG, open + |OPEN_TAG|) == close
    ensures open < close + |CLOSE_TAG| <= |t|
    ensures RemoveThinking(t) == t[..open] + RemoveThinking(TrimStart(t[close + |CLOSE_TAG|..]))
  {
    hide IndexOf, FirstFrom;
  }

  /** Thinking blocks are removed with the white space that follows them, and nothing else is. */
  lemma {:induction false} OnlyThinkingIsRemoved(first: Text, segments: seq<Segment>)
    requires IndexOf(first, OPEN_TAG) == -1
    requires forall k :: 0 <= k < |segments| ==> PlainSegment(segments[k])
    ensures RemoveThinking(Tagged(first, segments)) == Untagged(first, segments)
    decreases |segments|
  {
    hide FirstFrom, IndexOf, IsSpace;
    if segments == [] {
    } else {
      var g := segments[0];
      assert PlainSegment(g);
      OnlyThinkingIsRemoved(g.text, segments[1..]);
      TaggedStart(g.text, segments[1..]);
      hide RemoveThinking;
      RemoveOne(first, g, Tagged(g.text, segments[1..]));
    }
  }

  // ---- from what the child writes to what the client is told ----

  lemma {:induction false} ParsedInOrder(lines: seq<Text>, parse: Parser, events: seq<DroidEvent>)
    requires |lines| == |events| && forall i :: 0 <= i < |lines| ==> parse(lines[i]) == Some(events[i])
    ensures ParsedEvents(lines, parse) == events && RejectedLines(lines, parse) == []
  {
    if lines == [] {
    } else {
      ParsedInOrder(lines[..|lines| - 1], parse, events[..|events| - 1]);
      assert events == events[..|events| - 1] + [events[|events| - 1]];
    }
  }

  /** A turn written as one line per event, ended by LF or by CRLF, tells the client what those events mean. */
  lemma WrittenTurnIsTold(lines: seq<Text>, parse: Parser, events: seq<DroidEvent>)
    requires |lines| == |events| && forall i :: 0 <= i < |lines| ==> parse(lines[i]) == Some(events[i])
    requires forall i :: 0 <= i < |lines| ==> Transparent(lines[i])
    ensures TurnNotifications(Framed(lines, NEWLINE), parse) == TurnMeaning(events)
    ensures TurnNotifications(Framed(lines, [CR, LF]), parse) == TurnMeaning(events)
  {
    hide LinesOf, ResidualOf, Framed;
    FramingRoundTrip(lines);
    var whole := [Framed(lines, [CR, LF])];
    assert Concat(whole) == Framed(lines, [CR, LF]) by { ConcatFirst(whole); }
    CrLfRoundTrip(lines, whole);
    ParsedInOrder(lines, parse, events);
    TurnSendsMeaning(events);
  }
}

/** What the session sends and how prompts settle, over every run of the session protocol. */
module DroidTurnTheorems {
  import opened Options
  import opened JsText
  import Splitting
  import opened DroidTranslator
  import opened DroidTurns
  import opened DroidSessionProtocol

  // ---- notifications ----

  /** The events heard in each turn so far; `on` while the last of them still listens. */
  datatype Turns = Turns(past: seq<seq<DroidEvent>>, on: bool)

  /** A spawned prompt begins a turn; any child's exit and a failed spawn end the turn that listens. */
  function Hear(t: Turns, busy: bool, step: Step): Turns {
    match step
    case Prompt(spawned) =>
      if busy then t else if spawned then Turns(t.past + [[]], true) else t.(on := false)
    case ChildEvent(_, e) =>
      if t.on && t.past != [] then
        t.(past := t.past[..|t.past| - 1] + [t.past[|t.past| - 1] + [e]])
      else t
    case ChildExit(_) => t.(on := false)
    case _ => t
  }

  function HeardTurns(w: World, t: Turns, steps: seq<Step>): Turns
    requires Execution(w, steps)
    decreases |steps|
  {
    if steps == [] then t else HeardTurns(Apply(w, steps[0]), Hear(t, w.pending != None, steps[0]), steps[1..])
  }

  ghost function AllMeaning(past: seq<seq<DroidEvent>>): seq<Notification> {
    if past == [] then [] else AllMeaning(past[..|past| - 1]) + TurnMeaning(past[|past| - 1])
  }

  predicate SameSets(s: TurnState, t: TurnState) {
    s.startedToolCalls == t.startedToolCalls && s.seenReasoningIds == t.seenReasoningIds
  }

  ghost predicate Hears(w: World, t: Turns) {
    && w.sent == AllMeaning(t.past)
    && (t.on <==> w.translator.Some?)
    && (t.on ==> t.past != [] && SameSets(w.translator.value, StateAfter(TURN_STARTED, t.past[|t.past| - 1])))
  }

  lemma ActiveFlagIgnored(s: TurnState, t: TurnState, e: DroidEvent)
    requires SameSets(s, t)
    ensures SameSets(Translate(s, e).0, Translate(t, e).0)
    ensures Translate(s, e).1.notifications == Translate(t, e).1.notifications
  {
    hide StripInlineThinking;
  }

  lemma MeaningSnoc(events: seq<DroidEvent>, e: DroidEvent)
    ensures var before := StateAfter(TURN_STARTED, events);
      && StateAfter(TURN_STARTED, events + [e]) == Translate(before, e).0
      && TurnMeaning(events + [e]) == TurnMeaning(events) + Translate(before, e).1.notifications
  {
    assert (events + [e])[..|events|] == events;
    hide TurnMeaning, Translate;
    TurnSendsMeaning(events);
    TurnSendsMeaning(events + [e]);
  }

  lemma HearSnoc(front: seq<seq<DroidEvent>>, last: seq<DroidEvent>, busy: bool, step: Step)
    requires step.ChildEvent?
    ensures Hear(Turns(front + [last], true), busy, step) == Turns(front + [last + [step.event]], true)
  {
    assert (front + [last])[..|front|] == front;
  }

  lemma EventHears(w: World, front: seq<seq<DroidEvent>>, last: seq<DroidEvent>, e: DroidEvent)
    requires Hears(w, Turns(front + [last], true))
    ensures Hears(EventStep(w, e), Turns(front + [last + [e]], true))
  {
    var before := StateAfter(TURN_STARTED, last);
    EventTells(w, e);
    ActiveFlagIgnored(w.translator.value, before, e);
    MeaningSnoc(last, e);
    MeaningOfLast(front, last + [e]);
    MeaningOfLast(front, last);
    hide EventStep, Translate, TurnMeaning, StateAfter, AllMeaning, SameSets;
    Splitting.Associative(AllMeaning(front), TurnMeaning(last), Translate(before, e).1.notifications);
  }

  lemma EventTells(w: World, e: DroidEvent)
    requires w.translator.Some?
    ensures var (s, step) := Translate(w.translator.value, e);
      EventStep(w, e).sent == w.sent + step.notifications && EventStep(w, e).translator == Some(s)
  {
    hide Translate;
  }

  lemma MeaningOfLast(front: seq<seq<DroidEvent>>, last: seq<DroidEvent>)
    ensures AllMeaning(front + [last]) == AllMeaning(front) + TurnMeaning(last)
  {
    assert (front + [last])[..|front|] == front;
    hide TurnMeaning;
  }

  lemma PromptHears(w: World, t: Turns, spawned: bool)
    requires Hears(w, t)
    ensures Hears(PromptStep(w, spawned), Hear(t, w.pending != None, Prompt(spawned)))
  {
    MeaningOfLast(t.past, []);
    NothingMeant();
    hide AllMeaning, TurnMeaning;
    assert StateAfter(TURN_STARTED, []) == TURN_STARTED;
    hide StateAfter;
  }

  lemma NothingMeant()
    ensures TurnMeaning([]) == [] && AllMeaning([]) == []
  {
  }

  lemma SilentStepHears(w: World, t: Turns, step: Step)
    requires Hears(w, t) && Enabled(w, step) && !step.Prompt? && !step.ChildEvent?
    ensures Hears(Apply(w, step), Hear(t, w.pending != None, step))
  {
    hide AllMeaning, StateAfter;
  }

  lemma StepHears(w: World, t: Turns, step: Step)
    requires Hears(w, t) && Enabled(w, step)
    ensures Hears(Apply(w, step), Hear(t, w.pending != None, step))
  {
    match step
    case Prompt(spawned) =>
      PromptHears(w, t, spawned);
      hide Hears, Hear, PromptStep;
    case ChildEvent(_, e) =>
      if t.on {
        ListensToLast(w, t);
        var front, last := t.past[..|t.past| - 1], t.past[|t.past| - 1];
        HearSnoc(front, last, w.pending != None, step);
        EventHears(w, front, last, e);
        hide Hears, EventStep, Hear;
      } else {
        hide AllMeaning, StateAfter, Translate;
      }
    case _ =>
      SilentStepHears(w, t, step);
      hide *;
  }

  lemma ListensToLast(w: World, t: Turns)
    requires Hears(w, t) && t.on
    ensures t.past != [] && t == Turns(t.past[..|t.past| - 1] + [t.past[|t.past| - 1]], true)
  {
    hide AllMeaning, StateAfter;
  }

  lemma {:induction false} RunHears(w: World, t: Turns, steps: seq<Step>)
    requires Hears(w, t) && Execution(w, steps)
    ensures Hears(Final(w, steps), HeardTurns(w, t, steps))
    decreases |steps|
  {
    if steps == [] {
    } else {
      hide Hears, Apply, Enabled, Hear;
      StepHears(w, t, steps[0]);
      RunHears(Apply(w, steps[0]), Hear(t, w.pending != None, steps[0]), steps[1..]);
    }
  }

  /** In every run the client is sent what the events heard in each turn mean, turn by turn, and nothing else. */
  lemma EveryTurnIsTold(steps: seq<Step>)
    requires Execution(INIT, steps)
    ensures Final(INIT, steps).sent == AllMeaning(HeardTurns(INIT, Turns([], false), steps).past)
  {
    RunHears(INIT, Turns([], false), steps);
  }

  // ---- settlements ----

  /** How the step settles the pending prompt. */
  function SettlesAs(step: Step): Option<Settlement> {
    match step
    case Cancel => Some(Resolved(CancelledTurn))
    case ChildEvent(_, Completion) => Some(Resolved(EndTurn))
    case ChildExit(_) => Some(ExitedEarly)
    case _ => None
  }

  /**
   * In every run: a pending prompt is settled by a cancel, a completion or an exit, each with its own outcome, and by
   * nothing else; with none pending, only a prompt whose child could not be spawned settles.
   */
  lemma StepSettles(steps: seq<Step>, step: Step)
    requires Execution(INIT, steps) && Enabled(Final(INIT, steps), step)
    ensures var w := Final(INIT, steps);
      Apply(w, step).settled
        == w.settled
           + (if w.pending.Some? && SettlesAs(step) != None then [(w.pending.value, SettlesAs(step).value)]
              else if w.pending == None && step == Prompt(false) then [(w.accepted, SpawnFailed)]
              else [])
    ensures var w := Final(INIT, steps);
      Apply(w, step).pending
        == if w.pending.Some? then (if SettlesAs(step) == None then w.pending else None)
           else if step == Prompt(true) then Some(w.accepted) else None
  {
    EveryReachableStateOk(INIT, steps);
    var w := Final(INIT, steps);
    assert PendingOk(w);
    hide Inv, Conserved, ChildrenOk, StripInlineThinking;
  }
}
