/** One spawned droid child: stdout chunks to decoded events, and a single exit report. */
module DroidExecClient {
  import opened Options
  import opened JsText
  import opened Splitting
  import opened LineBuffers
  import opened DroidTranslator

  /** `parse` stands for JSON.parse and the shape checks; a line it rejects is a protocol error. */
  type Parser = Text -> Option<DroidEvent>

  function ParsedEvents(lines: seq<Text>, parse: Parser): seq<DroidEvent> {
    if lines == [] then []
    else
      ParsedEvents(lines[..|lines| - 1], parse)
      + (match parse(lines[|lines| - 1]) case None => [] case Some(e) => [e])
  }

  function RejectedLines(lines: seq<Text>, parse: Parser): seq<Text> {
    if lines == [] then []
    else
      RejectedLines(lines[..|lines| - 1], parse)
      + (if parse(lines[|lines| - 1]).None? then [lines[|lines| - 1]] else [])
  }

  lemma {:induction false} ParsedEventsAppend(a: seq<Text>, b: seq<Text>, parse: Parser)
    ensures ParsedEvents(a + b, parse) == ParsedEvents(a, parse) + ParsedEvents(b, parse)
    ensures RejectedLines(a + b, parse) == RejectedLines(a, parse) + RejectedLines(b, parse)
    decreases |b|
  {
    if b == [] {
      assert a + b == a;
    } else {
      assert (a + b)[..|a + b| - 1] == a + b[..|b| - 1];
      ParsedEventsAppend(a, b[..|b| - 1], parse);
    }
  }

  class Client {
    const buffer: LineBuffer
    const parse: Parser
    var exited: bool
    /** The arguments of the `onEvent` and `onProtocolError` calls, and the number of `onExit` calls. */
    var delivered: seq<DroidEvent>
    var protocolErrors: seq<Text>
    var exitReports: nat

    ghost predicate Valid()
      reads this
    {
      exitReports == if exited then 1 else 0
    }

    constructor (parse: Parser)
      ensures Valid() && fresh(buffer) && buffer.buffer == [] && this.parse == parse
      ensures delivered == [] && protocolErrors == [] && !exited
    {
      this.parse := parse;
      buffer := new LineBuffer();
      exited, delivered, protocolErrors, exitReports := false, [], [], 0;
    }

    method HandleStdoutChunk(chunk: Text)
      requires Valid()
      modifies this, buffer
      ensures Valid() && exited == old(exited)
      ensures buffer.buffer == ResidualOf(old(buffer.buffer) + chunk)
      ensures delivered == old(delivered) + ParsedEvents(LinesOf(old(buffer.buffer) + chunk), parse)
      ensures protocolErrors == old(protocolErrors) + RejectedLines(LinesOf(old(buffer.buffer) + chunk), parse)
    {
      hide LinesOf, ResidualOf;
      var lines := buffer.Push(chunk);
      for k := 0 to |lines|
        invariant Valid() && exited == old(exited)
        invariant buffer.buffer == ResidualOf(old(buffer.buffer) + chunk)
        invariant delivered == old(delivered) + ParsedEvents(lines[..k], parse)
        invariant protocolErrors == old(protocolErrors) + RejectedLines(lines[..k], parse)
      {
        assert lines[..k + 1][..k] == lines[..k];
        HandleLine(lines[k]);
      }
      assert lines[..|lines|] == lines;
    }

    method HandleLine(line: Text)
      modifies `delivered, `protocolErrors
      ensures parse(line).None? ==> delivered == old(delivered) && protocolErrors == old(protocolErrors) + [line]
      ensures parse(line).Some? ==>
        delivered == old(delivered) + [parse(line).value] && protocolErrors == old(protocolErrors)
    {
      var parsed := parse(line);
      if parsed.None? {
        protocolErrors := protocolErrors + [line];
        return;
      }
      delivered := delivered + [parsed.value];
    }

    /** Reached from both the exit and the error event; only the first one reports. */
    method HandleExit()
      requires Valid()
      modifies this, buffer
      ensures Valid() && exited && exitReports == 1 && delivered == old(delivered)
      ensures old(exited) ==> protocolErrors == old(protocolErrors) && buffer.buffer == old(buffer.buffer)
      ensures !old(exited) ==> buffer.buffer == []
      ensures !old(exited) ==>
        protocolErrors == old(protocolErrors) + (if old(buffer.buffer) == [] then [] else [old(buffer.buffer)])
    {
      if exited {
        return;
      }
      exited := true;
      var tail := buffer.Drain();
      if tail != [] {
        protocolErrors := protocolErrors + [tail];
      }
      exitReports := exitReports + 1;
    }
  }

  /** What one turn sends for a given stdout: decoder, parser and translator in sequence. */
  function TurnNotifications(stdout: Text, parse: Parser): seq<Notification> {
    Sent(TURN_STARTED, ParsedEvents(LinesOf(stdout), parse))
  }

  lemma {:induction false} StateAppend(s: TurnState, a: seq<DroidEvent>, b: seq<DroidEvent>)
    ensures StateAfter(s, a + b) == StateAfter(StateAfter(s, a), b)
    decreases |b|
  {
    if b == [] {
      assert a + b == a;
    } else {
      hide Translate;
      assert (a + b)[..|a + b| - 1] == a + b[..|b| - 1];
      StateAppend(s, a, b[..|b| - 1]);
    }
  }

  lemma {:induction false} SentAppend(s: TurnState, a: seq<DroidEvent>, b: seq<DroidEvent>)
    ensures Sent(s, a + b) == Sent(s, a) + Sent(StateAfter(s, a), b)
    decreases |b|
  {
    if b == [] {
      assert a + b == a;
    } else {
      hide Translate, StateAfter;
      var front := b[..|b| - 1];
      assert (a + b)[..|a + b| - 1] == a + front;
      StateAppend(s, a, front);
      SentAppend(s, a, front);
      assert SentBy(s, a + b) == SentBy(StateAfter(s, a), b);
    }
  }

  /** The notifications of a turn depend on what the child wrote, not on how stdout was cut into chunks. */
  method RunTurnStdout(chunks: seq<Text>, parse: Parser) returns (sent: seq<Notification>)
    ensures sent == TurnNotifications(Concat(chunks), parse)
  {
    hide LinesOf, ResidualOf, Translate;
    var client := new Client(parse);
    var translator := new Translator();
    translator.MarkTurnStarted();
    sent := [];
    NothingYet();
    for k := 0 to |chunks|
      invariant client.Valid() && client.parse == parse
      invariant client.buffer.buffer == ResidualOf(Concat(chunks[..k]))
      invariant client.delivered == ParsedEvents(LinesOf(Concat(chunks[..k])), parse)
      invariant translator.View() == StateAfter(TURN_STARTED, client.delivered)
      invariant sent == Sent(TURN_STARTED, client.delivered)
      invariant fresh(client) && fresh(client.buffer) && fresh(translator)
    {
      ghost var seen := Concat(chunks[..k]);
      LinesOfAppend(seen, chunks[k]);
      ConcatSnoc(chunks[..k], chunks[k]);
      assert chunks[..k + 1] == chunks[..k] + [chunks[k]];
      ParsedEventsAppend(LinesOf(seen), LinesOf(ResidualOf(seen) + chunks[k]), parse);
      var from := |client.delivered|;
      ghost var before := client.delivered;
      client.HandleStdoutChunk(chunks[k]);
      var events := client.delivered[from..];
      assert client.delivered == before + events;
      var more := Forward(translator, events);
      SentAppend(TURN_STARTED, before, events);
      StateAppend(TURN_STARTED, before, events);
      sent := sent + more;
    }
    assert chunks[..|chunks|] == chunks;
  }

  method Forward(translator: Translator, events: seq<DroidEvent>) returns (sent: seq<Notification>)
    modifies translator
    ensures sent == Sent(old(translator.View()), events)
    ensures translator.View() == StateAfter(old(translator.View()), events)
  {
    hide Translate;
    sent := [];
    for k := 0 to |events|
      invariant sent == Sent(old(translator.View()), events[..k])
      invariant translator.View() == StateAfter(old(translator.View()), events[..k])
    {
      assert events[..k + 1][..k] == events[..k];
      var step := translator.HandleEvent(events[k]);
      sent := sent + step.notifications;
    }
    assert events[..|events|] == events;
  }
}
