/** Server-sent-event frames: the bus subscriber's `indexOf` loop and what it delivers. */
module EventFrames {
  import opened Options
  import opened JsText
  import opened Splitting
  import LineBuffers

  const BLANK_LINE: Text := [LF, LF]

  /** The complete frames of a text: everything before the last blank line, split at the leftmost blank lines. */
  function FramesOf(text: Text): seq<Text> {
    Front(Split(text, BLANK_LINE))
  }

  function ResidualOf(text: Text): Text {
    Last(Split(text, BLANK_LINE))
  }

  /** Text that arrives later only adds frames. */
  lemma FramesOfAppend(a: Text, b: Text)
    ensures FramesOf(a + b) == FramesOf(a) + FramesOf(ResidualOf(a) + b)
    ensures ResidualOf(a + b) == ResidualOf(ResidualOf(a) + b)
  {
    SplitAppend(a, b, BLANK_LINE);
    var front, rest := Front(Split(a, BLANK_LINE)), Split(ResidualOf(a) + b, BLANK_LINE);
    assert Front(front + rest) == front + Front(rest);
  }

  lemma NothingYet()
    ensures FramesOf([]) == [] && ResidualOf([]) == []
  {
  }

  lemma {:induction false} JoinSnoc(pieces: seq<Text>, last: Text, sep: Text)
    requires pieces != []
    ensures Join(pieces + [last], sep) == Join(pieces, sep) + sep + last
  {
    if |pieces| == 1 {
      assert (pieces + [last])[1..] == [last];
    } else {
      assert (pieces + [last])[1..] == pieces[1..] + [last];
      JoinSnoc(pieces[1..], last, sep);
    }
  }

  /** A text is its frames, a closing blank line and the residual. */
  lemma TextIsFramesAndResidual(t: Text)
    requires FramesOf(t) != []
    ensures t == Join(FramesOf(t), BLANK_LINE) + BLANK_LINE + ResidualOf(t)
  {
    JoinSplit(t, BLANK_LINE);
    assert Split(t, BLANK_LINE) == FramesOf(t) + [ResidualOf(t)];
    JoinSnoc(FramesOf(t), ResidualOf(t), BLANK_LINE);
  }

  /** The text up to the end of its k-th frame holds exactly the frames up to there. */
  lemma PrefixUpToFrame(t: Text, k: nat) returns (prefix: Text, rest: Text)
    requires k < |FramesOf(t)|
    ensures t == prefix + rest
    ensures FramesOf(prefix) == FramesOf(t)[..k + 1] && ResidualOf(prefix) == []
  {
    hide Split, IndexOf;
    var pieces := Split(t, BLANK_LINE);
    var empty: Text := [];
    var head, tail := pieces[..k + 1], pieces[k + 1..];
    SplitLeftmost(t, BLANK_LINE);
    CutPieces(pieces, k);
    prefix := Join(head + [empty], BLANK_LINE);
    rest := Join(tail, BLANK_LINE);
    JoinSplit(t, BLANK_LINE);
    assert pieces == head + tail;
    JoinConcat(head, tail, BLANK_LINE);
    JoinSnoc(head, empty, BLANK_LINE);
    assert Front(head + [empty]) == head && Last(head + [empty]) == empty;
    assert FramesOf(t)[..k + 1] == head;
  }

  lemma CutPieces(pieces: seq<Text>, k: nat)
    requires Leftmost(pieces, BLANK_LINE) && k < |pieces| - 1
    ensures Split(Join(pieces[..k + 1] + [[]], BLANK_LINE), BLANK_LINE) == pieces[..k + 1] + [[]]
  {
    hide Split, IndexOf;
    var cut := pieces[..k + 1] + [[]];
    forall i | 0 <= i < |cut| - 1 ensures IndexOf(cut[i] + BLANK_LINE, BLANK_LINE) == |cut[i]| {
      assert cut[i] == pieces[i];
    }
    assert IndexOf([], BLANK_LINE) == -1;
    SplitUnique(cut, BLANK_LINE);
  }

  lemma {:induction false} JoinConcat(a: seq<Text>, b: seq<Text>, sep: Text)
    requires a != [] && b != []
    ensures Join(a + b, sep) == Join(a, sep) + sep + Join(b, sep)
  {
    if |a| == 1 {
      assert (a + b)[1..] == b;
    } else {
      assert (a + b)[1..] == a[1..] + b;
      JoinConcat(a[1..], b, sep);
    }
  }
}

/** The bus subscriber: every `data:` line that parses is delivered once and in order. */
module BusSubscriber {
  import opened Options
  import opened JsText
  import opened Splitting
  import opened EventFrames
  import LineBuffers

  const NEWLINE: Text := LineBuffers.NEWLINE

  /** "data:" */
  const DATA: Text := [100, 97, 116, 97, 58]

  /** The JSON text of a line, if it is a data line with one. */
  function Payload(line: Text): Option<Text> {
    if !StartsWith(line, DATA) then None
    else
      var json := TrimStart(line[|DATA|..]);
      if json == [] then None else Some(json)
  }

  /** `parse` stands for JSON.parse; a line it rejects is only logged. */
  function LineEvents<E>(line: Text, parse: Text -> Option<E>): seq<E> {
    match Payload(line)
    case None => []
    case Some(json) => match parse(json) case None => [] case Some(e) => [e]
  }

  function Delivered<E>(lines: seq<Text>, parse: Text -> Option<E>): seq<E> {
    if lines == [] then [] else LineEvents(lines[0], parse) + Delivered(lines[1..], parse)
  }

  function FrameEvents<E>(frames: seq<Text>, parse: Text -> Option<E>): seq<E> {
    if frames == [] then [] else Delivered(Split(frames[0], NEWLINE), parse) + FrameEvents(frames[1..], parse)
  }

  lemma {:induction false} DeliveredAppend<E>(a: seq<Text>, b: seq<Text>, parse: Text -> Option<E>)
    ensures Delivered(a + b, parse) == Delivered(a, parse) + Delivered(b, parse)
  {
    hide LineEvents;
    if a == [] {
      assert a + b == b;
    } else {
      assert (a + b)[1..] == a[1..] + b && (a + b)[0] == a[0];
      DeliveredAppend(a[1..], b, parse);
    }
  }

  lemma {:induction false} FrameEventsAppend<E>(a: seq<Text>, b: seq<Text>, parse: Text -> Option<E>)
    ensures FrameEvents(a + b, parse) == FrameEvents(a, parse) + FrameEvents(b, parse)
  {
    if a == [] {
      assert a + b == b;
    } else {
      assert (a + b)[1..] == a[1..] + b && (a + b)[0] == a[0];
      FrameEventsAppend(a[1..], b, parse);
    }
  }

  lemma NoLines<E>(parse: Text -> Option<E>)
    ensures Delivered([], parse) == []
  {
  }

  lemma OneLine<E>(line: Text, parse: Text -> Option<E>)
    ensures Delivered([line], parse) == LineEvents(line, parse)
  {
    assert Delivered([line][1..], parse) == [];
  }

  method DispatchFrame<E>(frame: Text, parse: Text -> Option<E>) returns (events: seq<E>)
    ensures events == Delivered(Split(frame, NEWLINE), parse)
  {
    hide Payload, Split, Delivered;
    var lines := Split(frame, NEWLINE);
    events := [];
    NoLines<E>(parse);
    for k := 0 to |lines|
      invariant events == Delivered(lines[..k], parse)
    {
      assert lines[..k + 1] == lines[..k] + [lines[k]];
      DeliveredAppend(lines[..k], [lines[k]], parse);
      OneLine(lines[k], parse);
      var payload := Payload(lines[k]);
      if payload.Some? {
        var parsed := parse(payload.value);
        if parsed.Some? {
          events := events + [parsed.value];
        }
      }
    }
    assert lines[..|lines|] == lines;
  }

  /** One chunk: dispatch every frame completed in the buffer. */
  method DrainFrames<E>(buffer0: Text, parse: Text -> Option<E>) returns (buffer: Text, events: seq<E>)
    ensures buffer == ResidualOf(buffer0)
    ensures events == FrameEvents(FramesOf(buffer0), parse)
  {
    hide IndexOf, Split, Delivered, FrameEvents;
    buffer, events := buffer0, [];
    ghost var done: seq<Text> := [];
    NoFrames<E>(parse);
    assert done + Split(buffer, BLANK_LINE) == Split(buffer, BLANK_LINE);
    var frameEnd := IndexOf(buffer, BLANK_LINE);
    while frameEnd != -1
      invariant frameEnd == IndexOf(buffer, BLANK_LINE)
      invariant Split(buffer0, BLANK_LINE) == done + Split(buffer, BLANK_LINE)
      invariant events == FrameEvents(done, parse)
      decreases |buffer|
    {
      SplitFirst(buffer, BLANK_LINE);
      var frame := buffer[..frameEnd];
      buffer := buffer[frameEnd + 2..];
      var more := DispatchFrame(frame, parse);
      FrameDone(done, frame, parse);
      done := done + [frame];
      events := events + more;
      frameEnd := IndexOf(buffer, BLANK_LINE);
    }
    SplitNone(buffer, BLANK_LINE);
    assert Front(done + [buffer]) == done;
  }

  lemma NoFrames<E>(parse: Text -> Option<E>)
    ensures FrameEvents([], parse) == []
  {
  }

  lemma FrameDone<E>(done: seq<Text>, frame: Text, parse: Text -> Option<E>)
    ensures FrameEvents(done + [frame], parse) == FrameEvents(done, parse) + Delivered(Split(frame, NEWLINE), parse)
  {
    FrameEventsAppend(done, [frame], parse);
    assert [frame][1..] == [];
    assert FrameEvents([frame], parse) == Delivered(Split(frame, NEWLINE), parse) + [];
  }

  /** The read loop over the chunks received before the stream ends or is aborted. */
  method ConsumeSseStream<E(!new)>(chunks: seq<Text>, parse: Text -> Option<E>) returns (events: seq<E>)
    ensures events == FrameEvents(FramesOf(Concat(chunks)), parse)
    ensures forall sent: seq<Sent<E>> :: Wire(sent) == Concat(chunks) && AllWellSent(sent, parse) ==>
      events == EventsSent(sent)
  {
    hide FramesOf, ResidualOf, FrameEvents;
    events := [];
    var buffer: Text := [];
    EventFrames.NothingYet();
    NoFrames<E>(parse);
    for k := 0 to |chunks|
      invariant buffer == ResidualOf(Concat(chunks[..k]))
      invariant events == FrameEvents(FramesOf(Concat(chunks[..k])), parse)
    {
      ghost var seen := Concat(chunks[..k]);
      FramesOfAppend(seen, chunks[k]);
      ConcatSnoc(chunks[..k], chunks[k]);
      assert chunks[..k + 1] == chunks[..k] + [chunks[k]];
      FrameEventsAppend(FramesOf(seen), FramesOf(ResidualOf(seen) + chunks[k]), parse);
      var more;
      buffer, more := DrainFrames(buffer + chunks[k], parse);
      events := events + more;
    }
    assert chunks[..|chunks|] == chunks;
    hide *;
    forall sent: seq<Sent<E>> | Wire(sent) == Concat(chunks) && AllWellSent(sent, parse)
      ensures events == EventsSent(sent)
    {
      WireRoundTrip(sent, parse);
    }
  }

  /** Receiving more never changes or reorders what was delivered before. */
  lemma DeliveryIsMonotone<E>(a: Text, b: Text, parse: Text -> Option<E>)
    ensures FrameEvents(FramesOf(a), parse) <= FrameEvents(FramesOf(a + b), parse)
  {
    FramesOfAppend(a, b);
    FrameEventsAppend(FramesOf(a), FramesOf(ResidualOf(a) + b), parse);
  }

  // ---- the frames hide no data line and invent none ----

  const EMPTY: Text := []

  lemma EmptyLineDeliversNothing<E>(parse: Text -> Option<E>)
    ensures Delivered([EMPTY], parse) == []
  {
    assert [EMPTY][1..] == [];
    assert Payload(EMPTY) == None;
  }

  /** Splitting at blank lines and then at LF finds the same data lines as splitting at LF alone. */
  lemma BlankLineBetween<E>(a: Text, b: Text, parse: Text -> Option<E>)
    ensures Delivered(Split(a + BLANK_LINE + b, NEWLINE), parse)
         == Delivered(Split(a, NEWLINE), parse) + Delivered(Split(b, NEWLINE), parse)
  {
    hide Delivered, IndexOf;
    var sa := Split(a, NEWLINE);
    SplitAppend(a, BLANK_LINE + b, NEWLINE);
    assert a + (BLANK_LINE + b) == a + BLANK_LINE + b;
    LineBuffers.SplitPiecesHaveNoNewline(a, |sa| - 1);
    LastLineEnds(Last(sa), b);
    assert Front(sa) + ([Last(sa)] + [EMPTY] + Split(b, NEWLINE)) == sa + [EMPTY] + Split(b, NEWLINE);
    DeliveredAppend(sa + [EMPTY], Split(b, NEWLINE), parse);
    DeliveredAppend(sa, [EMPTY], parse);
    EmptyLineDeliversNothing(parse);
  }

  lemma LastLineEnds(last: Text, b: Text)
    requires LF !in last
    ensures Split(last + (BLANK_LINE + b), NEWLINE) == [last] + [EMPTY] + Split(b, NEWLINE)
  {
    hide Split;
    LineBuffers.NoNewline(last);
    assert last + (BLANK_LINE + b) == (last + NEWLINE) + (NEWLINE + b);
    IndexOfExtends(last + NEWLINE, NEWLINE + b, NEWLINE);
    SplitFirst(last + (BLANK_LINE + b), NEWLINE);
    assert (last + (BLANK_LINE + b))[|last| + 1..] == NEWLINE + b;
    LineBuffers.NoNewline(EMPTY);
    assert EMPTY + NEWLINE == NEWLINE;
    IndexOfExtends(NEWLINE, b, NEWLINE);
    SplitFirst(NEWLINE + b, NEWLINE);
    assert (NEWLINE + b)[1..] == b && (NEWLINE + b)[..0] == [];
  }

  /** What is delivered is every data line of the received text up to its last blank line, once and in order. */
  lemma {:induction false} DeliversDataLinesOfText<E>(frames: seq<Text>, parse: Text -> Option<E>)
    requires frames != []
    ensures FrameEvents(frames, parse) == Delivered(Split(Join(frames, BLANK_LINE), NEWLINE), parse)
  {
    hide Delivered, Split;
    if |frames| > 1 {
      DeliversDataLinesOfText(frames[1..], parse);
      BlankLineBetween(frames[0], Join(frames[1..], BLANK_LINE), parse);
    } else {
      assert frames[1..] == [];
      assert FrameEvents([], parse) == [];
    }
  }

  // ---- what a server writes is what the subscriber delivers ----

  /** What a server puts on the stream: an event as its JSON text, or a comment that only keeps the connection open. */
  datatype Sent<E> = Event(event: E, json: Text) | Comment(text: Text)

  /** "data: " */
  const DATA_PREFIX: Text := [100, 97, 116, 97, 58, 32]

  /** ":" */
  const COMMENT_PREFIX: Text := [58]

  function WireLine<E>(m: Sent<E>): Text {
    match m
    case Event(_, json) => DATA_PREFIX + json
    case Comment(text) => COMMENT_PREFIX + text
  }

  /** Every message as one line and a blank one. */
  function Wire<E>(sent: seq<Sent<E>>): Text {
    if sent == [] then [] else WireLine(sent[0]) + BLANK_LINE + Wire(sent[1..])
  }

  function EventsSent<E>(sent: seq<Sent<E>>): seq<E> {
    if sent == [] then [] else (if sent[0].Event? then [sent[0].event] else []) + EventsSent(sent[1..])
  }

  /** One line; for an event, JSON that parses back to it and does not begin with white space. */
  ghost predicate WellSent<E>(m: Sent<E>, parse: Text -> Option<E>) {
    match m
    case Event(event, json) => LF !in json && json != [] && !IsSpace(json[0]) && parse(json) == Some(event)
    case Comment(text) => LF !in text
  }

  ghost predicate AllWellSent<E>(sent: seq<Sent<E>>, parse: Text -> Option<E>) {
    forall m :: m in sent ==> WellSent(m, parse)
  }

  lemma OneFrame(line: Text, rest: Text)
    requires LF !in line
    ensures FramesOf(line + BLANK_LINE + rest) == [line] + FramesOf(rest)
  {
    var t := line + BLANK_LINE;
    assert IndexOf(t, BLANK_LINE) == |line| by {
      assert t[|line|..|line| + 2] == BLANK_LINE;
      assert OccursAt(t, BLANK_LINE, |line|);
      var j := IndexOf(t, BLANK_LINE);
      assert t[j..j + 2][0] == LF;
    }
    hide IndexOf, Split;
    IndexOfExtends(t, rest, BLANK_LINE);
    SplitFirst(t + rest, BLANK_LINE);
    assert (t + rest)[..|line|] == line && (t + rest)[|line| + 2..] == rest;
    assert Front([line] + Split(rest, BLANK_LINE)) == [line] + Front(Split(rest, BLANK_LINE));
  }

  lemma LineDelivered<E(!new)>(m: Sent<E>, parse: Text -> Option<E>)
    requires WellSent(m, parse)
    ensures LF !in WireLine(m)
    ensures Delivered(Split(WireLine(m), NEWLINE), parse) == if m.Event? then [m.event] else []
  {
    var line := WireLine(m);
    LineBuffers.NoNewline(line);
    SplitNone(line, NEWLINE);
    OneLine(line, parse);
    hide Delivered, Split, IndexOf;
    match m
    case Event(event, json) =>
      assert line[..|DATA|] == DATA;
      var tail := line[|DATA|..];
      assert tail[0] == 32 && tail[1..] == json;
      assert TrimStart(tail) == TrimStart(json) == json;
    case Comment(text) =>
      assert line[0] != DATA[0];
  }

  /** The events of a stream are delivered, each once and in order, and comments are passed over. */
  lemma {:induction false} WireRoundTrip<E(!new)>(sent: seq<Sent<E>>, parse: Text -> Option<E>)
    requires AllWellSent(sent, parse)
    ensures FrameEvents(FramesOf(Wire(sent)), parse) == EventsSent(sent)
  {
    if sent == [] {
      EventFrames.NothingYet();
    } else {
      hide FramesOf, Split, Delivered, WireLine, WellSent, DATA_PREFIX, COMMENT_PREFIX;
      LineDelivered(sent[0], parse);
      OneFrame(WireLine(sent[0]), Wire(sent[1..]));
      FrameFirst(WireLine(sent[0]), FramesOf(Wire(sent[1..])), parse);
      WireRoundTrip(sent[1..], parse);
    }
  }

  lemma FrameFirst<E>(frame: Text, frames: seq<Text>, parse: Text -> Option<E>)
    ensures FrameEvents([frame] + frames, parse) == Delivered(Split(frame, NEWLINE), parse) + FrameEvents(frames, parse)
  {
    assert ([frame] + frames)[1..] == frames;
  }
}
