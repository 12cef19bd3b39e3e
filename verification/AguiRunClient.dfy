/** The web UI's run client: the outcome of a turn read from a chunked event stream. */
module AguiRunClient {
  import opened Options
  import opened JsText
  import opened Splitting
  import opened EventFrames
  import LineBuffers

  /** `NullEvent` is the payload `null`: it decodes, but reading its type throws. */
  datatype AguiEvent = RunErrorEvent(message: Option<Text>) | RunFinishedEvent | OtherEvent | NullEvent

  datatype Outcome = Completed | Failed(message: Text) | EndedEarly | Thrown | ReadFailed(reason: Text)

  /** What follows the last chunk: the end of the stream, or a read that rejects, as after an abort. */
  datatype StreamEnd = Closed | Rejected(reason: Text)

  /** "data: " */
  const DATA_PREFIX: Text := [100, 97, 116, 97, 58, 32]

  /** "AG-UI run failed" */
  const DEFAULT_MESSAGE: Text := [65, 71, 45, 85, 73, 32, 114, 117, 110, 32, 102, 97, 105, 108, 101, 100]

  /** The first line of a frame that carries data. */
  function FindData(lines: seq<Text>): Option<Text> {
    if lines == [] then None
    else if StartsWith(lines[0], DATA_PREFIX) then Some(lines[0])
    else FindData(lines[1..])
  }

  /** `decode` stands for JSON.parse; a frame it rejects is skipped. */
  type Decoder = Text -> Option<AguiEvent>

  function FrameEvent(frame: Text, decode: Decoder): Option<AguiEvent> {
    match FindData(Split(frame, LineBuffers.NEWLINE))
    case None => None
    case Some(line) => if |line| < |DATA_PREFIX| then None else decode(line[|DATA_PREFIX|..])
  }

  /** The outcome a frame announces, if it decides one. */
  function FrameOutcome(frame: Text, decode: Decoder): Option<Outcome> {
    match FrameEvent(frame, decode)
    case Some(RunErrorEvent(None)) => Some(Failed(DEFAULT_MESSAGE))
    case Some(RunErrorEvent(Some(message))) => Some(Failed(message))
    case Some(RunFinishedEvent) => Some(Completed)
    case Some(NullEvent) => Some(Thrown)
    case _ => None
  }

  /** What the frames of one chunk come to: a throw if there is one, else the last terminal frame. */
  function LastOutcome(frames: seq<Text>, decode: Decoder): Option<Outcome> {
    if frames == [] then None
    else
      var before := LastOutcome(frames[..|frames| - 1], decode);
      var last := FrameOutcome(frames[|frames| - 1], decode);
      if before == Some(Thrown) || last == None then before else last
  }

  function Undecided(end: StreamEnd): Outcome {
    match end case Closed => EndedEarly case Rejected(reason) => ReadFailed(reason)
  }

  /** The first chunk that completes a deciding frame decides; if there is none, the end of the stream does. */
  function TurnOutcome(buffer: Text, chunks: seq<Text>, end: StreamEnd, decode: Decoder): Outcome
    decreases |chunks|
  {
    if chunks == [] then Undecided(end)
    else
      match LastOutcome(FramesOf(buffer + chunks[0]), decode)
      case Some(o) => o
      case None => TurnOutcome(ResidualOf(buffer + chunks[0]), chunks[1..], end, decode)
  }

  datatype Terminal = NoTerminal | TerminalError | TerminalFinished

  /** What the two tracking variables amount to. */
  function Tracked(terminal: Terminal, errorMessage: Option<Text>): Option<Outcome> {
    match terminal
    case NoTerminal => None
    case TerminalError => Some(Failed(if errorMessage.Some? then errorMessage.value else DEFAULT_MESSAGE))
    case TerminalFinished => Some(Completed)
  }

  /** The inner loop over the frames of one chunk. */
  method TrackFrames(frames: seq<Text>, decode: Decoder, errorMessage0: Option<Text>)
    returns (terminal: Terminal, errorMessage: Option<Text>, thrown: bool)
    ensures thrown <==> LastOutcome(frames, decode) == Some(Thrown)
    ensures !thrown ==> Tracked(terminal, errorMessage) == LastOutcome(frames, decode)
  {
    terminal, errorMessage, thrown := NoTerminal, errorMessage0, false;
    for k := 0 to |frames|
      invariant !thrown && Tracked(terminal, errorMessage) == LastOutcome(frames[..k], decode)
    {
      assert frames[..k + 1][..k] == frames[..k];
      var event := FrameEvent(frames[k], decode);
      if event.None? {
        continue;
      }
      match event.value
      case RunErrorEvent(message) =>
        errorMessage := Some(if message.Some? then message.value else DEFAULT_MESSAGE);
        terminal := TerminalError;
      case RunFinishedEvent => terminal := TerminalFinished;
      case OtherEvent =>
      case NullEvent =>
        assert LastOutcome(frames[..k + 1], decode) == Some(Thrown);
        ThrowStays(frames, k + 1, decode);
        thrown := true;
        return;
    }
    assert frames[..|frames|] == frames;
  }

  lemma {:induction false} ThrowStays(frames: seq<Text>, k: nat, decode: Decoder)
    requires k <= |frames| && LastOutcome(frames[..k], decode) == Some(Thrown)
    ensures LastOutcome(frames, decode) == Some(Thrown)
    decreases |frames|
  {
    if k == |frames| {
      assert frames[..k] == frames;
    } else {
      assert frames[..|frames| - 1][..k] == frames[..k];
      ThrowStays(frames[..|frames| - 1], k, decode);
    }
  }

  /** The read loop: split the buffer, keep the last piece, look at the frames, stop at a deciding one. */
  method RunTurn(chunks: seq<Text>, end: StreamEnd, decode: Decoder) returns (outcome: Outcome)
    ensures outcome == TurnOutcome([], chunks, end, decode)
    ensures FollowsEvents(FramesOf(Concat(chunks)), end, outcome, decode)
  {
    hide LastOutcome, FollowsEvents;
    TurnFollowsEvents(chunks, end, decode);
    var buffer: Text := [];
    var terminal, thrown := NoTerminal, false;
    var errorMessage: Option<Text> := None;
    var k := 0;
    assert chunks[0..] == chunks;
    while k < |chunks| && terminal == NoTerminal
      invariant 0 <= k <= |chunks|
      invariant TurnOutcome([], chunks, end, decode)
             == match Tracked(terminal, errorMessage) case Some(o) => o
               case None => TurnOutcome(buffer, chunks[k..], end, decode)
    {
      assert chunks[k..][0] == chunks[k] && chunks[k..][1..] == chunks[k + 1..];
      buffer := buffer + chunks[k];
      var pieces := Split(buffer, BLANK_LINE);
      buffer := pieces[|pieces| - 1];
      terminal, errorMessage, thrown := TrackFrames(pieces[..|pieces| - 1], decode, errorMessage);
      if thrown {
        return Thrown;
      }
      k := k + 1;
    }
    if terminal == NoTerminal && end.Rejected? {
      return ReadFailed(end.reason);
    }
    match terminal
    case TerminalError => outcome := Failed(if errorMessage.Some? then errorMessage.value else DEFAULT_MESSAGE);
    case NoTerminal => outcome := EndedEarly;
    case TerminalFinished => outcome := Completed;
  }

  // ---- dependence on the chunk boundaries ----

  /** The frame is not terminal or announces `o`. */
  predicate AgreesWith(frame: Text, o: Outcome, decode: Decoder) {
    FrameOutcome(frame, decode) == None || FrameOutcome(frame, decode) == Some(o)
  }

  lemma {:induction false} LastOutcomeAgrees(frames: seq<Text>, o: Outcome, decode: Decoder)
    requires forall i :: 0 <= i < |frames| ==> AgreesWith(frames[i], o, decode)
    ensures LastOutcome(frames, decode) ==
      if exists i :: 0 <= i < |frames| && FrameOutcome(frames[i], decode).Some? then Some(o) else None
  {
    hide FrameOutcome;
    if frames == [] {
    } else {
      var front := frames[..|frames| - 1];
      assert forall i :: 0 <= i < |front| ==> front[i] == frames[i];
      LastOutcomeAgrees(front, o, decode);
      assert AgreesWith(frames[|frames| - 1], o, decode);
    }
  }

  ghost predicate HasTerminal(frames: seq<Text>, decode: Decoder) {
    exists i :: 0 <= i < |frames| && FrameOutcome(frames[i], decode).Some?
  }

  /** If every terminal frame of the text announces `o`, every chunking of it ends in `o`. */
  lemma {:induction false} AgreeingTerminalsDecide(
      buffer: Text, chunks: seq<Text>, end: StreamEnd, o: Outcome, decode: Decoder)
    requires ResidualOf(buffer) == buffer && FramesOf(buffer) == []
    requires forall i :: 0 <= i < |FramesOf(buffer + Concat(chunks))| ==>
      AgreesWith(FramesOf(buffer + Concat(chunks))[i], o, decode)
    ensures TurnOutcome(buffer, chunks, end, decode)
      == if HasTerminal(FramesOf(buffer + Concat(chunks)), decode) then o else Undecided(end)
    decreases |chunks|
  {
    hide FrameOutcome, FramesOf, ResidualOf, AgreesWith;
    if chunks == [] {
      assert buffer + Concat(chunks) == buffer;
    } else {
      var seen, rest := buffer + chunks[0], Concat(chunks[1..]);
      assert buffer + Concat(chunks) == seen + rest;
      FramesOfAppend(seen, rest);
      var first, later := FramesOf(seen), FramesOf(ResidualOf(seen) + rest);
      var all := FramesOf(buffer + Concat(chunks));
      assert all == first + later;
      assert forall i :: 0 <= i < |first| ==> first[i] == all[i];
      LastOutcomeAgrees(first, o, decode);
      if HasTerminal(first, decode) {
        var i :| 0 <= i < |first| && FrameOutcome(first[i], decode).Some?;
        assert FrameOutcome(all[i], decode).Some?;
      } else {
        assert forall i :: 0 <= i < |later| ==> later[i] == all[|first| + i];
        ResidualHasNoFrames(seen);
        AgreeingTerminalsDecide(ResidualOf(seen), chunks[1..], end, o, decode);
        assert HasTerminal(all, decode) <==> HasTerminal(later, decode) by {
          if HasTerminal(all, decode) {
            var i :| 0 <= i < |all| && FrameOutcome(all[i], decode).Some?;
            assert i >= |first| && later[i - |first|] == all[i];
          }
        }
      }
    }
  }

  lemma ResidualHasNoFrames(t: Text)
    ensures FramesOf(ResidualOf(t)) == [] && ResidualOf(ResidualOf(t)) == ResidualOf(t)
  {
    SplitLeftmost(t, BLANK_LINE);
    SplitNone(ResidualOf(t), BLANK_LINE);
  }

  lemma ConcatPair(a: Text, b: Text)
    ensures Concat([a, b]) == a + b
  {
    assert [a, b][1..] == [b];
    assert Concat([b]) == b + Concat([b][1..]);
  }

  /** No frame before the k-th throws. */
  ghost predicate NoThrowBefore(frames: seq<Text>, k: nat, decode: Decoder)
    requires k <= |frames|
  {
    forall i :: 0 <= i < k ==> FrameOutcome(frames[i], decode) != Some(Thrown)
  }

  lemma {:induction false} NoThrowNoThrow(frames: seq<Text>, decode: Decoder)
    requires NoThrowBefore(frames, |frames|, decode)
    ensures LastOutcome(frames, decode) != Some(Thrown)
    decreases |frames|
  {
    hide FrameOutcome;
    if frames == [] {
    } else {
      var front := frames[..|frames| - 1];
      assert forall i :: 0 <= i < |front| ==> front[i] == frames[i];
      NoThrowNoThrow(front, decode);
    }
  }

  /** Ending the first chunk right after a deciding frame makes that frame decide, unless an earlier one throws. */
  lemma ChunkEndingAt(t: Text, k: nat, end: StreamEnd, decode: Decoder) returns (chunks: seq<Text>)
    requires k < |FramesOf(t)| && FrameOutcome(FramesOf(t)[k], decode).Some?
    requires NoThrowBefore(FramesOf(t), k, decode)
    ensures Concat(chunks) == t
    ensures TurnOutcome([], chunks, end, decode) == FrameOutcome(FramesOf(t)[k], decode).value
  {
    var prefix, rest := PrefixUpToFrame(t, k);
    chunks := [prefix, rest];
    ConcatPair(prefix, rest);
    assert chunks[1..] == [rest];
    hide FrameOutcome, FramesOf;
    assert [] + prefix == prefix;
    var frames := FramesOf(prefix);
    var front := frames[..|frames| - 1];
    assert frames[|frames| - 1] == FramesOf(t)[k];
    assert forall i :: 0 <= i < |front| ==> front[i] == FramesOf(t)[i];
    NoThrowNoThrow(front, decode);
  }

  ghost predicate ChunkIndependent(t: Text, end: StreamEnd, decode: Decoder) {
    forall a: seq<Text>, b: seq<Text> :: Concat(a) == t && Concat(b) == t ==>
      TurnOutcome([], a, end, decode) == TurnOutcome([], b, end, decode)
  }

  ghost predicate Deciding(frames: seq<Text>, k: nat, decode: Decoder) {
    k < |frames| && FrameOutcome(frames[k], decode).Some?
  }

  ghost predicate DecidingFramesAgree(frames: seq<Text>, decode: Decoder) {
    forall i: nat, j: nat :: Deciding(frames, i, decode) && Deciding(frames, j, decode)
      ==> FrameOutcome(frames[i], decode) == FrameOutcome(frames[j], decode)
  }

  /** The first deciding frame throws. */
  ghost predicate ThrowsFirst(frames: seq<Text>, decode: Decoder) {
    exists k: nat :: k < |frames| && FrameOutcome(frames[k], decode) == Some(Thrown) && NothingBefore(frames, k, decode)
  }

  ghost predicate NothingBefore(frames: seq<Text>, k: nat, decode: Decoder)
    requires k <= |frames|
  {
    forall i :: 0 <= i < k ==> FrameOutcome(frames[i], decode) == None
  }

  /**
   * A turn's outcome is independent of the chunk boundaries exactly when all deciding frames of the stream decide
   * the same, or the first of them throws; in particular when there is at most one, as the protocol promises.
   */
  lemma OutcomeChunkIndependentIff(t: Text, end: StreamEnd, decode: Decoder)
    ensures ChunkIndependent(t, end, decode) <==>
      DecidingFramesAgree(FramesOf(t), decode) || ThrowsFirst(FramesOf(t), decode)
  {
    hide FrameOutcome, FramesOf, TurnOutcome;
    var frames := FramesOf(t);
    if DecidingFramesAgree(frames, decode) {
      AgreementGivesIndependence(t, end, decode);
    } else if ThrowsFirst(frames, decode) {
      var k: nat :| k < |frames| && FrameOutcome(frames[k], decode) == Some(Thrown) && NothingBefore(frames, k, decode);
      forall chunks: seq<Text> | Concat(chunks) == t ensures TurnOutcome([], chunks, end, decode) == Thrown {
        NothingYet();
        assert [] + Concat(chunks) == Concat(chunks);
        FirstThrowDecides([], chunks, end, k, decode);
      }
    } else {
      DisagreementShows(t, end, decode);
    }
  }

  /** If the first deciding frame does not throw and another one decides differently, two chunkings end differently. */
  lemma DisagreementShows(t: Text, end: StreamEnd, decode: Decoder)
    requires !DecidingFramesAgree(FramesOf(t), decode) && !ThrowsFirst(FramesOf(t), decode)
    ensures !ChunkIndependent(t, end, decode)
  {
    hide FramesOf, TurnOutcome, FrameOutcome;
    var frames := FramesOf(t);
    var i: nat, j: nat :| Deciding(frames, i, decode) && Deciding(frames, j, decode)
      && FrameOutcome(frames[i], decode) != FrameOutcome(frames[j], decode);
    var first := FirstDeciding(frames, i, decode);
    var other := if FrameOutcome(frames[i], decode) == FrameOutcome(frames[first], decode) then j else i;
    var decider := FirstThrowOr(frames, other, decode);
    var a := ChunkEndingAt(t, first, end, decode);
    var b := ChunkEndingAt(t, decider, end, decode);
  }

  /** RUN_FINISHED and then `null`: in one chunk the turn throws, with the chunk ending between them it succeeds. */
  lemma NullAfterFinish(t: Text, end: StreamEnd, decode: Decoder) returns (chunks: seq<Text>)
    requires |FramesOf(t)| == 2
    requires FrameOutcome(FramesOf(t)[0], decode) == Some(Completed)
      && FrameOutcome(FramesOf(t)[1], decode) == Some(Thrown)
    ensures TurnOutcome([], [t], end, decode) == Thrown
    ensures Concat(chunks) == t && TurnOutcome([], chunks, end, decode) == Completed
  {
    chunks := ChunkEndingAt(t, 0, end, decode);
    ThrownInChunk(FramesOf(t), 1, decode);
    hide FramesOf, FrameOutcome, LastOutcome;
    assert [] + t == t && [t][0] == t;
  }

  lemma {:induction false} FirstDeciding(frames: seq<Text>, i: nat, decode: Decoder) returns (k: nat)
    requires Deciding(frames, i, decode)
    ensures k <= i && Deciding(frames, k, decode) && NothingBefore(frames, k, decode)
    decreases i
  {
    hide FrameOutcome;
    if m: nat :| m < i && Deciding(frames, m, decode) {
      k := FirstDeciding(frames, m, decode);
    } else {
      k := i;
      forall m | 0 <= m < i ensures FrameOutcome(frames[m], decode) == None {
        assert !Deciding(frames, m, decode);
      }
    }
  }

  /** The first frame up to `i` that throws, or `i` itself. */
  lemma {:induction false} FirstThrowOr(frames: seq<Text>, i: nat, decode: Decoder) returns (k: nat)
    requires Deciding(frames, i, decode)
    ensures k <= i && Deciding(frames, k, decode) && NoThrowBefore(frames, k, decode)
    ensures k == i || FrameOutcome(frames[k], decode) == Some(Thrown)
    decreases i
  {
    hide FrameOutcome;
    if m: nat :| m < i && FrameOutcome(frames[m], decode) == Some(Thrown) {
      k := FirstThrowOr(frames, m, decode);
    } else {
      k := i;
    }
  }

  /** A chunk whose first deciding frame throws ends the turn with that. */
  lemma ThrownInChunk(frames: seq<Text>, k: nat, decode: Decoder)
    requires k < |frames| && FrameOutcome(frames[k], decode) == Some(Thrown)
    ensures LastOutcome(frames, decode) == Some(Thrown)
  {
    hide FrameOutcome;
    var upTo := frames[..k + 1];
    assert upTo[|upTo| - 1] == frames[k];
    assert LastOutcome(upTo, decode) == Some(Thrown);
    hide LastOutcome;
    ThrowStays(frames, k + 1, decode);
  }

  lemma {:induction false} NothingNone(frames: seq<Text>, decode: Decoder)
    requires NothingBefore(frames, |frames|, decode)
    ensures LastOutcome(frames, decode) == None
    decreases |frames|
  {
    hide FrameOutcome;
    if frames == [] {
    } else {
      var front := frames[..|frames| - 1];
      assert forall i :: 0 <= i < |front| ==> front[i] == frames[i];
      NothingNone(front, decode);
    }
  }

  lemma {:induction false} FirstThrowDecides(
      buffer: Text, chunks: seq<Text>, end: StreamEnd, k: nat, decode: Decoder)
    requires ResidualOf(buffer) == buffer && FramesOf(buffer) == []
    requires k < |FramesOf(buffer + Concat(chunks))| && NothingBefore(FramesOf(buffer + Concat(chunks)), k, decode)
    requires FrameOutcome(FramesOf(buffer + Concat(chunks))[k], decode) == Some(Thrown)
    ensures TurnOutcome(buffer, chunks, end, decode) == Thrown
    decreases |chunks|
  {
    hide FrameOutcome, FramesOf, ResidualOf, LastOutcome;
    assert chunks == [] ==> buffer + Concat(chunks) == buffer;
    if chunks == [] {
    } else {
      var seen, rest := buffer + chunks[0], Concat(chunks[1..]);
      assert buffer + Concat(chunks) == seen + rest;
      FramesOfAppend(seen, rest);
      var first, later := FramesOf(seen), FramesOf(ResidualOf(seen) + rest);
      var all := FramesOf(buffer + Concat(chunks));
      assert all == first + later;
      if k < |first| {
        ThrownInChunk(first, k, decode);
      } else {
        assert forall i :: 0 <= i < |first| ==> first[i] == all[i];
        NothingNone(first, decode);
        ResidualHasNoFrames(seen);
        assert forall i :: 0 <= i < |later| ==> later[i] == all[|first| + i];
        FirstThrowDecides(ResidualOf(seen), chunks[1..], end, k - |first|, decode);
      }
    }
  }

  lemma AgreementGivesIndependence(t: Text, end: StreamEnd, decode: Decoder)
    requires DecidingFramesAgree(FramesOf(t), decode)
    ensures ChunkIndependent(t, end, decode)
  {
    hide FrameOutcome, FramesOf, TurnOutcome;
    var frames := FramesOf(t);
    var o := Undecided(end);
    if HasTerminal(frames, decode) {
      var i :| 0 <= i < |frames| && FrameOutcome(frames[i], decode).Some?;
      o := FrameOutcome(frames[i], decode).value;
    }
    forall i | 0 <= i < |frames| ensures AgreesWith(frames[i], o, decode) {
      if FrameOutcome(frames[i], decode).Some? { assert Deciding(frames, i, decode); }
    }
    forall chunks: seq<Text> | Concat(chunks) == t
      ensures TurnOutcome([], chunks, end, decode) == if HasTerminal(frames, decode) then o else Undecided(end)
    {
      NothingYet();
      assert [] + Concat(chunks) == Concat(chunks);
      AgreeingTerminalsDecide([], chunks, end, o, decode);
    }
  }

  // ---- what a turn with one deciding event comes to, in terms of the decoded events ----

  /** The frame's first line that starts with "data: " decodes to `e`. */
  ghost predicate Reads(frame: Text, e: AguiEvent, decode: Decoder) {
    exists i ::
      && FirstData(Split(frame, LineBuffers.NEWLINE), i)
      && decode(Split(frame, LineBuffers.NEWLINE)[i][|DATA_PREFIX|..]) == Some(e)
  }

  ghost predicate FirstData(lines: seq<Text>, i: int) {
    && 0 <= i < |lines| && StartsWith(lines[i], DATA_PREFIX)
    && forall j :: 0 <= j < i ==> !StartsWith(lines[j], DATA_PREFIX)
  }

  lemma {:induction false} FindDataIsFirst(lines: seq<Text>, i: int)
    requires FirstData(lines, i)
    ensures FindData(lines) == Some(lines[i])
  {
    if i == 0 {
    } else {
      assert !StartsWith(lines[0], DATA_PREFIX);
      forall j | 0 <= j < i - 1 ensures !StartsWith(lines[1..][j], DATA_PREFIX) {
        assert !StartsWith(lines[j + 1], DATA_PREFIX);
      }
      FindDataIsFirst(lines[1..], i - 1);
    }
  }

  lemma {:induction false} FoundDataIsFirst(lines: seq<Text>) returns (i: int)
    requires FindData(lines).Some?
    ensures FirstData(lines, i) && FindData(lines) == Some(lines[i])
  {
    if StartsWith(lines[0], DATA_PREFIX) {
      i := 0;
    } else {
      var k := FoundDataIsFirst(lines[1..]);
      i := k + 1;
      forall j | 0 <= j < i ensures !StartsWith(lines[j], DATA_PREFIX) {
        if j > 0 { assert !StartsWith(lines[1..][j - 1], DATA_PREFIX); }
      }
    }
  }

  lemma ReadsIsFrameEvent(frame: Text, e: AguiEvent, decode: Decoder)
    ensures Reads(frame, e, decode) <==> FrameEvent(frame, decode) == Some(e)
  {
    hide Split;
    var lines := Split(frame, LineBuffers.NEWLINE);
    if Reads(frame, e, decode) {
      var i :| FirstData(lines, i) && decode(lines[i][|DATA_PREFIX|..]) == Some(e);
      FindDataIsFirst(lines, i);
    }
    if FrameEvent(frame, decode) == Some(e) {
      var i := FoundDataIsFirst(lines);
      assert decode(lines[i][|DATA_PREFIX|..]) == Some(e);
    }
  }

  /** The k-th frame reads as `e`, and no other frame reads as an event that ends the turn. */
  ghost predicate OnlyEnding(frames: seq<Text>, k: int, e: AguiEvent, decode: Decoder) {
    && 0 <= k < |frames| && Reads(frames[k], e, decode)
    && forall i, other :: 0 <= i < |frames| && i != k && Reads(frames[i], other, decode) ==> other == OtherEvent
  }

  /** No frame reads as an event that ends the turn. */
  ghost predicate NoEnding(frames: seq<Text>, decode: Decoder) {
    forall i, other :: 0 <= i < |frames| && Reads(frames[i], other, decode) ==> other == OtherEvent
  }

  lemma QuietFrame(frame: Text, decode: Decoder)
    requires forall other :: Reads(frame, other, decode) ==> other == OtherEvent
    ensures FrameOutcome(frame, decode) == None
  {
    hide Reads;
    if FrameEvent(frame, decode).Some? {
      ReadsIsFrameEvent(frame, FrameEvent(frame, decode).value, decode);
    }
  }

  lemma OnlyEndingDecides(
      chunks: seq<Text>, end: StreamEnd, k: int, e: AguiEvent, o: Outcome, decode: Decoder)
    requires OnlyEnding(FramesOf(Concat(chunks)), k, e, decode)
      && FrameOutcome(FramesOf(Concat(chunks))[k], decode) == Some(o)
    ensures TurnOutcome([], chunks, end, decode) == o
  {
    hide FramesOf, FrameOutcome, TurnOutcome, Reads;
    var frames := FramesOf(Concat(chunks));
    forall i | 0 <= i < |frames| ensures AgreesWith(frames[i], o, decode) {
      if i != k { QuietFrame(frames[i], decode); }
    }
    NothingYet();
    assert [] + Concat(chunks) == Concat(chunks);
    AgreeingTerminalsDecide([], chunks, end, o, decode);
    assert HasTerminal(frames, decode);
  }

  /**
   * For every chunking: a finished event alone ends the turn successfully, an error event alone with its message or
   * the default one, a `null` payload alone with a throw; without any of them the end of the stream decides.
   */
  lemma OneEndingEvent(chunks: seq<Text>, end: StreamEnd, k: int, message: Text, decode: Decoder)
    ensures OnlyEnding(FramesOf(Concat(chunks)), k, RunFinishedEvent, decode) ==>
      TurnOutcome([], chunks, end, decode) == Completed
    ensures OnlyEnding(FramesOf(Concat(chunks)), k, RunErrorEvent(Some(message)), decode) ==>
      TurnOutcome([], chunks, end, decode) == Failed(message)
    ensures OnlyEnding(FramesOf(Concat(chunks)), k, RunErrorEvent(None), decode) ==>
      TurnOutcome([], chunks, end, decode) == Failed(DEFAULT_MESSAGE)
    ensures OnlyEnding(FramesOf(Concat(chunks)), k, NullEvent, decode) ==>
      TurnOutcome([], chunks, end, decode) == Thrown
  {
    hide FramesOf, TurnOutcome, Reads, FrameEvent;
    var frames := FramesOf(Concat(chunks));
    if 0 <= k < |frames| {
      ReadsIsFrameEvent(frames[k], RunFinishedEvent, decode);
      ReadsIsFrameEvent(frames[k], RunErrorEvent(Some(message)), decode);
      ReadsIsFrameEvent(frames[k], RunErrorEvent(None), decode);
      ReadsIsFrameEvent(frames[k], NullEvent, decode);
      var o := FrameOutcome(frames[k], decode);
      if OnlyEnding(frames, k, RunFinishedEvent, decode) {
        OnlyEndingDecides(chunks, end, k, RunFinishedEvent, Completed, decode);
      }
      if OnlyEnding(frames, k, RunErrorEvent(Some(message)), decode) {
        OnlyEndingDecides(chunks, end, k, RunErrorEvent(Some(message)), Failed(message), decode);
      }
      if OnlyEnding(frames, k, RunErrorEvent(None), decode) {
        OnlyEndingDecides(chunks, end, k, RunErrorEvent(None), Failed(DEFAULT_MESSAGE), decode);
      }
      if OnlyEnding(frames, k, NullEvent, decode) {
        OnlyEndingDecides(chunks, end, k, NullEvent, Thrown, decode);
      }
    }
  }

  lemma NoEndingEvent(chunks: seq<Text>, end: StreamEnd, decode: Decoder)
    requires NoEnding(FramesOf(Concat(chunks)), decode)
    ensures end == Closed ==> TurnOutcome([], chunks, end, decode) == EndedEarly
    ensures end.Rejected? ==> TurnOutcome([], chunks, end, decode) == ReadFailed(end.reason)
  {
    hide FramesOf, FrameOutcome, TurnOutcome, Reads;
    var frames := FramesOf(Concat(chunks));
    forall i | 0 <= i < |frames| ensures FrameOutcome(frames[i], decode) == None {
      QuietFrame(frames[i], decode);
    }
    NothingYet();
    assert [] + Concat(chunks) == Concat(chunks);
    AgreeingTerminalsDecide([], chunks, end, Completed, decode);
  }

  /** The outcome that a turn with one deciding event, or none, has to have. */
  ghost predicate FollowsEvents(frames: seq<Text>, end: StreamEnd, outcome: Outcome, decode: Decoder) {
    && (forall k :: OnlyEnding(frames, k, RunFinishedEvent, decode) ==> outcome == Completed)
    && (forall k, m :: OnlyEnding(frames, k, RunErrorEvent(Some(m)), decode) ==> outcome == Failed(m))
    && (forall k :: OnlyEnding(frames, k, RunErrorEvent(None), decode) ==> outcome == Failed(DEFAULT_MESSAGE))
    && (forall k :: OnlyEnding(frames, k, NullEvent, decode) ==> outcome == Thrown)
    && (NoEnding(frames, decode) && end == Closed ==> outcome == EndedEarly)
    && (NoEnding(frames, decode) && end.Rejected? ==> outcome == ReadFailed(end.reason))
  }

  lemma TurnFollowsEvents(chunks: seq<Text>, end: StreamEnd, decode: Decoder)
    ensures FollowsEvents(FramesOf(Concat(chunks)), end, TurnOutcome([], chunks, end, decode), decode)
  {
    hide FramesOf, TurnOutcome, OnlyEnding, NoEnding;
    var frames := FramesOf(Concat(chunks));
    var outcome := TurnOutcome([], chunks, end, decode);
    forall k | OnlyEnding(frames, k, RunFinishedEvent, decode) ensures outcome == Completed {
      OneEndingEvent(chunks, end, k, [], decode);
    }
    forall k, m | OnlyEnding(frames, k, RunErrorEvent(Some(m)), decode) ensures outcome == Failed(m) {
      OneEndingEvent(chunks, end, k, m, decode);
    }
    forall k | OnlyEnding(frames, k, RunErrorEvent(None), decode) ensures outcome == Failed(DEFAULT_MESSAGE) {
      OneEndingEvent(chunks, end, k, [], decode);
    }
    forall k | OnlyEnding(frames, k, NullEvent, decode) ensures outcome == Thrown {
      OneEndingEvent(chunks, end, k, [], decode);
    }
    if NoEnding(frames, decode) { NoEndingEvent(chunks, end, decode); }
  }
}
