/** The NDJSON line buffer both stdio adapters use. */
module LineBuffers {
  import opened JsText
  import opened Splitting

  const NEWLINE: Text := [LF]

  /** One trailing CR is dropped. */
  function StripCr(line: Text): Text {
    if line != [] && line[|line| - 1] == CR then line[..|line| - 1] else line
  }

  /** Terminated lines without their trailing CR, empty ones left out. */
  function CleanLines(lines: seq<Text>): seq<Text> {
    if lines == [] then []
    else (if StripCr(lines[0]) == [] then [] else [StripCr(lines[0])]) + CleanLines(lines[1..])
  }

  /** The specification on a whole text: split on LF, clean every terminated line, keep the rest. */
  function LinesOf(text: Text): seq<Text> {
    CleanLines(Front(Split(text, NEWLINE)))
  }

  function ResidualOf(text: Text): Text {
    Last(Split(text, NEWLINE))
  }

  lemma {:induction false} CleanLinesAppend(a: seq<Text>, b: seq<Text>)
    ensures CleanLines(a + b) == CleanLines(a) + CleanLines(b)
  {
    if a == [] {
      assert a + b == b;
    } else {
      assert (a + b)[1..] == a[1..] + b;
      CleanLinesAppend(a[1..], b);
    }
  }

  /** Text that arrives later only adds lines. */
  lemma LinesOfAppend(a: Text, b: Text)
    ensures LinesOf(a + b) == LinesOf(a) + LinesOf(ResidualOf(a) + b)
    ensures ResidualOf(a + b) == ResidualOf(ResidualOf(a) + b)
  {
    SplitAppend(a, b, NEWLINE);
    var front := Front(Split(a, NEWLINE));
    var rest := Split(ResidualOf(a) + b, NEWLINE);
    assert Front(front + rest) == front + Front(rest);
    CleanLinesAppend(front, Front(rest));
  }

  lemma NothingCleaned()
    ensures CleanLines([]) == []
  {
  }

  lemma LineCleaned(done: seq<Text>, line: Text)
    ensures var clean := if line != [] && line[|line| - 1] == CR then line[..|line| - 1] else line;
      CleanLines(done + [line]) == CleanLines(done) + (if clean == [] then [] else [clean])
  {
    CleanLinesAppend(done, [line]);
  }

  class LineBuffer {
    var buffer: Text

    constructor ()
      ensures buffer == []
    {
      buffer := [];
    }

    method Push(text: Text) returns (lines: seq<Text>)
      modifies this
      ensures lines == LinesOf(old(buffer) + text)
      ensures buffer == ResidualOf(old(buffer) + text)
    {
      hide IndexOf, Split, CleanLines, StripCr;
      buffer := buffer + text;
      ghost var all := buffer;
      ghost var done: seq<Text> := [];
      lines := [];
      NothingCleaned();
      assert done + Split(buffer, NEWLINE) == Split(buffer, NEWLINE);
      var newline := IndexOf(buffer, NEWLINE);
      while newline != -1
        invariant newline == IndexOf(buffer, NEWLINE)
        invariant Split(all, NEWLINE) == done + Split(buffer, NEWLINE)
        invariant lines == CleanLines(done)
        decreases |buffer|
      {
        SplitFirst(buffer, NEWLINE);
        var line := buffer[..newline];
        LineCleaned(done, line);
        done := done + [line];
        if line != [] && line[|line| - 1] == CR {
          line := line[..|line| - 1];
        }
        if line != [] {
          lines := lines + [line];
        }
        buffer := buffer[newline + 1..];
        newline := IndexOf(buffer, NEWLINE);
      }
      SplitNone(buffer, NEWLINE);
      assert Front(done + [buffer]) == done;
    }

    method Drain() returns (residual: Text)
      modifies this
      ensures residual == old(buffer) && buffer == []
    {
      residual := buffer;
      buffer := [];
    }
  }

  /** Whatever the chunk boundaries, the buffer yields the lines and the residual of the whole text. */
  method DecodeChunks(chunks: seq<Text>) returns (lines: seq<Text>, residual: Text)
    ensures lines == LinesOf(Concat(chunks))
    ensures residual == ResidualOf(Concat(chunks))
  {
    var reader := new LineBuffer();
    lines := [];
    NothingYet();
    for k := 0 to |chunks|
      invariant lines == LinesOf(Concat(chunks[..k]))
      invariant reader.buffer == ResidualOf(Concat(chunks[..k]))
    {
      hide LinesOf, ResidualOf;
      LinesOfAppend(Concat(chunks[..k]), chunks[k]);
      ConcatSnoc(chunks[..k], chunks[k]);
      assert chunks[..k + 1] == chunks[..k] + [chunks[k]];
      var more := reader.Push(chunks[k]);
      lines := lines + more;
    }
    assert chunks[..|chunks|] == chunks;
    residual := reader.Drain();
  }

  lemma NothingYet()
    ensures LinesOf([]) == [] && ResidualOf([]) == []
  {
  }

  // ---- framing and its inverse ----

  /** Every line followed by the terminator, as `send` writes them. */
  function Framed(lines: seq<Text>, terminator: Text): Text {
    if lines == [] then [] else lines[0] + terminator + Framed(lines[1..], terminator)
  }

  /** What a line must be to survive LF framing. */
  predicate Transparent(line: Text) {
    line != [] && LF !in line && line[|line| - 1] != CR
  }

  lemma NoNewline(line: Text)
    requires LF !in line
    ensures IndexOf(line, NEWLINE) == -1
    ensures IndexOf(line + NEWLINE, NEWLINE) == |line|
  {
    OccursNewline(line + NEWLINE, |line|);
    forall j ensures !OccursAt(line, NEWLINE, j) {
      OccursNewline(line, j);
      assert 0 <= j < |line| ==> line[j] in line;
    }
    forall j | j < |line| ensures !OccursAt(line + NEWLINE, NEWLINE, j) {
      OccursNewline(line + NEWLINE, j);
      assert 0 <= j ==> line[j] in line;
    }
  }

  lemma OccursNewline(t: Text, j: int)
    ensures OccursAt(t, NEWLINE, j) <==> 0 <= j < |t| && t[j] == LF
  {
    if 0 <= j < |t| { assert t[j..j + 1] == [t[j]]; }
  }

  lemma {:induction false} FramedIsJoin(lines: seq<Text>)
    ensures Framed(lines, NEWLINE) == Join(lines + [[]], NEWLINE)
  {
    if lines == [] {
    } else {
      FramedIsJoin(lines[1..]);
      assert (lines + [[]])[1..] == lines[1..] + [[]];
    }
  }

  lemma LeftmostLines(lines: seq<Text>)
    requires forall i :: 0 <= i < |lines| ==> LF !in lines[i]
    ensures Leftmost(lines + [[]], NEWLINE)
  {
    hide IndexOf, OccursAt;
    var pieces := lines + [[]];
    forall k | 0 <= k < |pieces| - 1 ensures IndexOf(pieces[k] + NEWLINE, NEWLINE) == |pieces[k]| {
      NoNewline(lines[k]);
    }
    NoNewline([]);
  }

  lemma SplitFramed(lines: seq<Text>)
    requires forall i :: 0 <= i < |lines| ==> LF !in lines[i]
    ensures Split(Framed(lines, NEWLINE), NEWLINE) == lines + [[]]
  {
    hide Split, Join, Framed, Leftmost;
    FramedIsJoin(lines);
    LeftmostLines(lines);
    SplitUnique(lines + [[]], NEWLINE);
  }

  function TotalLength(lines: seq<Text>): nat {
    if lines == [] then 0 else |lines[0]| + TotalLength(lines[1..])
  }

  /** Cleaning leaves a list of lines as it is exactly when it has nothing to clean. */
  lemma {:induction false} CleanLinesFixed(lines: seq<Text>)
    ensures TotalLength(CleanLines(lines)) <= TotalLength(lines)
    ensures CleanLines(lines) == lines <==> forall i :: 0 <= i < |lines| ==>
      lines[i] != [] && StripCr(lines[i]) == lines[i]
  {
    if lines == [] {
    } else {
      CleanLinesFixed(lines[1..]);
      var rest := CleanLines(lines[1..]);
      assert lines == [lines[0]] + lines[1..];
      if StripCr(lines[0]) == [] {
        ShorterList(lines);
        assert CleanLines(lines) == rest;
      } else {
        assert CleanLines(lines) == [StripCr(lines[0])] + rest;
        assert forall i :: 1 <= i < |lines| ==> lines[i] == lines[1..][i - 1];
        if CleanLines(lines) == lines {
          assert rest == lines[1..];
        }
      }
    }
  }

  lemma {:induction false} ShorterList(lines: seq<Text>)
    ensures |CleanLines(lines)| <= |lines|
    ensures lines != [] && StripCr(lines[0]) == [] ==> |CleanLines(lines)| < |lines|
  {
    if lines != [] { ShorterList(lines[1..]); }
  }

  lemma {:induction false} CleanedLinesAreClean(lines: seq<Text>, i: nat)
    requires i < |CleanLines(lines)| && forall k :: 0 <= k < |lines| ==> LF !in lines[k]
    ensures CleanLines(lines)[i] != [] && LF !in CleanLines(lines)[i]
  {
    var rest := CleanLines(lines[1..]);
    if StripCr(lines[0]) == [] {
      CleanedLinesAreClean(lines[1..], i);
    } else if i > 0 {
      CleanedLinesAreClean(lines[1..], i - 1);
    } else {
      assert LF !in lines[0];
    }
  }

  lemma SplitPiecesHaveNoNewline(t: Text, k: nat)
    requires k < |Split(t, NEWLINE)|
    ensures LF !in Split(t, NEWLINE)[k]
  {
    SplitLeftmost(t, NEWLINE);
    var p := Split(t, NEWLINE)[k];
    forall j | 0 <= j < |p| ensures p[j] != LF {
      OccursNewline(p, j);
      OccursNewline(p + NEWLINE, j);
    }
  }

  /** No decoded line is empty or holds an LF. */
  lemma DecodedLinesAreClean(t: Text, i: nat)
    requires i < |LinesOf(t)|
    ensures LinesOf(t)[i] != [] && LF !in LinesOf(t)[i]
  {
    var pieces := Front(Split(t, NEWLINE));
    forall k | 0 <= k < |pieces| ensures LF !in pieces[k] { SplitPiecesHaveNoNewline(t, k); }
    CleanedLinesAreClean(pieces, i);
  }

  /** LF-framed lines decode to themselves exactly when each is non-empty, has no LF and does not end in CR. */
  lemma FramingRoundTrip(lines: seq<Text>)
    ensures LinesOf(Framed(lines, NEWLINE)) == lines <==> forall i :: 0 <= i < |lines| ==> Transparent(lines[i])
    ensures (forall i :: 0 <= i < |lines| ==> LF !in lines[i]) ==> ResidualOf(Framed(lines, NEWLINE)) == []
  {
    var t := Framed(lines, NEWLINE);
    if forall i :: 0 <= i < |lines| ==> LF !in lines[i] {
      SplitFramed(lines);
      assert Front(lines + [[]]) == lines;
      CleanLinesFixed(lines);
    } else if LinesOf(t) == lines {
      var i :| 0 <= i < |lines| && LF in lines[i];
      DecodedLinesAreClean(t, i);
    }
  }

  lemma {:induction false} CrLfIsCrThenLf(lines: seq<Text>)
    ensures Framed(lines, [CR, LF]) == Framed(WithCr(lines), NEWLINE)
  {
    if lines == [] {
    } else {
      CrLfIsCrThenLf(lines[1..]);
      assert WithCr(lines)[1..] == WithCr(lines[1..]);
      assert lines[0] + [CR, LF] == lines[0] + [CR] + NEWLINE;
    }
  }

  function WithCr(lines: seq<Text>): seq<Text> {
    seq(|lines|, i requires 0 <= i < |lines| => lines[i] + [CR])
  }

  lemma {:induction false} CleanWithCr(lines: seq<Text>)
    requires forall i :: 0 <= i < |lines| ==> lines[i] != []
    ensures CleanLines(WithCr(lines)) == lines
  {
    if lines == [] {
    } else {
      CleanWithCr(lines[1..]);
      assert WithCr(lines)[1..] == WithCr(lines[1..]);
      assert StripCr(WithCr(lines)[0]) == lines[0];
    }
  }

  /**
   * CRLF-framed lines decode to themselves, CR and LF in different chunks included, exactly when none is empty
   * or holds an LF; unlike under LF framing, a line may end in CR.
   */
  lemma CrLfRoundTrip(lines: seq<Text>, chunks: seq<Text>)
    requires Concat(chunks) == Framed(lines, [CR, LF])
    ensures LinesOf(Concat(chunks)) == lines <==> forall i :: 0 <= i < |lines| ==> lines[i] != [] && LF !in lines[i]
    ensures (forall i :: 0 <= i < |lines| ==> LF !in lines[i]) ==> ResidualOf(Concat(chunks)) == []
  {
    CrLfIsCrThenLf(lines);
    if forall i :: 0 <= i < |lines| ==> LF !in lines[i] {
      SplitFramed(WithCr(lines));
      assert Front(WithCr(lines) + [[]]) == WithCr(lines);
    }
    if forall i :: 0 <= i < |lines| ==> lines[i] != [] && LF !in lines[i] {
      CleanWithCr(lines);
    } else if LinesOf(Concat(chunks)) == lines {
      var i :| 0 <= i < |lines| && (lines[i] == [] || LF in lines[i]);
      DecodedLinesAreClean(Concat(chunks), i);
    }
  }
}
