/** Clipping of tool results before they are shown to the model again. */
module ToolResults {
  import opened JsText

  const PER_HIT_BODY: nat := 800
  const PER_SNIPPET_BODY: nat := 2000

  /** " [... truncated]" */
  const TRUNCATION_SUFFIX: Text := [32, 91, 46, 46, 46, 32, 116, 114, 117, 110, 99, 97, 116, 101, 100, 93]

  /** `rest` stands for whatever else the object holds. */
  datatype Hit = TextHit(rest: Text, text: Text) | OtherHit(rest: Text)

  datatype ToolValue = Hits(rest: Text, hits: seq<Hit>) | Snippet(rest: Text, text: Text) | Verbatim(rest: Text)

  datatype Clipped = Clipped(value: ToolValue, truncated: bool)

  function Clip(s: Text, n: nat): Text {
    if |s| <= n then s else s[..n] + TRUNCATION_SUFFIX
  }

  function ClipHit(h: Hit): Hit {
    match h
    case TextHit(rest, text) => TextHit(rest, Clip(text, PER_HIT_BODY))
    case OtherHit(_) => h
  }

  predicate HitTooLong(h: Hit) {
    h.TextHit? && |h.text| > PER_HIT_BODY
  }

  function TruncateToolResult(raw: ToolValue): Clipped {
    match raw
    case Hits(rest, hits) =>
      Clipped(Hits(rest, seq(|hits|, i requires 0 <= i < |hits| => ClipHit(hits[i]))),
              exists h :: h in hits && HitTooLong(h))
    case Snippet(rest, text) => Clipped(Snippet(rest, Clip(text, PER_SNIPPET_BODY)), |text| > PER_SNIPPET_BODY)
    case Verbatim(_) => Clipped(raw, false)
  }

  /** Every body is within its budget, or is a budget's worth of text followed by the marker. */
  ghost predicate WithinBudget(s: Text, n: nat) {
    |s| <= n || (|s| == n + |TRUNCATION_SUFFIX| && s[n..] == TRUNCATION_SUFFIX)
  }

  ghost predicate FitsPrompt(v: ToolValue) {
    match v
    case Hits(_, hits) => forall i :: 0 <= i < |hits| && hits[i].TextHit? ==> WithinBudget(hits[i].text, PER_HIT_BODY)
    case Snippet(_, text) => WithinBudget(text, PER_SNIPPET_BODY)
    case Verbatim(_) => true
  }

  lemma ClipFits(s: Text, n: nat)
    ensures WithinBudget(Clip(s, n), n)
    ensures Clip(s, n) == s <==> WithinBudget(s, n)
  {
    if |s| > n {
      assert s == s[..n] + s[n..];
      assert Clip(s, n)[n..] == TRUNCATION_SUFFIX;
    }
  }

  /** Clipped results fit the prompt, and clipping changes exactly the results that do not: it is idempotent. */
  lemma TruncateFits(raw: ToolValue)
    ensures FitsPrompt(TruncateToolResult(raw).value)
    ensures TruncateToolResult(raw).value == raw <==> FitsPrompt(raw)
  {
    match raw
    case Hits(rest, hits) =>
      var clipped := TruncateToolResult(raw).value.hits;
      forall i | 0 <= i < |hits|
        ensures clipped[i].TextHit? ==> WithinBudget(clipped[i].text, PER_HIT_BODY)
        ensures clipped[i] == hits[i] <==> (hits[i].TextHit? ==> WithinBudget(hits[i].text, PER_HIT_BODY))
      {
        if hits[i].TextHit? { ClipFits(hits[i].text, PER_HIT_BODY); }
      }
      assert clipped == hits <==> forall i :: 0 <= i < |hits| ==> clipped[i] == hits[i];
    case Snippet(_, text) => ClipFits(text, PER_SNIPPET_BODY);
    case Verbatim(_) =>
  }

  lemma TruncateIdempotent(raw: ToolValue)
    ensures TruncateToolResult(TruncateToolResult(raw).value).value == TruncateToolResult(raw).value
  {
    TruncateFits(raw);
    TruncateFits(TruncateToolResult(raw).value);
  }

  /** Without the truncated flag the model saw the result verbatim. */
  lemma NotTruncatedIsVerbatim(raw: ToolValue)
    requires !TruncateToolResult(raw).truncated
    ensures TruncateToolResult(raw).value == raw
  {
    if raw.Hits? {
      var clipped := TruncateToolResult(raw).value.hits;
      forall i | 0 <= i < |raw.hits| ensures clipped[i] == raw.hits[i] {
        assert raw.hits[i] in raw.hits;
      }
      assert clipped == raw.hits;
    }
  }

  /** A text as the model is shown it: whole if it fits, else its first `n` characters and the marker. */
  ghost predicate ShownAs(text: Text, shown: Text, n: nat) {
    if |text| <= n then shown == text
    else |shown| == n + |TRUNCATION_SUFFIX| && shown[..n] == text[..n] && shown[n..] == TRUNCATION_SUFFIX
  }

  /** Nothing but long texts changes: every hit stays, in its place, with what else it holds. */
  ghost predicate ShownFor(raw: ToolValue, shown: ToolValue) {
    match raw
    case Hits(rest, hits) =>
      && shown.Hits? && shown.rest == rest && |shown.hits| == |hits|
      && forall i :: 0 <= i < |hits| ==>
           if hits[i].TextHit?
           then shown.hits[i].TextHit? && shown.hits[i].rest == hits[i].rest
                && ShownAs(hits[i].text, shown.hits[i].text, 800)
           else shown.hits[i] == hits[i]
    case Snippet(rest, text) => shown.Snippet? && shown.rest == rest && ShownAs(text, shown.text, 2000)
    case Verbatim(_) => shown == raw
  }

  ghost predicate HasLongText(raw: ToolValue) {
    match raw
    case Hits(_, hits) => exists i :: 0 <= i < |hits| && hits[i].TextHit? && |hits[i].text| > 800
    case Snippet(_, text) => |text| > 2000
    case Verbatim(_) => false
  }

  /** The clipped value is the raw one but for its long texts, and it is flagged exactly if there is one. */
  lemma TruncateShows(raw: ToolValue)
    ensures ShownFor(raw, TruncateToolResult(raw).value)
    ensures TruncateToolResult(raw).truncated <==> HasLongText(raw)
  {
    if raw.Hits? && HasLongText(raw) {
      var i :| 0 <= i < |raw.hits| && raw.hits[i].TextHit? && |raw.hits[i].text| > 800;
      assert raw.hits[i] in raw.hits && HitTooLong(raw.hits[i]);
    }
  }
}
