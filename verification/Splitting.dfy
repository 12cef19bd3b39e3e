/** `indexOf` and `split` on a separator, and how they behave on text that arrives in pieces. */
module Splitting {
  import opened JsText

  predicate OccursAt(t: Text, sep: Text, i: int) {
    0 <= i && i + |sep| <= |t| && t[i..i + |sep|] == sep
  }

  function FirstFrom(t: Text, sep: Text, from: nat): (r: int)
    ensures r == -1 || (from <= r && OccursAt(t, sep, r))
    ensures forall j :: from <= j && OccursAt(t, sep, j) ==> r != -1 && r <= j
    decreases |t| - from
  {
    if from + |sep| > |t| then -1
    else if OccursAt(t, sep, from) then from
    else FirstFrom(t, sep, from + 1)
  }

  /** `t.indexOf(sep)` */
  function IndexOf(t: Text, sep: Text): (r: int)
    ensures r == -1 || OccursAt(t, sep, r)
    ensures forall j :: OccursAt(t, sep, j) ==> r != -1 && r <= j
  {
    FirstFrom(t, sep, 0)
  }

  /** `t.split(sep)` */
  function Split(t: Text, sep: Text): (r: seq<Text>)
    requires sep != []
    ensures r != []
    decreases |t|
  {
    var i := IndexOf(t, sep);
    if i == -1 then [t] else [t[..i]] + Split(t[i + |sep|..], sep)
  }

  function Join(pieces: seq<Text>, sep: Text): Text {
    if pieces == [] then []
    else if |pieces| == 1 then pieces[0]
    else pieces[0] + sep + Join(pieces[1..], sep)
  }

  function Front<T>(s: seq<T>): seq<T>
    requires s != []
  {
    s[..|s| - 1]
  }

  function Last<T>(s: seq<T>): T
    requires s != []
  {
    s[|s| - 1]
  }

  function Concat<T>(chunks: seq<seq<T>>): seq<T> {
    if chunks == [] then [] else chunks[0] + Concat(chunks[1..])
  }

  /**
   * In each terminated piece followed by the separator, the separator occurs first at the end; never in the last piece.
   */
  ghost predicate Leftmost(pieces: seq<Text>, sep: Text) {
    && pieces != []
    && (forall k :: 0 <= k < |pieces| - 1 ==> IndexOf(pieces[k] + sep, sep) == |pieces[k]|)
    && IndexOf(Last(pieces), sep) == -1
  }

  /** An occurrence found in a prefix is the one found in the whole text. */
  lemma IndexOfExtends(a: Text, b: Text, sep: Text)
    requires IndexOf(a, sep) != -1
    ensures IndexOf(a + b, sep) == IndexOf(a, sep)
  {
    var i := IndexOf(a, sep);
    assert (a + b)[i..i + |sep|] == a[i..i + |sep|];
    assert OccursAt(a + b, sep, i);
    var j := IndexOf(a + b, sep);
    assert (a + b)[j..j + |sep|] == a[j..j + |sep|];
    assert OccursAt(a, sep, j);
  }

  /** Splitting loses nothing: joining the pieces gives the text back. */
  lemma {:induction false} JoinSplit(t: Text, sep: Text)
    requires sep != []
    ensures Join(Split(t, sep), sep) == t
    decreases |t|
  {
    var i := IndexOf(t, sep);
    if i == -1 {
    } else {
      var rest := t[i + |sep|..];
      JoinSplit(rest, sep);
      assert Split(t, sep)[1..] == Split(rest, sep);
      assert t == t[..i] + t[i..i + |sep|] + rest;
    }
  }

  lemma {:induction false} SplitLeftmost(t: Text, sep: Text)
    requires sep != []
    ensures Leftmost(Split(t, sep), sep)
    decreases |t|
  {
    hide IndexOf;
    var i := IndexOf(t, sep);
    if i == -1 {
      SplitNone(t, sep);
    } else {
      SplitFirst(t, sep);
      FirstPieceEndsThere(t, sep);
      var rest := t[i + |sep|..];
      SplitLeftmost(rest, sep);
      hide Split;
      var pieces := Split(t, sep);
      forall k | 0 <= k < |pieces| - 1 ensures IndexOf(pieces[k] + sep, sep) == |pieces[k]| {
        if k > 0 { assert pieces[k] == Split(rest, sep)[k - 1]; }
      }
      assert Last(pieces) == Last(Split(rest, sep));
    }
  }

  lemma FirstPieceEndsThere(t: Text, sep: Text)
    requires sep != [] && IndexOf(t, sep) != -1
    ensures IndexOf(t[..IndexOf(t, sep)] + sep, sep) == IndexOf(t, sep)
  {
    var i := IndexOf(t, sep);
    assert OccursAt(t, sep, i);
    var head := t[..i] + sep;
    assert head == t[..i + |sep|];
    assert head[i..i + |sep|] == sep;
    assert OccursAt(head, sep, i);
    IndexOfExtends(head, t[i + |sep|..], sep);
    assert head + t[i + |sep|..] == t;
  }

  /** Only one list of pieces is leftmost and joins to the text. */
  lemma {:induction false} SplitUnique(pieces: seq<Text>, sep: Text)
    requires sep != [] && Leftmost(pieces, sep)
    ensures Split(Join(pieces, sep), sep) == pieces
    decreases |pieces|
  {
    if |pieces| == 1 {
    } else {
      hide Split, OccursAt, FirstFrom, IndexOf;
      LeftmostRest(pieces, sep);
      hide Leftmost;
      var rest := Join(pieces[1..], sep);
      SplitUnique(pieces[1..], sep);
      SplitAfterPiece(pieces[0], rest, sep);
      assert pieces == [pieces[0]] + pieces[1..];
    }
  }

  lemma LeftmostRest(pieces: seq<Text>, sep: Text)
    requires Leftmost(pieces, sep) && |pieces| > 1
    ensures Leftmost(pieces[1..], sep) && IndexOf(pieces[0] + sep, sep) == |pieces[0]|
  {
    hide IndexOf;
    var rest := pieces[1..];
    forall k | 0 <= k < |rest| - 1 ensures IndexOf(rest[k] + sep, sep) == |rest[k]| {
      assert rest[k] == pieces[k + 1];
    }
  }

  /** A piece that its separator ends is split off first. */
  lemma SplitAfterPiece(piece: Text, rest: Text, sep: Text)
    requires sep != [] && IndexOf(piece + sep, sep) == |piece|
    ensures Split(piece + sep + rest, sep) == [piece] + Split(rest, sep)
  {
    hide OccursAt, FirstFrom, IndexOf;
    var head := piece + sep;
    IndexOfExtends(head, rest, sep);
    var t := head + rest;
    SplitFirst(t, sep);
    assert t[..|piece|] == piece;
    assert t[|head|..] == rest;
  }

  /** The pieces completed so far never change; more text only continues the last one. */
  lemma {:induction false} SplitAppend(a: Text, b: Text, sep: Text)
    requires sep != []
    ensures Split(a + b, sep) == Front(Split(a, sep)) + Split(Last(Split(a, sep)) + b, sep)
    decreases |a|
  {
    hide OccursAt, FirstFrom, IndexOf;
    var i := IndexOf(a, sep);
    if i == -1 {
      assert Front(Split(a, sep)) == [] && Last(Split(a, sep)) == a;
    } else {
      SplitFirst(a, sep);
      IndexOfExtends(a, b, sep);
      SplitFirst(a + b, sep);
      var rest := a[i + |sep|..];
      SplitAppend(rest, b, sep);
      assert (a + b)[i + |sep|..] == rest + b && (a + b)[..i] == a[..i];
      hide Split;
      assert Front(Split(a, sep)) == [a[..i]] + Front(Split(rest, sep));
      assert Split(a + b, sep) == [a[..i]] + Front(Split(rest, sep)) + Split(Last(Split(rest, sep)) + b, sep);
    }
  }

  lemma SplitFirst(t: Text, sep: Text)
    requires sep != [] && IndexOf(t, sep) != -1
    ensures 0 <= IndexOf(t, sep) && IndexOf(t, sep) + |sep| <= |t|
    ensures Split(t, sep) == [t[..IndexOf(t, sep)]] + Split(t[IndexOf(t, sep) + |sep|..], sep)
  {
  }

  lemma SplitNone(t: Text, sep: Text)
    requires sep != [] && IndexOf(t, sep) == -1
    ensures Split(t, sep) == [t]
  {
  }

  lemma Associative<T>(x: seq<T>, y: seq<T>, z: seq<T>)
    ensures x + (y + z) == (x + y) + z
  {
  }

  lemma ConcatFirst<T>(a: seq<seq<T>>)
    requires a != []
    ensures Concat(a) == a[0] + Concat(a[1..])
  {
  }

  lemma {:induction false} ConcatAppend<T>(a: seq<seq<T>>, b: seq<seq<T>>)
    ensures Concat(a + b) == Concat(a) + Concat(b)
  {
    if a == [] {
      assert a + b == b;
    } else {
      hide *;
      ConcatAppend(a[1..], b);
      ConcatPrepend(a, b);
      ConcatFirst(a);
      Associative(a[0], Concat(a[1..]), Concat(b));
    }
  }

  lemma ConcatPrepend<T>(a: seq<seq<T>>, b: seq<seq<T>>)
    requires a != []
    ensures Concat(a + b) == a[0] + Concat(a[1..] + b)
  {
    hide *;
    ConcatFirst(a + b);
    assert (a + b)[1..] == a[1..] + b;
  }

  lemma ConcatSnoc<T>(a: seq<seq<T>>, x: seq<T>)
    ensures Concat(a + [x]) == Concat(a) + x
  {
    ConcatAppend(a, [x]);
    assert Concat([x]) == x + Concat([x][1..]);
  }
}
