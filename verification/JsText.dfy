/** JavaScript strings as sequences of UTF-16 code units, in the order `Array.prototype.sort` uses. */
module JsText {
  type CodeUnit = x: int | 0 <= x < 0x1_0000

  type Text = seq<CodeUnit>

  const CR: CodeUnit := 13
  const LF: CodeUnit := 10

  predicate Less(a: Text, b: Text) {
    && b != []
    && (a == [] || a[0] < b[0] || (a[0] == b[0] && Less(a[1..], b[1..])))
  }

  predicate Leq(a: Text, b: Text) {
    a == b || Less(a, b)
  }

  lemma {:induction false} LessTrichotomy(a: Text, b: Text)
    ensures Less(a, b) || a == b || Less(b, a)
    ensures !(Less(a, b) && Less(b, a))
    ensures a == b ==> !Less(a, b)
  {
    if a == [] || b == [] {
    } else {
      LessTrichotomy(a[1..], b[1..]);
      assert a == [a[0]] + a[1..] && b == [b[0]] + b[1..];
    }
  }

  lemma {:induction false} LessTransitive(a: Text, b: Text, c: Text)
    requires Less(a, b) && Less(b, c)
    ensures Less(a, c)
  {
    if a == [] || a[0] < b[0] || b[0] < c[0] {
    } else {
      LessTransitive(a[1..], b[1..], c[1..]);
    }
  }

  lemma LeqTransitive(a: Text, b: Text, c: Text)
    requires Leq(a, b) && Leq(b, c)
    ensures Leq(a, c)
  {
    if a != b && b != c {
      LessTransitive(a, b, c);
    }
  }

  predicate StartsWith(t: Text, prefix: Text) {
    |prefix| <= |t| && t[..|prefix|] == prefix
  }

  /** White space and line terminators, as `trim` and `\\s` understand them. */
  predicate IsSpace(c: CodeUnit) {
    c in {9, 10, 11, 12, 13, 32, 160, 0x1680, 0x2028, 0x2029, 0x202F, 0x205F, 0x3000, 0xFEFF} || 0x2000 <= c <= 0x200A
  }

  function TrimStart(t: Text): (r: Text)
    ensures |r| <= |t|
  {
    if t != [] && IsSpace(t[0]) then TrimStart(t[1..]) else t
  }

  function TrimEnd(t: Text): (r: Text)
    ensures |r| <= |t|
  {
    if t != [] && IsSpace(t[|t| - 1]) then TrimEnd(t[..|t| - 1]) else t
  }
}

/** Sorted arrays of strings: the results of the `.sort()` calls. */
module SortedTexts {
  import opened JsText

  ghost predicate Sorted(s: seq<Text>) {
    forall i, j :: 0 <= i < j < |s| ==> Leq(s[i], s[j])
  }

  ghost predicate NoDup<T>(s: seq<T>) {
    forall i, j :: 0 <= i < j < |s| ==> s[i] != s[j]
  }

  function Elements<T(==)>(s: seq<T>): set<T> {
    set x | x in s
  }

  /** `r` is the ascending, duplicate-free listing of `s`. */
  ghost predicate ListingOf(r: seq<Text>, s: set<Text>) {
    Sorted(r) && NoDup(r) && Elements(r) == s
  }

  /** Where `x` belongs in the sorted `s`: everything before is smaller or equal, nothing after is smaller. */
  function InsertionPoint(x: Text, s: seq<Text>): (k: nat)
    requires Sorted(s)
    ensures k <= |s|
    ensures forall i :: 0 <= i < k ==> Leq(s[i], x)
    ensures forall i :: k <= i < |s| ==> Leq(x, s[i])
  {
    if s == [] then 0
    else if Leq(x, s[|s| - 1]) && !Leq(s[|s| - 1], x) then
      assert forall i :: 0 <= i < |s| - 1 ==> s[..|s| - 1][i] == s[i];
      InsertionPoint(x, s[..|s| - 1])
    else
      LessTrichotomy(x, s[|s| - 1]);
      assert forall i :: 0 <= i < |s| ==> Leq(s[i], x) by {
        forall i | 0 <= i < |s| ensures Leq(s[i], x) {
          if i < |s| - 1 { LeqTransitive(s[i], s[|s| - 1], x); }
        }
      }
      |s|
  }

  function Insert(x: Text, s: seq<Text>): (r: seq<Text>)
    requires Sorted(s)
    ensures Sorted(r)
    ensures multiset(r) == multiset(s) + multiset{x}
  {
    var k := InsertionPoint(x, s);
    InsertedMultiset(x, s, k);
    InsertedSorted(x, s, k);
    s[..k] + [x] + s[k..]
  }

  lemma InsertedMultiset(x: Text, s: seq<Text>, k: nat)
    requires k <= |s|
    ensures multiset(s[..k] + [x] + s[k..]) == multiset(s) + multiset{x}
  {
    assert s == s[..k] + s[k..];
  }

  lemma InsertedSorted(x: Text, s: seq<Text>, k: nat)
    requires Sorted(s) && k <= |s|
    requires forall i :: 0 <= i < k ==> Leq(s[i], x)
    requires forall i :: k <= i < |s| ==> Leq(x, s[i])
    ensures Sorted(s[..k] + [x] + s[k..])
  {
    hide Leq;
    var r: seq<Text> := s[..k] + [x] + s[k..];
    forall i, j | 0 <= i < j < |r| ensures Leq(r[i], r[j]) {
      assert r[i] == if i < k then s[i] else if i == k then x else s[i - 1];
      assert r[j] == if j < k then s[j] else if j == k then x else s[j - 1];
    }
  }

  /** `.sort()`. */
  function Sort(s: seq<Text>): (r: seq<Text>)
    ensures Sorted(r)
    ensures multiset(r) == multiset(s)
  {
    if s == [] then []
    else
      assert s == [s[0]] + s[1..];
      Insert(s[0], Sort(s[1..]))
  }

  /** Rearranging keeps the elements, the length and freedom from duplicates. */
  lemma SameElements<T>(a: seq<T>, b: seq<T>)
    requires multiset(a) == multiset(b)
    ensures Elements(a) == Elements(b) && |a| == |b|
    ensures NoDup(a) ==> NoDup(b)
  {
    forall x ensures x in a <==> x in b {
      assert x in multiset(a) <==> x in multiset(b);
    }
    assert |multiset(a)| == |a|;
    if NoDup(a) {
      forall i, j | 0 <= i < j < |b| ensures b[i] != b[j] {
        if b[i] == b[j] {
          assert b == b[..i] + [b[i]] + b[i + 1..j] + [b[j]] + b[j + 1..];
          assert multiset(a)[b[i]] >= 2;
          CountedOnce(a, b[i]);
          assert false;
        }
      }
    }
  }

  lemma CountedOnce<T>(a: seq<T>, x: T)
    requires NoDup(a)
    ensures multiset(a)[x] <= 1
  {
    if x in a {
      var i :| 0 <= i < |a| && a[i] == x;
      assert a == a[..i] + [x] + a[i + 1..];
      assert x !in a[..i] && x !in a[i + 1..];
    }
  }

  /** Inserting a new element extends a sorted listing by that element. */
  lemma InsertListing(x: Text, s: seq<Text>)
    requires Sorted(s) && NoDup(s) && x !in s
    ensures ListingOf(Insert(x, s), Elements(s) + {x})
  {
    SameElements(s + [x], Insert(x, s));
    assert Elements(s + [x]) == Elements(s) + {x};
  }

  lemma RemoveAt<T>(s: seq<T>, i: nat)
    requires i < |s|
    ensures multiset(s[..i] + s[i + 1..]) == multiset(s) - multiset{s[i]}
  {
    assert s == s[..i] + [s[i]] + s[i + 1..];
  }

  lemma SmallestFirst(a: seq<Text>, b: seq<Text>)
    requires Sorted(a) && Sorted(b) && multiset(a) == multiset(b) && a != []
    ensures b != [] && a[0] == b[0]
  {
    SameElements(a, b);
    assert a[0] in Elements(a) && b[0] in Elements(b);
    assert Leq(a[0], b[0]) && Leq(b[0], a[0]);
    LessTrichotomy(a[0], b[0]);
  }

  lemma TailMultiset<T>(s: seq<T>)
    requires s != []
    ensures multiset(s[1..]) == multiset(s) - multiset{s[0]}
  {
    RemoveAt(s, 0);
    assert s[..0] + s[1..] == s[1..];
  }

  /** Sorting leaves no choice. */
  lemma {:induction false} SortedUnique(a: seq<Text>, b: seq<Text>)
    requires Sorted(a) && Sorted(b) && multiset(a) == multiset(b)
    ensures a == b
    decreases |a|
  {
    if a == [] {
      assert |multiset(b)| == 0;
    } else {
      hide Leq;
      SmallestFirst(a, b);
      TailMultiset(a);
      TailMultiset(b);
      assert Sorted(a[1..]) && Sorted(b[1..]);
      hide Sorted;
      SortedUnique(a[1..], b[1..]);
      assert a == [a[0]] + a[1..] && b == [b[0]] + b[1..];
    }
  }

  /** `[...set].sort()`: the set is enumerated in some order and sorted. */
  method SortSet(s: set<Text>) returns (r: seq<Text>)
    ensures ListingOf(r, s)
  {
    r := [];
    var left := s;
    while left != {}
      invariant left <= s
      invariant ListingOf(r, s - left)
      decreases left
    {
      var x :| x in left;
      assert x !in Elements(r);
      InsertListing(x, r);
      r := Insert(x, r);
      left := left - {x};
    }
  }
}
