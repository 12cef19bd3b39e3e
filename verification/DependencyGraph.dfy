/**
 * The graph theory behind the three dependency engines: a finite map from a node to the set of its
 * direct dependencies.  Self edges are allowed and count as cycles.
 */
module DependencyGraph {
  import opened JsText
  import opened SortedTexts

  type Graph = g: map<Text, set<Text>> | Closed(g)

  ghost predicate Closed(g: map<Text, set<Text>>) {
    forall n :: n in g ==> g[n] <= g.Keys
  }

  /** `p` follows dependency edges, from dependent to dependency. */
  ghost predicate Walk(g: Graph, p: seq<Text>) {
    && p != []
    && (forall i :: 0 <= i < |p| ==> p[i] in g)
    && (forall i :: 0 <= i < |p| - 1 ==> p[i + 1] in g[p[i]])
  }

  ghost predicate ClosedWalk(g: Graph, p: seq<Text>) {
    |p| >= 2 && Walk(g, p) && p[0] == p[|p| - 1]
  }

  ghost predicate Acyclic(g: Graph) {
    forall p :: !ClosedWalk(g, p)
  }

  /** A walk whose last node already occurs at `i`: a path into a cycle. */
  ghost predicate Lasso(g: Graph, p: seq<Text>, i: nat) {
    Walk(g, p) && i < |p| - 1 && p[i] == p[|p| - 1]
  }

  /** `n` lies on a cycle or transitively depends on one. */
  ghost predicate ReachesCycle(g: Graph, n: Text) {
    exists p, i :: Lasso(g, p, i) && p[0] == n
  }

  ghost function CycleSet(g: Graph): set<Text> {
    set n | n in g && ReachesCycle(g, n)
  }

  /** A dependency chain of `k` edges starts at `n`. */
  ghost predicate HasChain(g: Graph, n: Text, k: nat)
    decreases k
  {
    n in g && (k == 0 || exists d :: d in g[n] && HasChain(g, d, k - 1))
  }

  /** The longest dependency chain from `n` has `k` edges. */
  ghost predicate LongestChain(g: Graph, n: Text, k: nat) {
    HasChain(g, n, k) && forall m: nat :: m > k ==> !HasChain(g, n, m)
  }

  /** A duplicate-free list in which everything a member depends on stands before it. */
  ghost predicate TopoPrefix(g: Graph, o: seq<Text>) {
    && NoDup(o)
    && (forall i :: 0 <= i < |o| ==> o[i] in g && g[o[i]] <= Elements(o[..i]))
  }

  ghost predicate TopoOrder(g: Graph, o: seq<Text>) {
    TopoPrefix(g, o) && Elements(o) == g.Keys
  }

  /** Nodes not yet listed whose dependencies are all listed. */
  ghost predicate Available(g: Graph, listed: set<Text>, n: Text) {
    n in g && n !in listed && g[n] <= listed
  }

  /** `a` comes before `b` when compared element by element. */
  ghost predicate Precedes(a: seq<Text>, b: seq<Text>) {
    exists k :: 0 <= k < |a| && k < |b| && a[..k] == b[..k] && Less(a[k], b[k])
  }

  ghost predicate LeastTopoOrder(g: Graph, o: seq<Text>) {
    TopoOrder(g, o) && forall t :: TopoOrder(g, t) && t != o ==> Precedes(o, t)
  }

  /** Each element is the smallest one available at its turn. */
  ghost predicate Greedy(g: Graph, o: seq<Text>) {
    forall i, n :: 0 <= i < |o| && Available(g, Elements(o[..i]), n) ==> Leq(o[i], n)
  }

  // ---- chains and walks ----

  lemma {:induction false} WalkOfChain(g: Graph, n: Text, k: nat) returns (p: seq<Text>)
    requires HasChain(g, n, k)
    ensures Walk(g, p) && p[0] == n && |p| == k + 1
    decreases k
  {
    if k == 0 {
      p := [n];
    } else {
      var d :| d in g[n] && HasChain(g, d, k - 1);
      var q := WalkOfChain(g, d, k - 1);
      p := [n] + q;
    }
  }

  lemma {:induction false} ChainShorter(g: Graph, n: Text, j: nat, k: nat)
    requires HasChain(g, n, k) && j <= k
    ensures HasChain(g, n, j)
    decreases k
  {
    if j == 0 {
    } else {
      var d :| d in g[n] && HasChain(g, d, k - 1);
      ChainShorter(g, d, j - 1, k - 1);
    }
  }

  /** Going around the cycle gives chains of every length. */
  lemma {:induction false} LassoChains(g: Graph, p: seq<Text>, i: nat, j: nat, k: nat)
    requires Lasso(g, p, i) && j < |p| - 1
    ensures HasChain(g, p[j], k)
    decreases k
  {
    if k == 0 {
    } else {
      var next := if j + 1 == |p| - 1 then i else j + 1;
      LassoChains(g, p, i, next, k - 1);
      assert p[j + 1] in g[p[j]];
      assert HasChain(g, p[j + 1], k - 1);
    }
  }

  lemma {:induction false} Pigeonhole(s: seq<Text>, universe: set<Text>)
    requires Elements(s) <= universe && |s| > |universe|
    ensures !NoDup(s)
    decreases |s|
  {
    var last := s[|s| - 1];
    var rest := s[..|s| - 1];
    assert last in Elements(s);
    if last !in rest {
      assert Elements(rest) <= universe - {last} by {
        forall x | x in Elements(rest) ensures x in universe - {last} {
          assert x in Elements(s);
        }
      }
      Pigeonhole(rest, universe - {last});
      var i, j :| 0 <= i < j < |rest| && rest[i] == rest[j];
      assert s[i] == s[j];
    } else {
      var i :| 0 <= i < |rest| && rest[i] == last;
      assert s[i] == s[|s| - 1];
    }
  }

  /** A chain with more edges than there are nodes runs into a cycle. */
  lemma LongChainReachesCycle(g: Graph, n: Text)
    requires HasChain(g, n, |g|)
    ensures ReachesCycle(g, n)
  {
    var p := WalkOfChain(g, n, |g|);
    assert Elements(p) <= g.Keys;
    assert |g.Keys| == |g|;
    Pigeonhole(p, g.Keys);
    var i, j :| 0 <= i < j < |p| && p[i] == p[j];
    var q := p[..j + 1];
    assert Walk(g, q) by {
      forall m | 0 <= m < |q| - 1 ensures q[m + 1] in g[q[m]] { assert p[m + 1] in g[p[m]]; }
    }
    assert Lasso(g, q, i) && q[0] == n;
  }

  lemma ReachesCycleChains(g: Graph, n: Text, k: nat)
    requires ReachesCycle(g, n)
    ensures HasChain(g, n, k)
  {
    var p, i :| Lasso(g, p, i) && p[0] == n;
    LassoChains(g, p, i, 0, k);
  }

  /** If every member of `s` depends on a member of `s`, all of them reach a cycle. */
  lemma TrappedReachesCycle(g: Graph, s: set<Text>, n: Text)
    requires s <= g.Keys && n in s
    requires forall m :: m in s ==> g[m] * s != {}
    ensures ReachesCycle(g, n)
  {
    TrappedChains(g, s, n, |g|);
    LongChainReachesCycle(g, n);
  }

  lemma {:induction false} TrappedChains(g: Graph, s: set<Text>, n: Text, k: nat)
    requires s <= g.Keys && n in s
    requires forall m :: m in s ==> g[m] * s != {}
    ensures HasChain(g, n, k)
    decreases k
  {
    if k == 0 {
    } else {
      var d :| d in g[n] * s;
      TrappedChains(g, s, d, k - 1);
    }
  }

  lemma AcyclicIffNoneReaches(g: Graph)
    ensures Acyclic(g) <==> forall n :: n in g ==> !ReachesCycle(g, n)
  {
    if !Acyclic(g) {
      var p :| ClosedWalk(g, p);
      assert Lasso(g, p, 0);
      assert ReachesCycle(g, p[0]);
    }
    forall n | n in g && ReachesCycle(g, n) ensures !Acyclic(g) {
      var p, i :| Lasso(g, p, i) && p[0] == n;
      LassoClosedWalk(g, p, i);
    }
  }

  lemma LassoClosedWalk(g: Graph, p: seq<Text>, i: nat)
    requires Lasso(g, p, i)
    ensures ClosedWalk(g, p[i..])
  {
    var q := p[i..];
    forall m | 0 <= m < |q| - 1 ensures q[m + 1] in g[q[m]] { assert p[i + m + 1] in g[p[i + m]]; }
  }

  // ---- topological orders ----

  lemma PositionBefore(g: Graph, o: seq<Text>, i: nat, d: Text) returns (j: nat)
    requires TopoPrefix(g, o) && i < |o| && d in g[o[i]]
    ensures j < i && o[j] == d
  {
    assert d in Elements(o[..i]);
    j :| 0 <= j < i && o[..i][j] == d;
  }

  /** No member of a topological prefix reaches a cycle: its chains are shorter than its position. */
  lemma {:induction false} TopoPrefixChains(g: Graph, o: seq<Text>, i: nat)
    requires TopoPrefix(g, o) && i < |o|
    ensures !HasChain(g, o[i], i + 1)
    decreases i
  {
    if !HasChain(g, o[i], i + 1) {
    } else {
      var d :| d in g[o[i]] && HasChain(g, d, i);
      var j := PositionBefore(g, o, i, d);
      ChainShorter(g, d, j + 1, i);
      TopoPrefixChains(g, o, j);
    }
  }

  lemma TopoPrefixNoCycle(g: Graph, o: seq<Text>, n: Text)
    requires TopoPrefix(g, o) && n in o
    ensures !ReachesCycle(g, n)
  {
    var i :| 0 <= i < |o| && o[i] == n;
    TopoPrefixChains(g, o, i);
    if ReachesCycle(g, n) { ReachesCycleChains(g, n, i + 1); }
  }

  /** A topological order is a certificate of acyclicity. */
  lemma TopoOrderAcyclic(g: Graph, o: seq<Text>)
    requires TopoOrder(g, o)
    ensures Acyclic(g)
  {
    forall n | n in g ensures !ReachesCycle(g, n) {
      assert n in Elements(o);
      TopoPrefixNoCycle(g, o, n);
    }
    AcyclicIffNoneReaches(g);
  }

  /** A topological prefix to which nothing can be added leaves out exactly the nodes that reach a cycle. */
  lemma MaximalPrefixLeavesCycles(g: Graph, o: seq<Text>, n: Text)
    requires TopoPrefix(g, o) && n in g
    requires forall m :: !Available(g, Elements(o), m)
    ensures n !in o <==> ReachesCycle(g, n)
  {
    var rest := g.Keys - Elements(o);
    forall m | m in rest ensures g[m] * rest != {} {
      assert !Available(g, Elements(o), m);
      var d :| d in g[m] && d !in Elements(o);
      assert d in g[m] * rest;
    }
    if n !in o {
      TrappedReachesCycle(g, rest, n);
    } else {
      TopoPrefixNoCycle(g, o, n);
    }
  }

  // ---- the least topological order ----

  lemma SameElementCount(a: seq<Text>, b: seq<Text>)
    requires NoDup(a) && NoDup(b) && Elements(a) == Elements(b)
    ensures |a| == |b|
  {
    ElementCount(a);
    ElementCount(b);
  }

  lemma {:induction false} ElementCount(a: seq<Text>)
    requires NoDup(a)
    ensures |Elements(a)| == |a|
  {
    if a == [] {
    } else {
      ElementCount(a[1..]);
      assert a == [a[0]] + a[1..];
      assert Elements(a) == {a[0]} + Elements(a[1..]);
      assert a[0] !in a[1..];
    }
  }

  /** Always taking the smallest available node yields the least of all topological orders. */
  lemma GreedyIsLeast(g: Graph, o: seq<Text>)
    requires TopoOrder(g, o) && Greedy(g, o)
    ensures LeastTopoOrder(g, o)
  {
    forall t | TopoOrder(g, t) && t != o ensures Precedes(o, t) {
      SameElementCount(o, t);
      var k := FirstDifference(o, t, 0);
      forall j | 0 <= j < k ensures o[..k][j] != t[k] {
        assert t[..k][j] == t[j];
      }
      assert Available(g, Elements(o[..k]), t[k]) by {
        assert t[k] in g && g[t[k]] <= Elements(t[..k]);
      }
      LessTrichotomy(o[k], t[k]);
    }
  }

  lemma {:induction false} FirstDifference(a: seq<Text>, b: seq<Text>, from: nat) returns (k: nat)
    requires |a| == |b| && a != b && from <= |a| && a[..from] == b[..from]
    ensures k < |a| && a[..k] == b[..k] && a[k] != b[k]
    decreases |a| - from
  {
    assert a == a[..|a|] && b == b[..|a|];
    if a[from] != b[from] {
      k := from;
    } else {
      assert a[..from + 1] == a[..from] + [a[from]];
      assert b[..from + 1] == b[..from] + [b[from]];
      k := FirstDifference(a, b, from + 1);
    }
  }

  lemma PrecedesAsymmetric(a: seq<Text>, b: seq<Text>)
    requires Precedes(a, b)
    ensures !Precedes(b, a)
  {
    var j :| 0 <= j < |a| && j < |b| && a[..j] == b[..j] && Less(a[j], b[j]);
    forall k | 0 <= k < |b| && k < |a| && b[..k] == a[..k] ensures !Less(b[k], a[k]) {
      if k < j {
        assert a[..j][k] == b[..j][k];
        LessTrichotomy(a[k], b[k]);
      } else {
        LessTrichotomy(a[j], b[j]);
      }
    }
  }

  /** There is at most one least topological order. */
  lemma LeastUnique(g: Graph, a: seq<Text>, b: seq<Text>)
    requires LeastTopoOrder(g, a) && LeastTopoOrder(g, b)
    ensures a == b
  {
    if a != b {
      PrecedesAsymmetric(a, b);
    }
  }

  // ---- layers ----

  /** Any numbering that puts dependencies strictly lower. */
  ghost predicate Layering(g: Graph, rank: map<Text, nat>) {
    rank.Keys == g.Keys && forall n, d :: n in g && d in g[n] ==> rank[d] < rank[n]
  }

  /** A chain of `k` edges forces every valid layering up to layer `k` at least. */
  lemma {:induction false} ChainForcesRank(g: Graph, rank: map<Text, nat>, n: Text, k: nat)
    requires Layering(g, rank) && HasChain(g, n, k)
    ensures rank[n] >= k
    decreases k
  {
    if k == 0 {
    } else {
      var d :| d in g[n] && HasChain(g, d, k - 1);
      ChainForcesRank(g, rank, d, k - 1);
    }
  }
}
