/** The dashboard's layering: repeatedly peel off the packages without open dependencies. */
module BuildLayers {
  import opened JsText
  import opened SortedTexts
  import opened DependencyGraph

  datatype GraphPkg = GraphPkg(name: Text, internalDeps: seq<Text>)

  datatype Outcome = Layers(layers: seq<seq<Text>>) | Cycle(remaining: set<Text>)

  function Names(packages: seq<GraphPkg>): set<Text> {
    set p | p in packages :: p.name
  }

  /** `new Map(packages.map(...))`, each package mapped to its dependencies within `named`. */
  function DepTable(packages: seq<GraphPkg>, named: set<Text>): (m: map<Text, set<Text>>)
    ensures m.Keys == Names(packages)
    ensures forall n :: n in m ==> m[n] <= named
  {
    if packages == [] then map[]
    else
      var last := packages[|packages| - 1];
      assert packages == packages[..|packages| - 1] + [last];
      DepTable(packages[..|packages| - 1], named)[last.name := set d | d in last.internalDeps && d in named]
  }

  /** Unlike the publish graph, this one keeps a package's dependency on itself. */
  ghost function LayerGraph(packages: seq<GraphPkg>): Graph {
    DepTable(packages, Names(packages))
  }

  /** The nodes without a chain of `k` edges: everything peeled off by the first `k` rounds. */
  ghost function Peeled(g: Graph, k: nat): set<Text> {
    set n | n in g && !HasChain(g, n, k)
  }

  ghost function LongestSet(g: Graph, k: nat): set<Text> {
    set n | n in g && LongestChain(g, n, k)
  }

  /** Layer `i` lists, in ascending order, the nodes whose longest dependency chain has `i` edges. */
  ghost predicate LayersOf(g: Graph, layers: seq<seq<Text>>) {
    forall i :: 0 <= i < |layers| ==> layers[i] != [] && ListingOf(layers[i], LongestSet(g, i))
  }

  ghost function Residual(g: Graph, done: set<Text>): map<Text, set<Text>> {
    map n | n in g && n !in done :: g[n] - done
  }

  lemma {:induction false} PeelStep(g: Graph, k: nat, n: Text)
    requires n in g
    ensures n in Peeled(g, k + 1) <==> g[n] <= Peeled(g, k)
  {
    if g[n] <= Peeled(g, k) {
      assert forall d :: d in g[n] ==> !HasChain(g, d, k);
    } else {
      var d :| d in g[n] && d !in Peeled(g, k);
      assert HasChain(g, d, k);
    }
  }

  lemma LongestIffPeeledNext(g: Graph, k: nat)
    ensures LongestSet(g, k) == Peeled(g, k + 1) - Peeled(g, k)
    ensures Peeled(g, k) <= Peeled(g, k + 1)
  {
    forall n | n in g
      ensures LongestChain(g, n, k) <==> HasChain(g, n, k) && !HasChain(g, n, k + 1)
      ensures HasChain(g, n, k + 1) ==> HasChain(g, n, k)
    {
      forall m: nat | m > k && HasChain(g, n, m) ensures HasChain(g, n, k + 1) {
        ChainShorter(g, n, k + 1, m);
      }
      if HasChain(g, n, k + 1) { ChainShorter(g, n, k, k + 1); }
    }
  }

  lemma EmptyDifference(a: set<Text>, b: set<Text>)
    ensures a - b == {} <==> a <= b
  {
    if a - b == {} {
      forall x | x in a ensures x in b { assert x !in a - b; }
    }
  }

  /** The entries with no open dependency are the nodes whose longest chain has `k` edges. */
  lemma ReadyIsLongest(g: Graph, k: nat)
    ensures (set n | n in Residual(g, Peeled(g, k)) && Residual(g, Peeled(g, k))[n] == {}) == LongestSet(g, k)
  {
    LongestIffPeeledNext(g, k);
    var done := Peeled(g, k);
    forall n | n in g ensures n in LongestSet(g, k) <==> n !in done && g[n] - done == {} {
      PeelStep(g, k, n);
      EmptyDifference(g[n], done);
    }
  }

  lemma ResidualStep(g: Graph, done: set<Text>, more: set<Text>)
    ensures (map n | n in Residual(g, done) && n !in more :: Residual(g, done)[n] - more) == Residual(g, done + more)
  {
    var a, b := (map n | n in Residual(g, done) && n !in more :: Residual(g, done)[n] - more), Residual(g, done + more);
    assert a.Keys == b.Keys;
    forall n | n in a ensures a[n] == b[n] {
      assert g[n] - done - more == g[n] - (done + more);
    }
  }

  /** When nothing is ready, what remains is exactly what reaches a cycle. */
  lemma StuckIsCycleSet(g: Graph, k: nat)
    requires LongestSet(g, k) == {}
    ensures g.Keys - Peeled(g, k) == CycleSet(g)
  {
    hide HasChain, LongestChain, ReachesCycle;
    var rest := g.Keys - Peeled(g, k);
    forall m | m in rest ensures g[m] * rest != {} {
      StuckHasOpenDependency(g, k, m);
    }
    forall n | n in g ensures n in rest <==> ReachesCycle(g, n) {
      if n in rest { TrappedReachesCycle(g, rest, n); }
      if ReachesCycle(g, n) { ReachesCycleChains(g, n, k); }
    }
  }

  lemma StuckHasOpenDependency(g: Graph, k: nat, m: Text)
    requires LongestSet(g, k) == {} && m in g && m !in Peeled(g, k)
    ensures g[m] * (g.Keys - Peeled(g, k)) != {}
  {
    hide HasChain, LongestChain;
    LongestIffPeeledNext(g, k);
    assert m !in LongestSet(g, k);
    PeelStep(g, k, m);
    hide Peeled;
    var d :| d in g[m] && d !in Peeled(g, k);
    assert d in g[m] * (g.Keys - Peeled(g, k));
  }

  lemma AllPeeledAcyclic(g: Graph, k: nat)
    requires Peeled(g, k) == g.Keys
    ensures Acyclic(g)
  {
    forall n | n in g ensures !ReachesCycle(g, n) {
      assert n in Peeled(g, k);
      if ReachesCycle(g, n) { ReachesCycleChains(g, n, k); }
    }
    AcyclicIffNoneReaches(g);
  }

  lemma CycleSetCyclic(g: Graph, n: Text)
    requires n in CycleSet(g)
    ensures !Acyclic(g)
  {
    AcyclicIffNoneReaches(g);
  }

  // ---- what the edges and layers are, in terms of the packages ----

  /** A package of that name lists the dependency, and so does every package of that name. */
  ghost predicate ListedBy(packages: seq<GraphPkg>, name: Text, dep: Text) {
    && (exists p :: p in packages && p.name == name)
    && (forall p :: p in packages && p.name == name ==> dep in p.internalDeps)
  }

  ghost predicate ListedBySome(packages: seq<GraphPkg>, name: Text, dep: Text) {
    exists p :: p in packages && p.name == name && dep in p.internalDeps
  }

  ghost predicate Named(packages: seq<GraphPkg>, name: Text) {
    exists p :: p in packages && p.name == name
  }

  lemma {:induction false} TableEntries(packages: seq<GraphPkg>, named: set<Text>, name: Text, dep: Text)
    ensures name in DepTable(packages, named) && dep in DepTable(packages, named)[name] ==>
      ListedBySome(packages, name, dep) && dep in named
    ensures ListedBy(packages, name, dep) && dep in named ==>
      name in DepTable(packages, named) && dep in DepTable(packages, named)[name]
    decreases |packages|
  {
    if packages == [] {
    } else {
      var last, front := packages[|packages| - 1], packages[..|packages| - 1];
      assert packages == front + [last];
      assert forall p :: p in packages <==> p in front || p == last;
      TableEntries(front, named, name, dep);
      if last.name != name {
        assert ListedBy(packages, name, dep) ==> ListedBy(front, name, dep);
        assert ListedBySome(front, name, dep) ==> ListedBySome(packages, name, dep);
      }
    }
  }

  /** An edge is a listed dependency on a package of the workspace; with one package of the name, and only then. */
  lemma LayerEdges(packages: seq<GraphPkg>, name: Text, dep: Text)
    requires name in LayerGraph(packages)
    ensures dep in LayerGraph(packages)[name] ==> ListedBySome(packages, name, dep) && Named(packages, dep)
    ensures ListedBy(packages, name, dep) && Named(packages, dep) ==> dep in LayerGraph(packages)[name]
  {
    TableEntries(packages, Names(packages), name, dep);
    assert dep in Names(packages) <==> Named(packages, dep);
  }

  /** Whatever a package lists and the workspace has stands in a lower layer. */
  ghost predicate DependenciesLower(packages: seq<GraphPkg>, layers: seq<seq<Text>>) {
    forall name, dep, i, j ::
      (&& ListedBy(packages, name, dep) && Named(packages, dep)
       && 0 <= i < |layers| && name in layers[i] && 0 <= j < |layers| && dep in layers[j])
      ==> j < i
  }

  lemma LayersPutDependenciesLower(packages: seq<GraphPkg>, layers: seq<seq<Text>>)
    requires LayersOf(LayerGraph(packages), layers)
    ensures DependenciesLower(packages, layers)
  {
    hide LayerGraph, ListedBy, ListedBySome, Named, LongestChain;
    var g := LayerGraph(packages);
    forall name, dep, i, j | ListedBy(packages, name, dep) && Named(packages, dep)
      && 0 <= i < |layers| && name in layers[i] && 0 <= j < |layers| && dep in layers[j]
      ensures j < i
    {
      assert name in Elements(layers[i]) && dep in Elements(layers[j]);
      LayerEdges(packages, name, dep);
      DependencyLower(g, name, dep, i, j);
    }
  }

  /** Layers, with everything covered, exactly when the graph is acyclic; otherwise the nodes that reach a cycle. */
  method TopoLayers(packages: seq<GraphPkg>) returns (r: Outcome)
    ensures r.Layers? <==> Acyclic(LayerGraph(packages))
    ensures r.Layers? ==> LayersOf(LayerGraph(packages), r.layers)
    ensures r.Layers? ==> DependenciesLower(packages, r.layers)
    ensures r.Layers? ==> forall n :: n in LayerGraph(packages) ==> exists i :: 0 <= i < |r.layers| && n in r.layers[i]
    ensures r.Cycle? ==> r.remaining == CycleSet(LayerGraph(packages))
  {
    hide LayersOf, ListingOf, Residual, Peeled, LongestSet, DependenciesLower;
    ghost var g := LayerGraph(packages);
    var remaining := DepTable(packages, Names(packages));
    var layers: seq<seq<Text>> := [];
    NothingPeeled(g);
    while remaining != map[]
      invariant remaining == Residual(g, Peeled(g, |layers|))
      invariant LayersOf(g, layers)
      decreases remaining.Keys
    {
      var ready := SortSet(set n | n in remaining && remaining[n] == {});
      ReadyIsLongest(g, |layers|);
      if ready == [] {
        EmptyReady(g, |layers|);
        ResidualKeys(g, |layers|);
        var n :| n in remaining;
        CycleSetCyclic(g, n);
        return Cycle(remaining.Keys);
      }
      RoundDone(g, layers, ready);
      layers := layers + [ready];
      remaining := map n | n in remaining && n !in Elements(ready) :: remaining[n] - Elements(ready);
    }
    ResidualKeys(g, |layers|);
    AllPeeledAcyclic(g, |layers|);
    EveryNodeLayered(g, layers);
    LayersPutDependenciesLower(packages, layers);
    r := Layers(layers);
  }

  lemma NothingPeeled(g: Graph)
    ensures Residual(g, Peeled(g, 0)) == g && LayersOf(g, [])
  {
    assert Peeled(g, 0) == {};
    assert forall n :: n in g ==> g[n] - {} == g[n];
  }

  lemma EmptyReady(g: Graph, k: nat)
    requires ListingOf([], LongestSet(g, k))
    ensures g.Keys - Peeled(g, k) == CycleSet(g)
  {
    StuckIsCycleSet(g, k);
  }

  lemma ResidualKeys(g: Graph, k: nat)
    ensures Residual(g, Peeled(g, k)).Keys == g.Keys - Peeled(g, k)
    ensures Residual(g, Peeled(g, k)) == map[] ==> Peeled(g, k) == g.Keys
  {
    if Residual(g, Peeled(g, k)) == map[] { assert Residual(g, Peeled(g, k)).Keys == {}; }
  }

  lemma RoundDone(g: Graph, layers: seq<seq<Text>>, ready: seq<Text>)
    requires LayersOf(g, layers) && ready != [] && ListingOf(ready, LongestSet(g, |layers|))
    ensures LayersOf(g, layers + [ready])
    ensures Elements(ready) == LongestSet(g, |layers|) == Peeled(g, |layers| + 1) - Peeled(g, |layers|)
    ensures var remaining := Residual(g, Peeled(g, |layers|));
      (map n | n in remaining && n !in Elements(ready) :: remaining[n] - Elements(ready))
        == Residual(g, Peeled(g, |layers| + 1))
    ensures exists n :: n in Elements(ready) && n in Residual(g, Peeled(g, |layers|))
  {
    var k := |layers|;
    LongestIffPeeledNext(g, k);
    ResidualStep(g, Peeled(g, k), Elements(ready));
    assert Peeled(g, k) + LongestSet(g, k) == Peeled(g, k + 1);
    assert ready[0] in Elements(ready);
  }

  lemma LongestExists(g: Graph, n: Text, k: nat) returns (i: nat)
    requires n in g && !HasChain(g, n, k)
    ensures i < k && LongestChain(g, n, i)
  {
    i := 0;
    while HasChain(g, n, i + 1)
      invariant i < k && HasChain(g, n, i)
      decreases k - i
    {
      i := i + 1;
    }
    forall m: nat | m > i && HasChain(g, n, m) ensures false {
      ChainShorter(g, n, i + 1, m);
    }
  }

  lemma EveryNodeLayered(g: Graph, layers: seq<seq<Text>>)
    requires LayersOf(g, layers) && Peeled(g, |layers|) == g.Keys
    ensures forall n :: n in g ==> exists i :: 0 <= i < |layers| && n in layers[i]
  {
    forall n | n in g ensures exists i :: 0 <= i < |layers| && n in layers[i] {
      assert n in Peeled(g, |layers|);
      var i := LongestExists(g, n, |layers|);
      assert n in LongestSet(g, i) && n in Elements(layers[i]);
    }
  }

  /** Every dependency sits in a strictly lower layer. */
  lemma DependencyLower(g: Graph, n: Text, d: Text, i: nat, j: nat)
    requires n in g && d in g[n] && LongestChain(g, n, i) && LongestChain(g, d, j)
    ensures j < i
  {
    assert HasChain(g, n, j + 1);
  }

  /** No valid layering needs fewer layers: each one numbers some node at least as high as our last layer. */
  lemma LayersAreFewest(g: Graph, layers: seq<seq<Text>>, rank: map<Text, nat>, m: nat)
    requires LayersOf(g, layers) && Layering(g, rank) && forall n :: n in g ==> rank[n] < m
    ensures |layers| <= m
  {
    if layers != [] {
      var top := |layers| - 1;
      var n := layers[top][0];
      assert n in Elements(layers[top]);
      ChainForcesRank(g, rank, n, top);
    }
  }
}
