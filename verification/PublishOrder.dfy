/** The order in which packages are published: Kahn's algorithm with an always sorted ready queue. */
module PublishOrder {
  import opened JsText
  import opened SortedTexts
  import opened DependencyGraph

  /** The parts of package.json that matter here; each block lists the names it depends on. */
  datatype Manifest = Manifest(
    name: Text,
    dependencies: seq<Text>,
    peerDependencies: seq<Text>,
    optionalDependencies: seq<Text>)

  datatype Package = Package(dirName: Text, manifest: Manifest)

  datatype Outcome = Order(order: seq<Text>) | Cycle(unresolved: seq<Text>)

  /** "@agents-js/" */
  const SCOPE_PREFIX: Text := [64, 97, 103, 101, 110, 116, 115, 45, 106, 115, 47]

  function Scoped(names: seq<Text>): (r: seq<Text>)
    ensures forall x :: x in r <==> x in names && StartsWith(x, SCOPE_PREFIX)
  {
    if names == [] then []
    else (if StartsWith(names[0], SCOPE_PREFIX) then [names[0]] else []) + Scoped(names[1..])
  }

  function InternalDependencyBlocks(m: Manifest): seq<Text> {
    Scoped(m.dependencies) + Scoped(m.peerDependencies) + Scoped(m.optionalDependencies)
  }

  function DirNames(packages: seq<Package>): (r: seq<Text>) {
    seq(|packages|, i requires 0 <= i < |packages| => packages[i].dirName)
  }

  /** `new Map(packages.map(...))`: a later package with the same manifest name wins. */
  function NameToDirName(packages: seq<Package>): (m: map<Text, Text>)
    ensures m.Values <= Elements(DirNames(packages))
  {
    if packages == [] then map[]
    else
      var n := |packages| - 1;
      assert DirNames(packages) == DirNames(packages[..n]) + [packages[n].dirName];
      var m := NameToDirName(packages[..n]);
      var m' := m[packages[n].manifest.name := packages[n].dirName];
      assert m'.Values <= m.Values + {packages[n].dirName};
      m'
  }

  /** A dependency entry of the package in `dir` that becomes an edge. */
  predicate Counts(names: map<Text, Text>, dir: Text, dep: Text) {
    dep in names && names[dep] != [] && names[dep] != dir
  }

  ghost function Targets(names: map<Text, Text>, dir: Text, deps: seq<Text>): set<Text> {
    set dep | dep in deps && Counts(names, dir, dep) :: names[dep]
  }

  ghost function EdgesFrom(packages: seq<Package>, names: map<Text, Text>, dir: Text): set<Text> {
    set p, dep | p in packages && p.dirName == dir && dep in InternalDependencyBlocks(p.manifest)
      && Counts(names, dir, dep)
      :: names[dep]
  }

  /** Directory `d` depends on directory `e` iff a package in `d` names a scoped package that lives in `e`. */
  ghost function PublishGraph(packages: seq<Package>): (g: Graph)
    ensures g.Keys == Elements(DirNames(packages))
    ensures forall d :: d in g ==> g[d] == EdgesFrom(packages, NameToDirName(packages), d)
    ensures forall d :: d in g ==> d !in g[d]
  {
    var names := NameToDirName(packages);
    var g := map d | d in Elements(DirNames(packages)) :: EdgesFrom(packages, names, d);
    assert forall dep :: dep in names ==> names[dep] in names.Values;
    g
  }

  ghost function AvailableSet(g: Graph, listed: set<Text>): set<Text> {
    set n | n in g && Available(g, listed, n)
  }

  /** `dependents` is the reverse of `edges`. */
  ghost predicate Reversed(dependents: map<Text, set<Text>>, edges: map<Text, set<Text>>) {
    && dependents.Keys == edges.Keys
    && forall d, p :: d in edges && p in edges ==> (p in dependents[d] <==> d in edges[p])
  }

  /** Every key of `indegree` counts its edges. */
  ghost predicate Counted(indegree: map<Text, int>, edges: map<Text, set<Text>>) {
    indegree.Keys == edges.Keys && forall p :: p in edges ==> indegree[p] == |edges[p]|
  }

  ghost predicate WithinKeys(m: map<Text, set<Text>>) {
    forall d :: d in m ==> m[d] <= m.Keys
  }

  ghost predicate EdgeTables(dependents: map<Text, set<Text>>, indegree: map<Text, int>, edges: map<Text, set<Text>>) {
    && dependents.Keys == edges.Keys == indegree.Keys
    && Reversed(dependents, edges) && Counted(indegree, edges) && WithinKeys(dependents) && WithinKeys(edges)
  }

  lemma AddReversed(dependents: map<Text, set<Text>>, edges: map<Text, set<Text>>, p: Text, d: Text)
    requires Reversed(dependents, edges) && p in edges && d in edges
    ensures Reversed(dependents[d := dependents[d] + {p}], edges[p := edges[p] + {d}])
  {
  }

  lemma AddCounted(indegree: map<Text, int>, edges: map<Text, set<Text>>, p: Text, d: Text)
    requires Counted(indegree, edges) && p in edges && d !in edges[p]
    ensures Counted(indegree[p := indegree[p] + 1], edges[p := edges[p] + {d}])
  {
  }

  lemma AddWithin(m: map<Text, set<Text>>, p: Text, d: Text)
    requires WithinKeys(m) && p in m && d in m
    ensures WithinKeys(m[p := m[p] + {d}])
  {
    var m' := m[p := m[p] + {d}];
    assert m'.Keys == m.Keys;
    forall q | q in m' ensures m'[q] <= m'.Keys {
      if q != p { assert m'[q] == m[q]; }
    }
  }

  /** Recording the edge from `p` to `d` once, in both tables; a known edge changes neither. */
  lemma AddEdge(dependents: map<Text, set<Text>>, indegree: map<Text, int>, edges: map<Text, set<Text>>, p: Text,
        d: Text)
    requires EdgeTables(dependents, indegree, edges) && p in edges && d in edges
    ensures p in dependents[d] ==> edges[p := edges[p] + {d}] == edges
    ensures p !in dependents[d] ==>
      EdgeTables(dependents[d := dependents[d] + {p}], indegree[p := indegree[p] + 1], edges[p := edges[p] + {d}])
  {
    hide Counted, WithinKeys;
    assert p in dependents[d] <==> d in edges[p];
    if p in dependents[d] {
      assert edges[p] + {d} == edges[p];
    } else {
      hide Reversed;
      AddReversed(dependents, edges, p, d);
      AddCounted(indegree, edges, p, d);
      AddWithin(edges, p, d);
      AddWithin(dependents, d, p);
    }
  }

  ghost function WithTargets(edges: map<Text, set<Text>>, names: map<Text, Text>, dir: Text,
        deps: seq<Text>): map<Text, set<Text>>
    requires dir in edges
  {
    edges[dir := edges[dir] + Targets(names, dir, deps)]
  }

  /** The entries of one package: each new edge is stored once and counted once. */
  method AddPackageEdges(names: map<Text, Text>, pkg: Package,
                         dependents0: map<Text, set<Text>>, indegree0: map<Text, int>, ghost edges0: map<Text,
                           set<Text>>)
    returns (dependents: map<Text, set<Text>>, indegree: map<Text, int>)
    requires EdgeTables(dependents0, indegree0, edges0)
    requires pkg.dirName in edges0 && names.Values <= edges0.Keys
    ensures EdgeTables(dependents, indegree, WithTargets(edges0, names, pkg.dirName,
      InternalDependencyBlocks(pkg.manifest)))
  {
    hide Reversed, Counted, WithinKeys;
    dependents, indegree := dependents0, indegree0;
    var dir := pkg.dirName;
    var deps := InternalDependencyBlocks(pkg.manifest);
    assert WithTargets(edges0, names, dir, deps[..0]) == edges0 by {
      assert edges0[dir] + Targets(names, dir, deps[..0]) == edges0[dir];
    }
    for k := 0 to |deps|
      invariant EdgeTables(dependents, indegree, WithTargets(edges0, names, dir, deps[..k]))
    {
      ghost var edges := WithTargets(edges0, names, dir, deps[..k]);
      WithTargetsStep(edges0, names, dir, deps, k);
      if Counts(names, dir, deps[k]) {
        var dependency := names[deps[k]];
        assert dependency in names.Values;
        AddEdge(dependents, indegree, edges, dir, dependency);
        if dir !in dependents[dependency] {
          dependents := dependents[dependency := dependents[dependency] + {dir}];
          indegree := indegree[dir := indegree[dir] + 1];
        }
      }
    }
    assert deps[..|deps|] == deps;
  }

  lemma WithTargetsStep(edges0: map<Text, set<Text>>, names: map<Text, Text>, dir: Text, deps: seq<Text>, k: nat)
    requires dir in edges0 && k < |deps|
    ensures var edges := WithTargets(edges0, names, dir, deps[..k]);
      WithTargets(edges0, names, dir, deps[..k + 1])
        == if Counts(names, dir, deps[k]) then edges[dir := edges[dir] + {names[deps[k]]}] else edges
  {
    TargetsStep(names, dir, deps, k);
    hide Targets;
    var t := Targets(names, dir, deps[..k]);
    if Counts(names, dir, deps[k]) {
      assert edges0[dir] + (t + {names[deps[k]]}) == edges0[dir] + t + {names[deps[k]]};
    } else {
      assert t + {} == t;
    }
  }

  lemma TargetsStep(names: map<Text, Text>, dir: Text, deps: seq<Text>, k: nat)
    requires k < |deps|
    ensures Targets(names, dir, deps[..k + 1])
         == Targets(names, dir, deps[..k]) + (if Counts(names, dir, deps[k]) then {names[deps[k]]} else {})
  {
    assert deps[..k + 1] == deps[..k] + [deps[k]];
  }

  lemma EdgesFromStep(packages: seq<Package>, names: map<Text, Text>, k: nat, dir: Text)
    requires k < |packages|
    ensures EdgesFrom(packages[..k + 1], names, dir)
         == EdgesFrom(packages[..k], names, dir)
          + (if packages[k].dirName == dir
             then Targets(names, dir, InternalDependencyBlocks(packages[k].manifest)) else {})
  {
    var p := packages[k];
    assert packages[..k + 1] == packages[..k] + [p];
    var a, b := EdgesFrom(packages[..k + 1], names, dir), EdgesFrom(packages[..k], names, dir);
    forall e | e in a ensures e in b || (p.dirName == dir
      && e in Targets(names, dir, InternalDependencyBlocks(p.manifest))) {
      var q, dep :| q in packages[..k + 1] && q.dirName == dir && dep in InternalDependencyBlocks(q.manifest)
        && Counts(names, dir, dep) && names[dep] == e;
    }
  }

  /** The edges contributed by the first `k` packages. */
  ghost function GraphUpTo(packages: seq<Package>, names: map<Text, Text>, k: nat): map<Text, set<Text>>
    requires k <= |packages|
  {
    map d | d in Elements(DirNames(packages)) :: EdgesFrom(packages[..k], names, d)
  }

  lemma GraphUpToStep(packages: seq<Package>, names: map<Text, Text>, k: nat)
    requires k < |packages|
    ensures packages[k].dirName in GraphUpTo(packages, names, k)
    ensures GraphUpTo(packages, names, k + 1) == WithTargets(GraphUpTo(packages, names, k), names,
      packages[k].dirName, InternalDependencyBlocks(packages[k].manifest))
  {
    var dir := packages[k].dirName;
    assert DirNames(packages)[k] == dir;
    var before, after := GraphUpTo(packages, names, k), GraphUpTo(packages, names, k + 1);
    assert dir in Elements(DirNames(packages));
    forall d | d in after
      ensures after[d] == WithTargets(before, names, dir, InternalDependencyBlocks(packages[k].manifest))[d]
    {
      EdgesFromStep(packages, names, k, d);
    }
    assert after == WithTargets(before, names, dir, InternalDependencyBlocks(packages[k].manifest));
  }

  lemma EmptyTables(packages: seq<Package>, names: map<Text, Text>, dependents: map<Text, set<Text>>,
        indegree: map<Text, int>)
    requires dependents == map d | d in DirNames(packages) :: {}
    requires indegree == map d | d in DirNames(packages) :: 0
    ensures EdgeTables(dependents, indegree, GraphUpTo(packages, names, 0))
  {
    var edges := GraphUpTo(packages, names, 0);
    assert forall d :: d in edges ==> edges[d] == {};
    assert edges.Keys == dependents.Keys == indegree.Keys;
  }

  /** Both tables, filled from all packages. */
  method BuildEdgeTables(packages: seq<Package>) returns (dependents: map<Text, set<Text>>, indegree: map<Text, int>)
    ensures EdgeTables(dependents, indegree, PublishGraph(packages))
  {
    hide EdgeTables, WithTargets;
    var names := NameToDirName(packages);
    var dirs := DirNames(packages);
    dependents := map d | d in dirs :: {};
    indegree := map d | d in dirs :: 0;
    EmptyTables(packages, names, dependents, indegree);
    for k := 0 to |packages|
      invariant EdgeTables(dependents, indegree, GraphUpTo(packages, names, k))
    {
      GraphUpToStep(packages, names, k);
      dependents, indegree := AddPackageEdges(names, packages[k], dependents, indegree, GraphUpTo(packages, names, k));
    }
    assert packages[..|packages|] == packages;
    assert GraphUpTo(packages, names, |packages|) == PublishGraph(packages);
  }

  /** `ready.push(x); ready.sort()` keeps the queue sorted. */
  lemma PushSort(ready: seq<Text>, x: Text)
    requires NoDup(ready) && x !in ready
    ensures ListingOf(Sort(ready + [x]), Elements(ready) + {x})
  {
    SameElements(ready + [x], Sort(ready + [x]));
    assert Elements(ready + [x]) == Elements(ready) + {x};
  }

  /** In-degrees count the dependencies outside `done`; for the nodes in `seen`, outside `done + {d}`. */
  ghost predicate Degrees(g: Graph, done: set<Text>, d: Text, seen: set<Text>, indegree: map<Text, int>) {
    && indegree.Keys == g.Keys
    && forall n :: n in g ==> indegree[n] == if n in seen then |g[n] - done - {d}| else |g[n] - done|
  }

  /** The members of `seen` whose last open dependency was `d`. */
  ghost function Freed(g: Graph, done: set<Text>, d: Text, seen: set<Text>): set<Text> {
    set n | n in seen && n in g && g[n] <= done + {d}
  }

  /** The state at the head of the queue loop. */
  ghost predicate QueueState(g: Graph, done: set<Text>, ready: seq<Text>, indegree: map<Text, int>) {
    && indegree.Keys == g.Keys
    && (forall n :: n in g ==> indegree[n] == |g[n] - done|)
    && ListingOf(ready, AvailableSet(g, done))
  }

  lemma DegreesStep(g: Graph, done: set<Text>, d: Text, seen: set<Text>, n: Text, indegree: map<Text, int>)
    requires Degrees(g, done, d, seen, indegree)
    requires d !in done && n in g && d in g[n] && n !in seen
    ensures n in indegree
    ensures Degrees(g, done, d, seen + {n}, indegree[n := indegree[n] - 1])
    ensures indegree[n] - 1 == 0 <==> g[n] <= done + {d}
  {
    OneLess(g[n], done, d);
    assert g.Keys == indegree[n := indegree[n] - 1].Keys;
  }

  lemma OneLess(deps: set<Text>, done: set<Text>, d: Text)
    requires d in deps && d !in done
    ensures |deps - done| == |deps - done - {d}| + 1
    ensures |deps - done - {d}| == 0 <==> deps <= done + {d}
  {
    assert deps - done == (deps - done - {d}) + {d};
    assert deps - done - {d} == {} <==> deps <= done + {d};
  }

  lemma QueueStep(g: Graph, done: set<Text>, d: Text, seen: set<Text>, n: Text, ready: seq<Text>)
    requires ListingOf(ready, AvailableSet(g, done) - {d} + Freed(g, done, d, seen))
    requires d !in done && n in g && d in g[n] && n !in seen
    ensures g[n] <= done + {d} ==> ListingOf(Sort(ready + [n]), AvailableSet(g, done) - {d}
      + Freed(g, done, d, seen + {n}))
    ensures !(g[n] <= done + {d}) ==> Freed(g, done, d, seen + {n}) == Freed(g, done, d, seen)
  {
    hide Sorted;
    if g[n] <= done + {d} {
      var queue := AvailableSet(g, done) - {d} + Freed(g, done, d, seen);
      assert Elements(ready) == queue && n !in queue;
      assert n !in ready;
      PushSort(ready, n);
      assert queue + {n} == AvailableSet(g, done) - {d} + Freed(g, done, d, seen + {n});
    }
  }

  /** Emitting `d` decrements its dependents and queues those whose last open dependency it was. */
  method Release(ghost g: Graph, dependents: map<Text, set<Text>>, ghost order: seq<Text>, d: Text,
                 ready0: seq<Text>, indegree0: map<Text, int>)
    returns (ready: seq<Text>, indegree: map<Text, int>)
    requires TopoPrefix(g, order) && Available(g, Elements(order), d) && d !in g[d]
    requires dependents.Keys == g.Keys && dependents[d] == set p | p in g && d in g[p]
    requires Degrees(g, Elements(order), d, {}, indegree0)
    requires ListingOf(ready0, AvailableSet(g, Elements(order)) - {d})
    ensures QueueState(g, Elements(order) + {d}, ready, indegree)
  {
    hide Sorted, TopoPrefix, AvailableSet, Freed, Degrees, QueueState;
    ready, indegree := ready0, indegree0;
    ghost var done := Elements(order);
    var downstream := SortSet(dependents[d]);
    hide ListingOf;
    assert Elements(downstream[..0]) == {};
    NothingFreed(g, done, d);
    for k := 0 to |downstream|
      invariant Degrees(g, done, d, Elements(downstream[..k]), indegree)
      invariant ListingOf(ready, AvailableSet(g, done) - {d} + Freed(g, done, d, Elements(downstream[..k])))
    {
      var n := downstream[k];
      NextDependent(g, d, downstream, k);
      DegreesStep(g, done, d, Elements(downstream[..k]), n, indegree);
      QueueStep(g, done, d, Elements(downstream[..k]), n, ready);
      hide Elements;
      var nextDegree := indegree[n] - 1;
      indegree := indegree[n := nextDegree];
      if nextDegree == 0 {
        ready := Sort(ready + [n]);
      }
    }
    assert downstream[..|downstream|] == downstream;
    ListingElements(downstream, set p | p in g && d in g[p]);
    ReleaseDone(g, order, d, ready, indegree);
  }

  lemma ListingElements(r: seq<Text>, s: set<Text>)
    requires ListingOf(r, s)
    ensures Elements(r) == s
  {
  }

  lemma NothingFreed(g: Graph, done: set<Text>, d: Text)
    ensures AvailableSet(g, done) - {d} + Freed(g, done, d, {}) == AvailableSet(g, done) - {d}
  {
  }

  lemma NextDependent(g: Graph, d: Text, downstream: seq<Text>, k: nat)
    requires ListingOf(downstream, set p | p in g && d in g[p]) && k < |downstream|
    ensures downstream[k] in g && d in g[downstream[k]] && downstream[k] !in Elements(downstream[..k])
    ensures Elements(downstream[..k + 1]) == Elements(downstream[..k]) + {downstream[k]}
  {
    assert downstream[k] in Elements(downstream);
    assert downstream[..k + 1] == downstream[..k] + [downstream[k]];
  }

  /** Nothing that depends on `d` was emitted before `d`. */
  lemma DependentsOpen(g: Graph, order: seq<Text>, d: Text)
    requires TopoPrefix(g, order) && d !in order
    ensures forall n :: n in g && d in g[n] ==> n !in Elements(order)
  {
    forall i | 0 <= i < |order| ensures d !in g[order[i]] {
      assert g[order[i]] <= Elements(order[..i]);
    }
  }

  lemma ReleasedDegrees(g: Graph, done: set<Text>, d: Text, indegree: map<Text, int>)
    requires Degrees(g, done, d, (set p | p in g && d in g[p]), indegree)
    ensures indegree.Keys == g.Keys && forall n :: n in g ==> indegree[n] == |g[n] - (done + {d})|
  {
    forall n | n in g ensures indegree[n] == |g[n] - (done + {d})| {
      assert g[n] - (done + {d}) == if d in g[n] then g[n] - done - {d} else g[n] - done;
    }
  }

  lemma ReleasedQueue(g: Graph, done: set<Text>, d: Text)
    requires Available(g, done, d) && d !in g[d]
    requires forall n :: n in g && d in g[n] ==> n !in done
    ensures AvailableSet(g, done) - {d} + Freed(g, done, d, set p | p in g && d in g[p]) == AvailableSet(g, done + {d})
  {
    forall n | n in g ensures n in AvailableSet(g, done + {d}) <==>
      n != d && (n in AvailableSet(g, done) || n in Freed(g, done, d, set p | p in g && d in g[p]))
    {
      assert g[n] <= done <==> g[n] <= done + {d} && d !in g[n];
    }
  }

  lemma ReleaseDone(g: Graph, order: seq<Text>, d: Text, ready: seq<Text>, indegree: map<Text, int>)
    requires TopoPrefix(g, order) && Available(g, Elements(order), d) && d !in g[d]
    requires Degrees(g, Elements(order), d, (set p | p in g && d in g[p]), indegree)
    requires ListingOf(ready, AvailableSet(g, Elements(order)) - {d}
      + Freed(g, Elements(order), d, set p | p in g && d in g[p]))
    ensures QueueState(g, Elements(order) + {d}, ready, indegree)
  {
    hide ListingOf, TopoPrefix, Degrees, AvailableSet, Freed, Elements;
    assert d !in order by { NotElement(order, d); }
    DependentsOpen(g, order, d);
    ReleasedDegrees(g, Elements(order), d, indegree);
    ReleasedQueue(g, Elements(order), d);
  }

  lemma NotElement(order: seq<Text>, d: Text)
    requires d !in Elements(order)
    ensures d !in order
  {
  }

  lemma EmitKeepsPrefix(g: Graph, order: seq<Text>, d: Text)
    requires TopoPrefix(g, order) && Greedy(g, order) && Available(g, Elements(order), d)
    requires forall n :: Available(g, Elements(order), n) ==> Leq(d, n)
    ensures TopoPrefix(g, order + [d]) && Greedy(g, order + [d])
    ensures Elements(order + [d]) == Elements(order) + {d}
  {
    var o := order + [d];
    assert d !in order;
    forall i | 0 <= i < |o| ensures o[i] in g && g[o[i]] <= Elements(o[..i]) {
      assert o[..i] == order[..i];
      if i == |order| { assert order[..i] == order; }
    }
    forall i, n | 0 <= i < |o| && Available(g, Elements(o[..i]), n) ensures Leq(o[i], n) {
      assert o[..i] == order[..i];
      if i == |order| { assert order[..i] == order; }
    }
  }

  lemma RootsAvailable(g: Graph, indegree: map<Text, int>)
    requires Counted(indegree, g)
    ensures (set d | d in indegree && indegree[d] == 0) == AvailableSet(g, {})
  {
    forall d ensures d in indegree && indegree[d] == 0 <==> d in AvailableSet(g, {}) {
      if d in g { assert |g[d]| == 0 <==> g[d] == {}; }
    }
  }

  lemma InitialQueue(g: Graph, indegree: map<Text, int>, ready: seq<Text>)
    requires Counted(indegree, g)
    requires ListingOf(ready, set d | d in indegree && indegree[d] == 0)
    ensures QueueState(g, {}, ready, indegree)
  {
    hide ListingOf;
    forall n | n in g ensures indegree[n] == |g[n] - {}| {
      assert g[n] - {} == g[n];
    }
    RootsAvailable(g, indegree);
  }

  /** What taking the head of the queue means for the graph. */
  lemma HeadIsLeastAvailable(g: Graph, done: set<Text>, ready: seq<Text>, indegree: map<Text, int>)
    requires QueueState(g, done, ready, indegree) && ready != []
    ensures Available(g, done, ready[0])
    ensures forall n :: Available(g, done, n) ==> Leq(ready[0], n)
    ensures Degrees(g, done, ready[0], {}, indegree)
    ensures ListingOf(ready[1..], AvailableSet(g, done) - {ready[0]})
  {
    assert ready[0] in Elements(ready);
    forall n | Available(g, done, n) ensures Leq(ready[0], n) {
      assert n in Elements(ready);
    }
    ShiftListing(ready);
  }

  /**
   * What the queue loop emits: the smallest available name at every turn, until no name is available or the empty
   * one is, which is never emitted.
   */
  ghost predicate Drained(g: Graph, order: seq<Text>) {
    && TopoPrefix(g, order) && Greedy(g, order) && [] !in order
    && (Available(g, Elements(order), []) || forall n :: !Available(g, Elements(order), n))
  }

  /** The queue loop; it stops early only at an empty directory name. */
  method DrainReady(ghost g: Graph, dependents: map<Text, set<Text>>, indegree0: map<Text, int>)
    returns (order: seq<Text>)
    requires EdgeTables(dependents, indegree0, g)
    requires forall d :: d in g ==> d !in g[d]
    ensures Drained(g, order)
  {
    hide ListingOf, TopoPrefix, Greedy, QueueState, Reversed, WithinKeys, AvailableSet, Counted, Available;
    var indegree := indegree0;
    var ready := SortSet(set d | d in indegree && indegree[d] == 0);
    order := [];
    InitialQueue(g, indegree, ready);
    EmptyPrefix(g);
    while ready != []
      invariant TopoPrefix(g, order) && Greedy(g, order) && [] !in order
      invariant QueueState(g, Elements(order), ready, indegree)
      decreases g.Keys - Elements(order)
    {
      var d := ready[0];
      HeadIsLeastAvailable(g, Elements(order), ready, indegree);
      if d == [] { break; }
      EmitKeepsPrefix(g, order, d);
      DependentsOf(g, dependents, d);
      ready, indegree := Release(g, dependents, order, d, ready[1..], indegree);
      order := order + [d];
    }
    if ready == [] { EmptyQueue(g, Elements(order), indegree); }
  }

  /** Of two greedy lists the shorter one begins the longer one. */
  lemma {:induction false} GreedyAgree(g: Graph, a: seq<Text>, b: seq<Text>, k: nat)
    requires TopoPrefix(g, a) && TopoPrefix(g, b) && Greedy(g, a) && Greedy(g, b)
    requires k <= |a| && k <= |b|
    ensures a[..k] == b[..k]
  {
    if k == 0 {
    } else {
      GreedyAgree(g, a, b, k - 1);
      NextIsAvailable(g, a, k - 1);
      NextIsAvailable(g, b, k - 1);
      LessTrichotomy(a[k - 1], b[k - 1]);
      assert a[..k] == a[..k - 1] + [a[k - 1]] && b[..k] == b[..k - 1] + [b[k - 1]];
    }
  }

  lemma NextIsAvailable(g: Graph, o: seq<Text>, i: nat)
    requires TopoPrefix(g, o) && i < |o|
    ensures Available(g, Elements(o[..i]), o[i])
  {
  }

  /** The graph determines what is emitted. */
  lemma DrainedUnique(g: Graph, a: seq<Text>, b: seq<Text>)
    requires Drained(g, a) && Drained(g, b)
    ensures a == b
  {
    if |a| < |b| {
      DrainedNotShorter(g, a, b);
    } else if |b| < |a| {
      DrainedNotShorter(g, b, a);
    } else {
      GreedyAgree(g, a, b, |a|);
      assert a[..|a|] == a && b[..|a|] == b;
    }
  }

  lemma DrainedNotShorter(g: Graph, a: seq<Text>, b: seq<Text>)
    requires Drained(g, a) && Drained(g, b)
    ensures |a| >= |b|
  {
    var k := |a|;
    if k < |b| {
      GreedyAgree(g, a, b, k);
      assert a[..k] == a;
      NextIsAvailable(g, b, k);
    }
  }

  lemma EmptyPrefix(g: Graph)
    ensures TopoPrefix(g, []) && Greedy(g, []) && Elements<Text>([]) == {}
  {
  }

  lemma EmptyQueue(g: Graph, done: set<Text>, indegree: map<Text, int>)
    requires QueueState(g, done, [], indegree)
    ensures forall n :: !Available(g, done, n)
  {
    forall n ensures !Available(g, done, n) {
      assert n !in AvailableSet(g, done);
    }
  }

  lemma DependentsOf(g: Graph, dependents: map<Text, set<Text>>, d: Text)
    requires Reversed(dependents, g) && WithinKeys(dependents) && d in g
    ensures dependents.Keys == g.Keys
    ensures dependents[d] == set p | p in g && d in g[p]
  {
  }

  lemma ShiftListing(ready: seq<Text>)
    requires ready != [] && Sorted(ready) && NoDup(ready)
    ensures ListingOf(ready[1..], Elements(ready) - {ready[0]})
  {
    assert ready == [ready[0]] + ready[1..];
    assert ready[0] !in ready[1..];
  }

  function Missing(dirs: seq<Text>, order: seq<Text>): (r: seq<Text>)
    ensures forall x :: x in r <==> x in dirs && x !in order
    ensures NoDup(dirs) ==> NoDup(r)
  {
    if dirs == [] then []
    else
      assert NoDup(dirs) ==> NoDup(dirs[1..]) && dirs[0] !in dirs[1..];
      (if dirs[0] in order then [] else [dirs[0]]) + Missing(dirs[1..], order)
  }

  /**
   * Succeeds exactly on an acyclic graph over distinct, non-empty directory names, with the least topological
   * order; otherwise reports, sorted, the directories that were not emitted.  Without an empty name these are
   * exactly the ones on or above a cycle.
   */
  method ComputePublishOrder(packages: seq<Package>) returns (r: Outcome)
    ensures r.Order? <==> NoDup(DirNames(packages)) && [] !in DirNames(packages) && Acyclic(PublishGraph(packages))
    ensures r.Order? ==> LeastTopoOrder(PublishGraph(packages), r.order)
    ensures r.Order? ==> DependenciesFirst(packages, r.order)
    ensures r.Cycle? ==> Sorted(r.unresolved) && CycleSet(PublishGraph(packages)) <= Elements(r.unresolved)
    ensures r.Cycle? ==> exists o :: Drained(PublishGraph(packages), o) && LeftOver(DirNames(packages), o, r.unresolved)
    ensures r.Cycle? && [] !in DirNames(packages) ==> Elements(r.unresolved) == CycleSet(PublishGraph(packages))
  {
    hide *;
    var dirs := DirNames(packages);
    SameLength(packages);
    var dependents, indegree := BuildEdgeTables(packages);
    var order := DrainReady(PublishGraph(packages), dependents, indegree);
    OrderIff(PublishGraph(packages), dirs, order);
    if |order| != |packages| {
      var missing := Missing(dirs, order);
      r := Cycle(Sort(missing));
      UnresolvedIs(PublishGraph(packages), dirs, order);
    } else {
      r := Order(order);
      LeastIsOrder(PublishGraph(packages), order);
      OrderPutsDependenciesFirst(packages, order);
    }
  }

  lemma SameLength(packages: seq<Package>)
    ensures |DirNames(packages)| == |packages|
  {
  }

  // ---- what the edges are, in terms of the manifests ----

  /** A manifest lists the name in one of the three blocks. */
  predicate Lists(m: Manifest, name: Text) {
    name in m.dependencies || name in m.peerDependencies || name in m.optionalDependencies
  }

  /** Every package of that manifest name lives in `dir`, and there is one. */
  ghost predicate OnlyHome(packages: seq<Package>, name: Text, dir: Text) {
    && (exists q :: q in packages && q.manifest.name == name)
    && (forall q :: q in packages && q.manifest.name == name ==> q.dirName == dir)
  }

  /** A package in `d` lists a scoped name under which a package in the other directory `e` is known. */
  ghost predicate Entry(packages: seq<Package>, d: Text, e: Text, name: Text) {
    && d != e && e != [] && StartsWith(name, SCOPE_PREFIX)
    && (exists p :: p in packages && p.dirName == d && Lists(p.manifest, name))
    && (exists q :: q in packages && q.dirName == e && q.manifest.name == name)
  }

  lemma {:induction false} NameIsKnown(packages: seq<Package>, name: Text)
    ensures name in NameToDirName(packages) <==> exists q :: q in packages && q.manifest.name == name
    ensures name in NameToDirName(packages) ==>
      exists q :: q in packages && q.manifest.name == name && q.dirName == NameToDirName(packages)[name]
  {
    if packages == [] {
    } else {
      var n := |packages| - 1;
      var front := packages[..n];
      assert packages == front + [packages[n]];
      NameIsKnown(front, name);
      assert packages[n] in packages;
      assert forall q :: q in packages <==> q in front || q == packages[n];
    }
  }

  lemma EntriesListed(m: Manifest, name: Text)
    ensures name in InternalDependencyBlocks(m) <==> Lists(m, name) && StartsWith(name, SCOPE_PREFIX)
  {
  }

  /** Every edge of the graph comes from an entry. */
  lemma EdgeHasEntry(packages: seq<Package>, d: Text, e: Text)
    requires d in PublishGraph(packages) && e in PublishGraph(packages)[d]
    ensures exists name :: Entry(packages, d, e, name)
  {
    var names := NameToDirName(packages);
    var p, dep :| p in packages && p.dirName == d && dep in InternalDependencyBlocks(p.manifest)
      && Counts(names, d, dep) && names[dep] == e;
    EntriesListed(p.manifest, dep);
    hide InternalDependencyBlocks, PublishGraph;
    NameIsKnown(packages, dep);
    hide NameToDirName;
    assert Entry(packages, d, e, dep);
  }

  /** An entry under an unambiguous name is an edge. */
  lemma EntryIsEdge(packages: seq<Package>, d: Text, e: Text, name: Text)
    requires Entry(packages, d, e, name) && OnlyHome(packages, name, e)
    ensures d in PublishGraph(packages) && e in PublishGraph(packages)[d]
  {
    var names := NameToDirName(packages);
    NameIsKnown(packages, name);
    var p :| p in packages && p.dirName == d && Lists(p.manifest, name);
    EntriesListed(p.manifest, name);
    hide InternalDependencyBlocks, NameToDirName, StartsWith;
    assert Counts(names, d, name);
    assert e in EdgesFrom(packages, names, d);
    var i :| 0 <= i < |packages| && packages[i] == p;
    assert DirNames(packages)[i] == d;
  }

  ghost predicate StandsBefore(order: seq<Text>, e: Text, d: Text) {
    exists i, j :: 0 <= i < j < |order| && order[i] == e && order[j] == d
  }

  /** Every directory an entry points to under an unambiguous name stands before the directory of the entry. */
  ghost predicate DependenciesFirst(packages: seq<Package>, order: seq<Text>) {
    forall d, e, name :: Entry(packages, d, e, name) && OnlyHome(packages, name, e) ==> StandsBefore(order, e, d)
  }

  lemma OrderPutsDependenciesFirst(packages: seq<Package>, order: seq<Text>)
    requires TopoOrder(PublishGraph(packages), order)
    ensures DependenciesFirst(packages, order)
  {
    hide PublishGraph, Entry, OnlyHome;
    var g := PublishGraph(packages);
    forall d, e, name | Entry(packages, d, e, name) && OnlyHome(packages, name, e) ensures StandsBefore(order, e, d) {
      EntryIsEdge(packages, d, e, name);
      assert d in Elements(order);
      var j :| 0 <= j < |order| && order[j] == d;
      var i := PositionBefore(g, order, j, e);
    }
  }

  lemma LeastIsOrder(g: Graph, order: seq<Text>)
    requires LeastTopoOrder(g, order)
    ensures TopoOrder(g, order)
  {
  }

  /**
   * The length test succeeds exactly on distinct, non-empty names and an acyclic graph, and then the order is the least
   * one.
   */
  lemma OrderIff(g: Graph, dirs: seq<Text>, order: seq<Text>)
    requires Drained(g, order) && g.Keys == Elements(dirs)
    ensures |order| == |dirs| <==> NoDup(dirs) && [] !in dirs && Acyclic(g)
    ensures |order| == |dirs| ==> LeastTopoOrder(g, order)
  {
    hide TopoPrefix, Greedy, LeastTopoOrder, Acyclic, CycleSet, Available;
    SizeDecides(g, dirs, order);
    if [] !in dirs {
      assert [] !in Elements(dirs);
      NothingAvailable(g, order);
      UnresolvedIsCycleSet(g, dirs, order);
    } else {
      assert [] in Elements(dirs) && [] !in Elements(order);
    }
    if TopoOrder(g, order) { GreedyIsLeast(g, order); }
  }

  /** What is reported when the test fails. */
  lemma UnresolvedIs(g: Graph, dirs: seq<Text>, order: seq<Text>)
    requires Drained(g, order) && g.Keys == Elements(dirs)
    ensures var u := Sort(Missing(dirs, order));
      && Sorted(u) && LeftOver(dirs, order, u) && CycleSet(g) <= Elements(u)
      && ([] !in dirs ==> Elements(u) == CycleSet(g))
  {
    hide TopoPrefix, Greedy, CycleSet, Available, LeftOver, Sorted;
    var missing := Missing(dirs, order);
    SameElements(missing, Sort(missing));
    CyclesAreMissing(g, dirs, order);
    MissingCounts(dirs, order);
    SameCounts(dirs, order, missing, Sort(missing));
    if [] !in dirs {
      assert [] !in Elements(dirs);
      NothingAvailable(g, order);
      UnresolvedIsCycleSet(g, dirs, order);
    }
  }

  /** `left` lists the members of `dirs` outside `order`, each as often as `dirs` does. */
  ghost predicate LeftOver(dirs: seq<Text>, order: seq<Text>, left: seq<Text>) {
    forall x :: multiset(left)[x] == if x in order then 0 else multiset(dirs)[x]
  }

  lemma {:induction false} MissingCounts(dirs: seq<Text>, order: seq<Text>)
    ensures LeftOver(dirs, order, Missing(dirs, order))
  {
    if dirs == [] {
    } else {
      MissingCounts(dirs[1..], order);
      assert dirs == [dirs[0]] + dirs[1..];
    }
  }

  lemma SameCounts(dirs: seq<Text>, order: seq<Text>, left: seq<Text>, sorted: seq<Text>)
    requires LeftOver(dirs, order, left) && multiset(left) == multiset(sorted)
    ensures LeftOver(dirs, order, sorted)
  {
  }

  lemma NothingAvailable(g: Graph, order: seq<Text>)
    requires Drained(g, order) && [] !in g
    ensures AvailableSet(g, Elements(order)) == {}
  {
  }

  /** The final length test succeeds iff the order covers the graph and no directory occurs twice. */
  lemma SizeDecides(g: Graph, dirs: seq<Text>, order: seq<Text>)
    requires TopoPrefix(g, order) && g.Keys == Elements(dirs)
    ensures |order| == |dirs| <==> NoDup(dirs) && Elements(order) == g.Keys
  {
    ElementCount(order);
    assert Elements(order) <= g.Keys;
    SubsetSize(Elements(order), g.Keys);
    DistinctIffFull(dirs);
  }

  lemma SubsetSize(a: set<Text>, b: set<Text>)
    requires a <= b
    ensures |a| <= |b| && (|a| == |b| <==> a == b)
  {
    assert b == a + (b - a);
    assert |b| == |a| + |b - a|;
    if |b - a| == 0 { assert b - a == {}; }
  }

  lemma {:induction false} DistinctIffFull(s: seq<Text>)
    ensures |Elements(s)| <= |s|
    ensures |Elements(s)| == |s| <==> NoDup(s)
  {
    if s != [] {
      DistinctIffFull(s[1..]);
      assert s == [s[0]] + s[1..];
      assert Elements(s) == {s[0]} + Elements(s[1..]);
      assert NoDup(s) <==> NoDup(s[1..]) && s[0] !in s[1..] by {
        if NoDup(s[1..]) && s[0] !in s[1..] {
          forall i, j | 0 <= i < j < |s| ensures s[i] != s[j] {
            assert s[j] == s[1..][j - 1];
            if i > 0 { assert s[i] == s[1..][i - 1]; }
          }
        }
      }
      assert s[0] in s[1..] ==> Elements(s) == Elements(s[1..]);
    } else {
      assert Elements(s) == {};
    }
  }

  lemma CyclesAreMissing(g: Graph, dirs: seq<Text>, order: seq<Text>)
    requires TopoPrefix(g, order) && g.Keys == Elements(dirs)
    ensures CycleSet(g) <= Elements(Missing(dirs, order))
  {
    forall n | n in CycleSet(g) ensures n in Missing(dirs, order) {
      assert n in Elements(dirs);
      if n in order { TopoPrefixNoCycle(g, order, n); }
    }
  }

  lemma UnresolvedIsCycleSet(g: Graph, dirs: seq<Text>, order: seq<Text>)
    requires TopoPrefix(g, order) && g.Keys == Elements(dirs)
    requires AvailableSet(g, Elements(order)) == {}
    ensures (set n | n in dirs && n !in order) == CycleSet(g)
    ensures Acyclic(g) <==> Elements(order) == g.Keys
  {
    forall m ensures !Available(g, Elements(order), m) {
      assert m !in AvailableSet(g, Elements(order));
    }
    forall n | n in g ensures n !in order <==> ReachesCycle(g, n) {
      MaximalPrefixLeavesCycles(g, order, n);
    }
    forall n ensures n in dirs <==> n in g {
      assert n in Elements(dirs) <==> n in dirs;
    }
    AcyclicIffNoneReaches(g);
    assert forall n :: n in order ==> n in Elements(order);
    assert Elements(order) <= g.Keys;
  }
}
