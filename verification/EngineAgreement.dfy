/** The three engines, run on one graph. */
module EngineAgreement {
  import opened JsText
  import opened SortedTexts
  import opened DependencyGraph
  import PublishOrder
  import BuildLayers
  import BuildCycles

  /**
   * Kahn's algorithm, the layer peeling and the depth-first search agree on whether one and the same graph
   * has a cycle, and the first two on which nodes it blocks.
   */
  method RunAllEngines(packages: seq<PublishOrder.Package>, layered: seq<BuildLayers.GraphPkg>,
                       tasks: BuildCycles.TaskTable, keys: seq<Text>)
    returns (publish: PublishOrder.Outcome, layers: BuildLayers.Outcome, issues: seq<Text>)
    requires PublishOrder.PublishGraph(packages) == BuildLayers.LayerGraph(layered) == BuildCycles.TaskGraph(tasks)
    requires NoDup(PublishOrder.DirNames(packages)) && [] !in PublishOrder.DirNames(packages)
    requires Elements(keys) == tasks.Keys
    ensures publish.Order? <==> layers.Layers?
    ensures publish.Order? <==> issues == []
    ensures publish.Cycle? ==> Elements(publish.unresolved) == layers.remaining != {}
  {
    hide PublishOrder.PublishGraph, BuildLayers.LayerGraph, BuildCycles.TaskGraph, NoDup, Elements;
    publish := PublishOrder.ComputePublishOrder(packages);
    layers := BuildLayers.TopoLayers(layered);
    ghost var finishOrder;
    issues, finishOrder := BuildCycles.CollectBuildCycleIssues(tasks, keys);
    CycleSetEmptyIffAcyclic(BuildLayers.LayerGraph(layered));
  }

  lemma CycleSetEmptyIffAcyclic(g: Graph)
    ensures CycleSet(g) == {} <==> Acyclic(g)
  {
    AcyclicIffNoneReaches(g);
    if !Acyclic(g) {
      var n :| n in g && ReachesCycle(g, n);
      assert n in CycleSet(g);
    }
  }
}
