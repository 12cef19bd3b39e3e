/** The build-graph check: a three-colour depth-first search over the generated build tasks. */
module BuildCycles {
  import opened JsText
  import opened SortedTexts
  import opened DependencyGraph

  /** `tasks[name]?.dependsOn ?? []` for every task. */
  type TaskTable = map<Text, seq<Text>>

  /** Edges to names that are not tasks are skipped by the search. */
  ghost function TaskGraph(tasks: TaskTable): Graph {
    map t | t in tasks :: set d | d in tasks[t] && d in tasks
  }

  /** "build task dependency cycle detected: " */
  const ISSUE_PREFIX: Text :=
    [98, 117, 105, 108, 100, 32, 116, 97, 115, 107, 32, 100, 101, 112, 101, 110, 100, 101, 110, 99, 121, 32,
     99, 121, 99, 108, 101, 32, 100, 101, 116, 101, 99, 116, 101, 100, 58, 32]

  /** " -> " */
  const ARROW: Text := [32, 45, 62, 32]

  function JoinArrows(trail: seq<Text>): Text {
    if trail == [] then [] else if |trail| == 1 then trail[0] else trail[0] + ARROW + JoinArrows(trail[1..])
  }

  function IssueText(trail: seq<Text>): Text {
    ISSUE_PREFIX + JoinArrows(trail)
  }

  /** A walk along real edges that visits no task twice until its last step returns to one of them. */
  ghost predicate CycleTrail(g: Graph, trail: seq<Text>) {
    && |trail| >= 2
    && Walk(g, trail)
    && NoDup(trail[..|trail| - 1])
    && trail[|trail| - 1] in trail[..|trail| - 1]
  }

  ghost predicate IsIssue(g: Graph, text: Text) {
    exists trail :: CycleTrail(g, trail) && text == IssueText(trail)
  }

  /** A reported trail ends in a closed walk of real edges. */
  lemma CycleTrailIsCycle(g: Graph, trail: seq<Text>) returns (i: nat)
    requires CycleTrail(g, trail)
    ensures i < |trail| && ClosedWalk(g, trail[i..])
  {
    i :| 0 <= i < |trail| - 1 && trail[..|trail| - 1][i] == trail[|trail| - 1];
    LassoClosedWalk(g, trail, i);
  }

  lemma IssueMeansCycle(g: Graph, text: Text)
    requires IsIssue(g, text)
    ensures !Acyclic(g)
  {
    var trail :| CycleTrail(g, trail) && text == IssueText(trail);
    var i := CycleTrailIsCycle(g, trail);
  }

  /** `d` is a dependsOn entry of the task `t` and itself a task. */
  predicate DependsOnTask(tasks: TaskTable, t: Text, d: Text) {
    t in tasks && d in tasks[t] && d in tasks
  }

  /** A cycle, in terms of the tasks: each step is a dependsOn entry, and the last one leads back to the first task. */
  ghost predicate TaskCycle(tasks: TaskTable, p: seq<Text>) {
    |p| >= 2 && p[0] == p[|p| - 1] && forall i :: 0 <= i < |p| - 1 ==> DependsOnTask(tasks, p[i], p[i + 1])
  }

  /** The closed walks of the task graph are the cycles of the tasks. */
  lemma ClosedWalkOfTasks(tasks: TaskTable, p: seq<Text>)
    ensures ClosedWalk(TaskGraph(tasks), p) <==> TaskCycle(tasks, p)
  {
    var g := TaskGraph(tasks);
    if TaskCycle(tasks, p) {
      forall i | 0 <= i < |p| ensures p[i] in g {
        var j := if i > 0 then i - 1 else 0;
        assert DependsOnTask(tasks, p[j], p[j + 1]);
      }
      forall i | 0 <= i < |p| - 1 ensures p[i + 1] in g[p[i]] {
        assert DependsOnTask(tasks, p[i], p[i + 1]);
      }
    }
    if ClosedWalk(g, p) {
      forall i | 0 <= i < |p| - 1 ensures DependsOnTask(tasks, p[i], p[i + 1]) {
        assert p[i + 1] in g[p[i]];
      }
    }
  }

  lemma AcyclicTasks(tasks: TaskTable)
    ensures Acyclic(TaskGraph(tasks)) <==> forall p :: !TaskCycle(tasks, p)
  {
    hide ClosedWalk, TaskGraph, TaskCycle;
    forall p ensures ClosedWalk(TaskGraph(tasks), p) <==> TaskCycle(tasks, p) {
      ClosedWalkOfTasks(tasks, p);
    }
  }

  /** The last edge of a reported trail goes from `u` to `v`. */
  ghost predicate ClosesTrail(g: Graph, issues: set<Text>, u: Text, v: Text) {
    exists trail ::
      CycleTrail(g, trail) && IssueText(trail) in issues && trail[|trail| - 2] == u && trail[|trail| - 1] == v
  }

  ghost predicate AllClose(g: Graph, issues: set<Text>, closing: set<(Text, Text)>) {
    forall e :: e in closing ==> ClosesTrail(g, issues, e.0, e.1)
  }

  /** Apart from the edges in `closing`, every listed task stands after its dependencies. */
  ghost predicate OrderedBut(g: Graph, o: seq<Text>, closing: set<(Text, Text)>) {
    && NoDup(o)
    && (forall i :: 0 <= i < |o| ==> o[i] in g)
    && (forall i, d :: 0 <= i < |o| && d in g[o[i]] ==> d in Elements(o[..i]) || (o[i], d) in closing)
  }

  /** The closure variables shared by the recursive `visit`. */
  class CycleSearch {
    const tasks: TaskTable
    var visiting: set<Text>
    var visited: set<Text>
    var issues: set<Text>
    ghost var finished: seq<Text>
    /** The edges on which a task in progress was met again. */
    ghost var closing: set<(Text, Text)>

    ghost predicate Valid()
      reads this
    {
      && visiting !! visited
      && visiting + visited <= tasks.Keys
      && Elements(finished) == visited
      && (forall text :: text in issues ==> IsIssue(TaskGraph(tasks), text))
      && (issues == {} <==> closing == {})
      && AllClose(TaskGraph(tasks), issues, closing)
      && OrderedBut(TaskGraph(tasks), finished, closing)
    }

    constructor (tasks: TaskTable)
      ensures Valid() && this.tasks == tasks
      ensures visiting == visited == issues == {}
    {
      this.tasks := tasks;
      visiting, visited, issues, finished, closing := {}, {}, {}, [], {};
    }

    /** Explores `taskName`, reached along `trail`, which holds exactly the tasks being visited. */
    method Visit(taskName: Text, trail: seq<Text>)
      requires Valid() && taskName in tasks
      requires NoDup(trail) && Elements(trail) == visiting && Walk(TaskGraph(tasks), trail + [taskName])
      modifies this
      ensures Valid()
      ensures visiting == old(visiting) && old(visited) <= visited
      ensures old(issues) <= issues && old(closing) <= closing
      ensures taskName in visited || (trail != [] && (trail[|trail| - 1], taskName) in closing)
      decreases tasks.Keys - visited - visiting
    {
      hide TaskGraph, OrderedBut, AllClose, IsIssue, Walk, NoDup, Elements;
      if taskName in visited {
        return;
      }
      ghost var g := TaskGraph(tasks);
      if taskName in visiting {
        RevisitedTrail(g, trail, taskName, issues, closing, finished);
        issues := issues + {IssueText(trail + [taskName])};
        closing := closing + {(trail[|trail| - 1], taskName)};
        return;
      }

      visiting := visiting + {taskName};
      DeeperTrail(trail, taskName);
      var deps := tasks[taskName];
      for k := 0 to |deps|
        invariant Valid()
        invariant visiting == old(visiting) + {taskName} && old(visited) <= visited
        invariant old(issues) <= issues && old(closing) <= closing
        invariant forall j :: 0 <= j < k && deps[j] in tasks ==> deps[j] in visited || (taskName, deps[j]) in closing
      {
        if deps[k] in tasks {
          LongerWalk(tasks, trail + [taskName], deps[k]);
          Visit(deps[k], trail + [taskName]);
        }
      }
      visiting := visiting - {taskName};
      visited := visited + {taskName};
      FinishTask(tasks, finished, taskName, closing);
      finished := finished + [taskName];
    }
  }

  /** The trail is reported, and its last edge is the one just taken. */
  lemma TrailReturns(g: Graph, trail: seq<Text>, taskName: Text, issues: set<Text>)
    requires NoDup(trail) && taskName in Elements(trail) && Walk(g, trail + [taskName])
    requires IssueText(trail + [taskName]) in issues
    ensures trail != [] && ClosesTrail(g, issues, trail[|trail| - 1], taskName)
    ensures IsIssue(g, IssueText(trail + [taskName]))
  {
    hide IssueText;
    var t := trail + [taskName];
    assert t[..|t| - 1] == trail;
    assert CycleTrail(g, t);
    hide CycleTrail;
    assert t[|t| - 2] == trail[|trail| - 1] && t[|t| - 1] == taskName;
  }

  lemma OneMoreCloses(g: Graph, issues: set<Text>, closing: set<(Text, Text)>, u: Text, v: Text)
    requires AllClose(g, issues, closing) && ClosesTrail(g, issues, u, v)
    ensures AllClose(g, issues, closing + {(u, v)})
  {
    hide ClosesTrail;
  }

  lemma MoreIssues(g: Graph, issues: set<Text>, closing: set<(Text, Text)>, text: Text)
    requires AllClose(g, issues, closing)
    ensures AllClose(g, issues + {text}, closing)
  {
    hide CycleTrail, IssueText;
    forall e | e in closing ensures ClosesTrail(g, issues + {text}, e.0, e.1) {
      assert ClosesTrail(g, issues, e.0, e.1);
    }
  }

  lemma MoreClosing(g: Graph, o: seq<Text>, closing: set<(Text, Text)>, e: (Text, Text))
    requires OrderedBut(g, o, closing)
    ensures OrderedBut(g, o, closing + {e})
  {
  }

  lemma RevisitedTrail(g: Graph, trail: seq<Text>, taskName: Text, issues: set<Text>, closing: set<(Text, Text)>,
        o: seq<Text>)
    requires NoDup(trail) && taskName in Elements(trail) && Walk(g, trail + [taskName])
    requires AllClose(g, issues, closing) && OrderedBut(g, o, closing)
    ensures IsIssue(g, IssueText(trail + [taskName])) && trail != []
    ensures AllClose(g, issues + {IssueText(trail + [taskName])}, closing + {(trail[|trail| - 1], taskName)})
    ensures OrderedBut(g, o, closing + {(trail[|trail| - 1], taskName)})
  {
    hide *;
    var text := IssueText(trail + [taskName]);
    TrailReturns(g, trail, taskName, issues + {text});
    MoreIssues(g, issues, closing, text);
    OneMoreCloses(g, issues + {text}, closing, trail[|trail| - 1], taskName);
    MoreClosing(g, o, closing, (trail[|trail| - 1], taskName));
  }

  lemma DeeperTrail(trail: seq<Text>, taskName: Text)
    requires NoDup(trail) && taskName !in Elements(trail)
    ensures NoDup(trail + [taskName]) && Elements(trail + [taskName]) == Elements(trail) + {taskName}
  {
  }

  lemma LongerWalk(tasks: TaskTable, trail: seq<Text>, d: Text)
    requires trail != [] && Walk(TaskGraph(tasks), trail) && d in tasks && d in tasks[trail[|trail| - 1]]
    ensures Walk(TaskGraph(tasks), trail + [d])
  {
    var g := TaskGraph(tasks);
    var t := trail + [d];
    forall i | 0 <= i < |t| - 1 ensures t[i + 1] in g[t[i]] {
      if i < |trail| - 1 { assert trail[i + 1] in g[trail[i]]; }
    }
  }

  /** A task finishes after all its dependencies, apart from those met again on a closing edge. */
  lemma FinishTask(tasks: TaskTable, finished: seq<Text>, t: Text, closing: set<(Text, Text)>)
    requires t in tasks && t !in Elements(finished) && OrderedBut(TaskGraph(tasks), finished, closing)
    requires forall d :: d in tasks[t] && d in tasks ==> d in Elements(finished) || (t, d) in closing
    ensures Elements(finished + [t]) == Elements(finished) + {t}
    ensures OrderedBut(TaskGraph(tasks), finished + [t], closing)
  {
    var g := TaskGraph(tasks);
    var o := finished + [t];
    assert t !in finished;
    forall i, d | 0 <= i < |o| && d in g[o[i]] ensures d in Elements(o[..i]) || (o[i], d) in closing {
      assert o[..i] == finished[..i];
      if i == |finished| { assert finished[..i] == finished; }
    }
  }

  /** Along a walk without closing edges the positions in the order fall. */
  lemma {:induction false} PositionsFall(g: Graph, o: seq<Text>, closing: set<(Text, Text)>, p: seq<Text>, k: nat,
        j0: nat)
    returns (j: nat)
    requires OrderedBut(g, o, closing) && Walk(g, p) && k < |p| && j0 < |o| && o[j0] == p[0]
    requires forall i :: 0 <= i < |p| - 1 ==> (p[i], p[i + 1]) !in closing
    ensures j + k <= j0 && o[j] == p[k]
  {
    if k == 0 {
      j := j0;
    } else {
      var before := PositionsFall(g, o, closing, p, k - 1, j0);
      assert (p[k - 1], p[k - 1 + 1]) !in closing && p[k - 1 + 1] in g[p[k - 1]];
      assert p[k] in Elements(o[..before]);
      j :| 0 <= j < before && o[..before][j] == p[k];
    }
  }

  /** If the order covers the graph, every closed walk takes a closing edge. */
  lemma EveryCycleCloses(g: Graph, o: seq<Text>, closing: set<(Text, Text)>, p: seq<Text>)
    requires OrderedBut(g, o, closing) && Elements(o) == g.Keys && ClosedWalk(g, p)
    ensures exists i :: 0 <= i < |p| - 1 && (p[i], p[i + 1]) in closing
  {
    if forall i :: 0 <= i < |p| - 1 ==> (p[i], p[i + 1]) !in closing {
      assert p[0] in Elements(o);
      var j0 :| 0 <= j0 < |o| && o[j0] == p[0];
      var j := PositionsFall(g, o, closing, p, |p| - 1, j0);
    }
  }

  /** The closed walk takes the last edge of a reported trail. */
  ghost predicate TakesReportedEdge(g: Graph, issues: set<Text>, p: seq<Text>) {
    exists i :: 0 <= i < |p| - 1 && ClosesTrail(g, issues, p[i], p[i + 1])
  }

  lemma NoClosingIsTopological(g: Graph, o: seq<Text>)
    requires OrderedBut(g, o, {})
    ensures TopoPrefix(g, o)
  {
    forall i | 0 <= i < |o| ensures g[o[i]] <= Elements(o[..i]) {
    }
  }

  lemma EveryCycleReported(g: Graph, o: seq<Text>, closing: set<(Text, Text)>, issues: set<Text>)
    requires OrderedBut(g, o, closing) && Elements(o) == g.Keys && AllClose(g, issues, closing)
    ensures forall p :: ClosedWalk(g, p) ==> TakesReportedEdge(g, issues, p)
  {
    hide OrderedBut, ClosesTrail, ClosedWalk;
    forall p | ClosedWalk(g, p) ensures TakesReportedEdge(g, issues, p) {
      EveryCycleCloses(g, o, closing, p);
      var i :| 0 <= i < |p| - 1 && (p[i], p[i + 1]) in closing;
      assert ClosesTrail(g, issues, (p[i], p[i + 1]).0, (p[i], p[i + 1]).1);
    }
  }

  /**
   * No issue is reported exactly when the task graph is acyclic, and then the finish order proves it.  On a cyclic
   * graph every closed walk takes the last edge of a reported trail: cutting those edges leaves no cycle.
   */
  method CollectBuildCycleIssues(tasks: TaskTable, keys: seq<Text>)
    returns (issues: seq<Text>, ghost finishOrder: seq<Text>)
    requires Elements(keys) == tasks.Keys
    ensures issues == [] <==> Acyclic(TaskGraph(tasks))
    ensures issues == [] <==> forall p :: !TaskCycle(tasks, p)
    ensures forall text :: text in issues ==> IsIssue(TaskGraph(tasks), text)
    ensures forall p :: ClosedWalk(TaskGraph(tasks), p) ==> TakesReportedEdge(TaskGraph(tasks), Elements(issues), p)
    ensures Sorted(issues) && NoDup(issues)
    ensures issues == [] ==> TopoOrder(TaskGraph(tasks), finishOrder)
  {
    hide OrderedBut, AllClose, ClosesTrail, IsIssue, ClosedWalk, Acyclic, TopoPrefix, TakesReportedEdge, TaskCycle;
    AcyclicTasks(tasks);
    var search := new CycleSearch(tasks);
    for k := 0 to |keys|
      invariant search.Valid() && search.visiting == {} && search.tasks == tasks
      invariant forall j :: 0 <= j < k ==> keys[j] in search.visited
    {
      assert keys[k] in Elements(keys);
      assert Walk(TaskGraph(tasks), [] + [keys[k]]);
      search.Visit(keys[k], []);
    }
    assert search.visited == tasks.Keys;
    finishOrder := search.finished;
    EveryCycleReported(TaskGraph(tasks), finishOrder, search.closing, search.issues);
    issues := SortSet(search.issues);
    assert forall text :: text in issues ==> text in Elements(issues);
    if issues == [] {
      assert search.issues == {};
      NoClosingIsTopological(TaskGraph(tasks), finishOrder);
      TopoOrderAcyclic(TaskGraph(tasks), finishOrder);
    } else {
      assert issues[0] in issues;
      IssueMeansCycle(TaskGraph(tasks), issues[0]);
    }
  }
}
