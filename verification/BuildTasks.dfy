/** The build-task table generated from the workspace packages: the graph the cycle check runs on. */
module BuildTasks {
  import opened JsText
  import opened SortedTexts
  import opened DependencyGraph
  import opened BuildCycles

  /** `buildTaskName` is empty for a package without a build script. */
  datatype WorkspacePackage = WorkspacePackage(
    name: Text,
    buildTaskName: Text,
    dependencies: seq<Text>,
    devDependencies: seq<Text>,
    peerDependencies: seq<Text>)
  {
    function DependencyNames(): seq<Text> {
      dependencies + devDependencies + peerDependencies
    }
  }

  function PackageNameMap(packages: seq<WorkspacePackage>): (m: map<Text, WorkspacePackage>)
    ensures forall n :: n in m ==> m[n] in packages && m[n].name == n
  {
    if packages == [] then map[]
    else
      var last := packages[|packages| - 1];
      assert packages == packages[..|packages| - 1] + [last];
      PackageNameMap(packages[..|packages| - 1])[last.name := last]
  }

  predicate IsFirstParty(pkg: WorkspacePackage, byName: map<Text, WorkspacePackage>, dep: Text) {
    dep in byName && byName[dep].buildTaskName != [] && byName[dep].buildTaskName != pkg.buildTaskName
  }

  ghost function FirstParty(pkg: WorkspacePackage, byName: map<Text, WorkspacePackage>, deps: seq<Text>): set<Text> {
    set dep | dep in deps && IsFirstParty(pkg, byName, dep) :: byName[dep].buildTaskName
  }

  method FirstPartyBuildDependencies(pkg: WorkspacePackage, byName: map<Text, WorkspacePackage>) returns (r: seq<Text>)
    ensures ListingOf(r, FirstParty(pkg, byName, pkg.DependencyNames()))
  {
    var deps := pkg.DependencyNames();
    var found: set<Text> := {};
    for k := 0 to |deps|
      invariant found == FirstParty(pkg, byName, deps[..k])
    {
      assert deps[..k + 1] == deps[..k] + [deps[k]];
      if IsFirstParty(pkg, byName, deps[k]) {
        found := found + {byName[deps[k]].buildTaskName};
      }
    }
    assert deps[..|deps|] == deps;
    r := SortSet(found);
  }

  ghost function BuildTaskNames(packages: seq<WorkspacePackage>): set<Text> {
    set p | p in packages && p.buildTaskName != [] :: p.buildTaskName
  }

  /** `packages[i]` is the last package with this build task. */
  predicate LastWithTask(packages: seq<WorkspacePackage>, i: int, task: Text) {
    0 <= i < |packages| && packages[i].buildTaskName == task && forall j :: i < j < |packages| ==>
      packages[j].buildTaskName != task
  }

  /** `dependsOn` lists the first-party build tasks of the last package with this build task. */
  ghost predicate TaskOf(packages: seq<WorkspacePackage>, byName: map<Text, WorkspacePackage>, task: Text,
        dependsOn: seq<Text>) {
    exists i :: LastWithTask(packages, i, task)
      && ListingOf(dependsOn, FirstParty(packages[i], byName, packages[i].DependencyNames()))
  }

  // ---- the dependencies of a task, in terms of the packages ----

  /** The package lists the name in one of the three blocks. */
  predicate Lists(p: WorkspacePackage, name: Text) {
    name in p.dependencies || name in p.devDependencies || name in p.peerDependencies
  }

  /** Every package of that name has this build task, and there is one. */
  ghost predicate OnlyTaskOf(packages: seq<WorkspacePackage>, name: Text, task: Text) {
    && (exists q :: q in packages && q.name == name)
    && (forall q :: q in packages && q.name == name ==> q.buildTaskName == task)
  }

  lemma {:induction false} NameIsMapped(packages: seq<WorkspacePackage>, name: Text)
    ensures name in PackageNameMap(packages) <==> exists q :: q in packages && q.name == name
  {
    if packages == [] {
    } else {
      var last, front := packages[|packages| - 1], packages[..|packages| - 1];
      assert packages == front + [last];
      assert forall q :: q in packages <==> q in front || q == last;
      NameIsMapped(front, name);
    }
  }

  /** A listed package with one build task, other than the package's own, makes that task a dependency. */
  lemma ListedIsDependency(packages: seq<WorkspacePackage>, p: WorkspacePackage, name: Text, task: Text)
    requires Lists(p, name) && OnlyTaskOf(packages, name, task) && task != [] && task != p.buildTaskName
    ensures task in FirstParty(p, PackageNameMap(packages), p.DependencyNames())
  {
    var byName := PackageNameMap(packages);
    NameIsMapped(packages, name);
    assert byName[name].buildTaskName == task;
    assert name in p.DependencyNames() && IsFirstParty(p, byName, name);
  }

  /** Every dependency comes from a listed package. */
  lemma DependencyIsListed(packages: seq<WorkspacePackage>, p: WorkspacePackage, task: Text)
    requires task in FirstParty(p, PackageNameMap(packages), p.DependencyNames())
    ensures task != [] && task != p.buildTaskName
    ensures exists q :: q in packages && q.buildTaskName == task && Lists(p, q.name)
  {
    var byName := PackageNameMap(packages);
    var dep :| dep in p.DependencyNames() && IsFirstParty(p, byName, dep) && byName[dep].buildTaskName == task;
    assert byName[dep] in packages && Lists(p, byName[dep].name);
  }

  /** `dependsOn` holds the build task of every listed package with one, except the package's own, and nothing else. */
  ghost predicate DependsOnListed(packages: seq<WorkspacePackage>, p: WorkspacePackage, dependsOn: seq<Text>) {
    && (forall name, task ::
         Lists(p, name) && OnlyTaskOf(packages, name, task) && task != [] && task != p.buildTaskName ==>
           task in dependsOn)
    && (forall task :: task in dependsOn ==>
         exists q :: q in packages && q.buildTaskName == task && Lists(p, q.name))
  }

  lemma FirstPartyIsListed(packages: seq<WorkspacePackage>, p: WorkspacePackage, dependsOn: seq<Text>)
    requires ListingOf(dependsOn, FirstParty(p, PackageNameMap(packages), p.DependencyNames()))
    ensures DependsOnListed(packages, p, dependsOn)
  {
    assert forall task :: task in dependsOn <==> task in Elements(dependsOn);
    hide FirstParty, PackageNameMap, OnlyTaskOf, Lists;
    forall name, task | Lists(p, name) && OnlyTaskOf(packages, name, task) && task != [] && task != p.buildTaskName
      ensures task in dependsOn
    {
      ListedIsDependency(packages, p, name, task);
    }
    forall task | task in dependsOn ensures exists q :: q in packages && q.buildTaskName == task && Lists(p, q.name) {
      DependencyIsListed(packages, p, task);
    }
  }

  /**
   * One task per build task name, depending on exactly the build tasks of the first-party dependencies of
   * the last package with that name.  Every dependency is itself a task of the table and never the task itself.
   */
  method CreateWorkspaceBuildTasks(packages: seq<WorkspacePackage>) returns (tasks: TaskTable)
    ensures tasks.Keys == BuildTaskNames(packages)
    ensures forall t :: t in tasks ==> TaskOf(packages, PackageNameMap(packages), t, tasks[t])
    ensures forall t :: t in tasks ==>
      exists i :: LastWithTask(packages, i, t) && DependsOnListed(packages, packages[i], tasks[t])
    ensures forall t :: t in tasks ==> Elements(tasks[t]) <= tasks.Keys - {t}
  {
    hide ListingOf, FirstParty, DependsOnListed;
    var byName := PackageNameMap(packages);
    tasks := map[];
    for k := 0 to |packages|
      invariant tasks.Keys == BuildTaskNames(packages[..k])
      invariant forall t :: t in tasks ==> TaskOf(packages[..k], byName, t, tasks[t])
    {
      var p := packages[k];
      assert packages[..k + 1] == packages[..k] + [p];
      ghost var before := tasks;
      if p.buildTaskName != [] {
        var dependsOn := FirstPartyBuildDependencies(p, byName);
        tasks := tasks[p.buildTaskName := dependsOn];
        assert LastWithTask(packages[..k + 1], k, p.buildTaskName);
      }
      forall t | t in tasks && t != p.buildTaskName ensures TaskOf(packages[..k + 1], byName, t, tasks[t]) {
        OtherTask(packages, k, byName, t, before[t]);
      }
    }
    assert packages[..|packages|] == packages;
    forall t | t in tasks ensures Elements(tasks[t]) <= tasks.Keys - {t} {
      TaskWithinTable(packages, byName, t, tasks[t]);
    }
    forall t | t in tasks
      ensures exists i :: LastWithTask(packages, i, t) && DependsOnListed(packages, packages[i], tasks[t])
    {
      TaskIsListed(packages, t, tasks[t]);
    }
  }

  lemma TaskIsListed(packages: seq<WorkspacePackage>, t: Text, dependsOn: seq<Text>)
    requires TaskOf(packages, PackageNameMap(packages), t, dependsOn)
    ensures exists i :: LastWithTask(packages, i, t) && DependsOnListed(packages, packages[i], dependsOn)
  {
    hide FirstParty, DependsOnListed, ListingOf;
    var byName := PackageNameMap(packages);
    var i :| LastWithTask(packages, i, t)
      && ListingOf(dependsOn, FirstParty(packages[i], byName, packages[i].DependencyNames()));
    FirstPartyIsListed(packages, packages[i], dependsOn);
  }

  lemma OtherTask(packages: seq<WorkspacePackage>, k: nat, byName: map<Text, WorkspacePackage>, task: Text,
        dependsOn: seq<Text>)
    requires k < |packages| && task != packages[k].buildTaskName && TaskOf(packages[..k], byName, task, dependsOn)
    ensures TaskOf(packages[..k + 1], byName, task, dependsOn)
  {
    var i :| LastWithTask(packages[..k], i, task)
      && ListingOf(dependsOn, FirstParty(packages[..k][i], byName, packages[..k][i].DependencyNames()));
    assert LastWithTask(packages[..k + 1], i, task);
  }

  lemma TaskWithinTable(packages: seq<WorkspacePackage>, byName: map<Text, WorkspacePackage>, task: Text,
        dependsOn: seq<Text>)
    requires byName == PackageNameMap(packages) && TaskOf(packages, byName, task, dependsOn)
    ensures Elements(dependsOn) <= BuildTaskNames(packages) - {task}
  {
    var i :| LastWithTask(packages, i, task)
      && ListingOf(dependsOn, FirstParty(packages[i], byName, packages[i].DependencyNames()));
    var p := packages[i];
    assert Elements(dependsOn) == FirstParty(p, byName, p.DependencyNames());
  }

  /** So the search's test that a dependency is a task never drops an edge of a generated table. */
  lemma GeneratedTableKeepsAllEdges(tasks: TaskTable, t: Text)
    requires t in tasks && Elements(tasks[t]) <= tasks.Keys - {t}
    ensures TaskGraph(tasks)[t] == Elements(tasks[t])
  {
    assert forall d :: d in tasks[t] ==> d in Elements(tasks[t]);
  }
}
