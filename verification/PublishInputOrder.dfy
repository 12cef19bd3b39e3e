/** When the publish order depends on the order in which the packages are listed, and when it does not. */
module PublishInputOrder {
  import opened JsText
  import opened SortedTexts
  import opened DependencyGraph
  import opened PublishOrder

  ghost predicate Rearranged(a: seq<Package>, b: seq<Package>) {
    multiset(a) == multiset(b)
  }

  /** A package of that manifest name lives in `dir`. */
  ghost predicate Candidate(packages: seq<Package>, name: Text, dir: Text) {
    exists p :: p in packages && p.manifest.name == name && p.dirName == dir
  }

  /** A package in `dir` lists `dep` as a scoped dependency. */
  ghost predicate Mentions(packages: seq<Package>, dir: Text, dep: Text) {
    exists p :: p in packages && p.dirName == dir && dep in InternalDependencyBlocks(p.manifest)
  }

  /** All packages of that manifest name live in one directory. */
  ghost predicate Unambiguous(packages: seq<Package>, name: Text) {
    forall d, e :: Candidate(packages, name, d) && Candidate(packages, name, e) ==> d == e
  }

  /** `dir` depends on `e` under a name that can mean nothing else. */
  ghost predicate Certain(packages: seq<Package>, dir: Text, e: Text) {
    exists dep :: Mentions(packages, dir, dep) && Candidate(packages, dep, e) && Unambiguous(packages, dep)
  }

  /** Whatever directory a listed dependency could mean, the dependency on it is certain anyway. */
  ghost predicate HarmlessNames(packages: seq<Package>) {
    forall dir, dep, e :: Mentions(packages, dir, dep) && Candidate(packages, dep, e) && e != [] && e != dir ==>
      Certain(packages, dir, e)
  }

  /** No manifest name is used twice. */
  ghost predicate DistinctNames(packages: seq<Package>) {
    forall i, j :: 0 <= i < j < |packages| ==> packages[i].manifest.name != packages[j].manifest.name
  }

  lemma DistinctNamesAreHarmless(packages: seq<Package>)
    requires DistinctNames(packages)
    ensures HarmlessNames(packages)
  {
    hide InternalDependencyBlocks;
    forall name ensures Unambiguous(packages, name) {
    }
  }

  lemma {:induction false} LookupIsCandidate(packages: seq<Package>, name: Text)
    ensures name in NameToDirName(packages) ==> Candidate(packages, name, NameToDirName(packages)[name])
    ensures forall dir :: Candidate(packages, name, dir) ==> name in NameToDirName(packages)
  {
    if packages == [] {
    } else {
      var n := |packages| - 1;
      var front := packages[..n];
      assert packages == front + [packages[n]];
      LookupIsCandidate(front, name);
      forall dir | Candidate(packages, name, dir) ensures name in NameToDirName(packages) {
        var p :| p in packages && p.manifest.name == name && p.dirName == dir;
        if p in front { assert Candidate(front, name, dir); }
      }
      if packages[n].manifest.name != name && name in NameToDirName(front) {
        var p :| p in front && p.manifest.name == name && p.dirName == NameToDirName(front)[name];
        assert p in packages;
      } else {
        assert packages[n] in packages;
      }
    }
  }

  lemma EdgeIff(packages: seq<Package>, dir: Text, e: Text)
    requires dir in PublishGraph(packages)
    ensures e in PublishGraph(packages)[dir] <==>
      && e != [] && e != dir
      && exists dep ::
           Mentions(packages, dir, dep) && dep in NameToDirName(packages) && NameToDirName(packages)[dep] == e
  {
    var names := NameToDirName(packages);
    if e in PublishGraph(packages)[dir] {
      var p, dep :| p in packages && p.dirName == dir && dep in InternalDependencyBlocks(p.manifest)
        && Counts(names, dir, dep)
        && names[dep] == e;
      assert Mentions(packages, dir, dep);
    }
  }

  lemma SameView(a: seq<Package>, b: seq<Package>)
    requires Rearranged(a, b)
    ensures PublishGraph(a).Keys == PublishGraph(b).Keys
    ensures forall name, dir :: Candidate(a, name, dir) <==> Candidate(b, name, dir)
    ensures forall name, dir :: Mentions(a, dir, name) <==> Mentions(b, dir, name)
  {
    SameElements(a, b);
    assert forall p :: (p in a <==> p in Elements(a)) && (p in b <==> p in Elements(b));
    SameDirs(a, b);
    SameDirs(b, a);
  }

  lemma SameDirs(a: seq<Package>, b: seq<Package>)
    requires Elements(a) == Elements(b)
    ensures Elements(DirNames(a)) <= Elements(DirNames(b))
  {
    forall d | d in Elements(DirNames(a)) ensures d in Elements(DirNames(b)) {
      var i :| 0 <= i < |a| && DirNames(a)[i] == d;
      assert a[i] in Elements(b);
      var j :| 0 <= j < |b| && b[j] == a[i];
      assert DirNames(b)[j] == d;
    }
  }

  lemma CertainIsEdge(packages: seq<Package>, dir: Text, e: Text)
    requires dir in PublishGraph(packages) && Certain(packages, dir, e) && e != [] && e != dir
    ensures e in PublishGraph(packages)[dir]
  {
    var dep :| Mentions(packages, dir, dep) && Candidate(packages, dep, e) && Unambiguous(packages, dep);
    LookupIsCandidate(packages, dep);
    EdgeIff(packages, dir, e);
  }

  /** Every edge of a graph without harmful names is there in every arrangement. */
  lemma EdgesSurvive(a: seq<Package>, b: seq<Package>, dir: Text, e: Text)
    requires Rearranged(a, b) && HarmlessNames(a) && dir in PublishGraph(a) && e in PublishGraph(a)[dir]
    ensures dir in PublishGraph(b) && e in PublishGraph(b)[dir]
  {
    hide PublishGraph, NameToDirName, Mentions, Candidate, Rearranged;
    SameView(a, b);
    EdgeIff(a, dir, e);
    var dep :| Mentions(a, dir, dep) && dep in NameToDirName(a) && NameToDirName(a)[dep] == e;
    LookupIsCandidate(a, dep);
    assert Certain(a, dir, e);
    assert Certain(b, dir, e);
    CertainIsEdge(b, dir, e);
  }

  lemma HarmlessIsOrderFree(a: seq<Package>, b: seq<Package>)
    requires Rearranged(a, b) && HarmlessNames(a)
    ensures HarmlessNames(b) && PublishGraph(a) == PublishGraph(b)
  {
    SameView(a, b);
    assert HarmlessNames(b) by {
      hide Candidate, Mentions;
      forall dir, dep, e | Mentions(b, dir, dep) && Candidate(b, dep, e) && e != [] && e != dir
        ensures Certain(b, dir, e) {
        assert Certain(a, dir, e);
      }
    }
    var ga, gb := PublishGraph(a), PublishGraph(b);
    forall d | d in ga ensures ga[d] == gb[d] {
      forall e ensures e in ga[d] <==> e in gb[d] {
        if e in ga[d] { EdgesSurvive(a, b, d, e); }
        if e in gb[d] { EdgesSurvive(b, a, d, e); }
      }
    }
  }

  // ---- harmful names ----

  lemma NameAppended(packages: seq<Package>, p: Package)
    ensures NameToDirName(packages + [p]) == NameToDirName(packages)[p.manifest.name := p.dirName]
  {
    assert (packages + [p])[..|packages|] == packages;
  }

  /** A package listed last gives its name its directory. */
  lemma ListLast(a: seq<Package>, name: Text, e: Text) returns (b: seq<Package>)
    requires Candidate(a, name, e)
    ensures Rearranged(a, b) && name in NameToDirName(b) && NameToDirName(b)[name] == e
  {
    var p :| p in a && p.manifest.name == name && p.dirName == e;
    var i :| 0 <= i < |a| && a[i] == p;
    assert a == a[..i] + [p] + a[i + 1..];
    b := a[..i] + a[i + 1..] + [p];
    NameAppended(a[..i] + a[i + 1..], p);
  }

  function Living(a: seq<Package>, e: Text, inside: bool): (r: seq<Package>)
    ensures forall p :: p in r <==> p in a && (p.dirName == e) == inside
  {
    if a == [] then [] else (if (a[0].dirName == e) == inside then [a[0]] else []) + Living(a[1..], e, inside)
  }

  lemma {:induction false} LivingSplits(a: seq<Package>, e: Text)
    ensures multiset(a) == multiset(Living(a, e, true)) + multiset(Living(a, e, false))
  {
    if a == [] {
    } else {
      LivingSplits(a[1..], e);
      assert a == [a[0]] + a[1..];
      var inside := a[0].dirName == e;
      assert Living(a, e, inside) == [a[0]] + Living(a[1..], e, inside);
      assert Living(a, e, !inside) == Living(a[1..], e, !inside);
    }
  }

  lemma {:induction false} LaterNamesWin(u: seq<Package>, v: seq<Package>, name: Text)
    requires name in NameToDirName(v)
    ensures name in NameToDirName(u + v) && NameToDirName(u + v)[name] == NameToDirName(v)[name]
    decreases |v|
  {
    var n := |v| - 1;
    var front := v[..n];
    assert v == front + [v[n]] && u + v == (u + front) + [v[n]];
    NameAppended(front, v[n]);
    NameAppended(u + front, v[n]);
    if v[n].manifest.name == name {
    } else {
      LaterNamesWin(u, front, name);
    }
  }

  /** With the packages of directory `e` listed first, a name means `e` only if it can mean nothing else. */
  lemma ListFirst(a: seq<Package>, e: Text) returns (b: seq<Package>)
    ensures Rearranged(a, b)
    ensures forall name :: name in NameToDirName(b) && NameToDirName(b)[name] == e ==>
      Unambiguous(b, name) && Candidate(b, name, e)
  {
    var u, v := Living(a, e, true), Living(a, e, false);
    b := u + v;
    LivingSplits(a, e);
    forall name | name in NameToDirName(b) && NameToDirName(b)[name] == e
      ensures Unambiguous(b, name) && Candidate(b, name, e) {
      LookupIsCandidate(b, name);
      LookupIsCandidate(v, name);
      if name in NameToDirName(v) {
        LaterNamesWin(u, v, name);
      }
      forall d | Candidate(b, name, d) ensures d == e {
        var p :| p in b && p.manifest.name == name && p.dirName == d;
        assert d != e ==> p in v && Candidate(v, name, d);
      }
    }
  }

  /** A harmful name puts an edge into the graph of one arrangement and not into that of another. */
  lemma HarmfulNameShows(a: seq<Package>, dir: Text, dep: Text, e: Text) returns (b: seq<Package>, c: seq<Package>)
    requires Mentions(a, dir, dep) && Candidate(a, dep, e) && e != [] && e != dir && !Certain(a, dir, e)
    ensures Rearranged(a, b) && Rearranged(a, c) && dir in PublishGraph(b) && dir in PublishGraph(c)
    ensures e in PublishGraph(b)[dir] && e !in PublishGraph(c)[dir]
  {
    b := ListLast(a, dep, e);
    c := ListFirst(a, e);
    SameView(a, b);
    SameView(a, c);
    MentionIsKey(a, dir, dep);
    EdgeIff(b, dir, e);
    EdgeIff(c, dir, e);
    hide Mentions, Candidate, PublishGraph, NameToDirName;
    forall x | Mentions(c, dir, x) && x in NameToDirName(c) ensures NameToDirName(c)[x] != e {
      assert NameToDirName(c)[x] == e ==> Unambiguous(a, x);
    }
  }

  lemma MentionIsKey(a: seq<Package>, dir: Text, dep: Text)
    requires Mentions(a, dir, dep)
    ensures dir in PublishGraph(a)
  {
    var p :| p in a && p.dirName == dir;
    var i :| 0 <= i < |a| && a[i] == p;
    assert DirNames(a)[i] == dir;
  }

  /** The package graph is the same for every arrangement of the input exactly when no name is harmful. */
  lemma GraphOrderFreeIff(a: seq<Package>)
    ensures (forall b :: Rearranged(a, b) ==> PublishGraph(b) == PublishGraph(a)) <==> HarmlessNames(a)
  {
    if HarmlessNames(a) {
      forall b | Rearranged(a, b) ensures PublishGraph(b) == PublishGraph(a) {
        HarmlessIsOrderFree(a, b);
      }
    } else {
      hide PublishGraph;
      var dir, dep, e :| Mentions(a, dir, dep) && Candidate(a, dep, e) && e != [] && e != dir && !Certain(a, dir, e);
      var b, c := HarmfulNameShows(a, dir, dep, e);
      assert PublishGraph(b) != PublishGraph(c);
    }
  }

  /** Two packages named `lib` in two directories and one user of `lib`: a harmful name. */
  lemma SharedNameIsHarmful(p: Package, q: Package, user: Package, lib: Text)
    requires p.manifest.name == q.manifest.name == lib
    requires forall dep :: dep in InternalDependencyBlocks(user.manifest) <==> dep == lib
    requires p.dirName != [] && p.dirName != q.dirName && user.dirName !in {p.dirName, q.dirName}
    ensures !HarmlessNames([p, q, user])
  {
    hide InternalDependencyBlocks;
    var all := [p, q, user];
    assert p in all && q in all && user in all;
    assert Mentions(all, user.dirName, lib) && Candidate(all, lib, p.dirName) && Candidate(all, lib, q.dirName);
    assert forall dep :: Mentions(all, user.dirName, dep) ==> dep == lib;
    assert !Certain(all, user.dirName, p.dirName);
  }

  lemma ThreeDirs(first: Package, last: Package, user: Package)
    ensures PublishGraph([first, last, user]).Keys == {first.dirName, last.dirName, user.dirName}
  {
    var dirs := DirNames([first, last, user]);
    assert dirs == [first.dirName, last.dirName, user.dirName];
    hide DirNames;
    assert Elements(dirs) == {first.dirName, last.dirName, user.dirName};
  }

  lemma ThreeNames(first: Package, last: Package, user: Package, lib: Text)
    requires first.manifest.name == last.manifest.name == lib != user.manifest.name
    ensures lib in NameToDirName([first, last, user]) && NameToDirName([first, last, user])[lib] == last.dirName
  {
    assert [first, last, user] == [first] + [last] + [user];
    NameAppended([first], last);
    NameAppended([first] + [last], user);
  }

  lemma ThreeMentions(first: Package, last: Package, user: Package, lib: Text, dir: Text, dep: Text)
    requires InternalDependencyBlocks(first.manifest) == InternalDependencyBlocks(last.manifest) == []
    requires forall d :: d in InternalDependencyBlocks(user.manifest) <==> d == lib
    ensures Mentions([first, last, user], dir, dep) <==> dir == user.dirName && dep == lib
  {
    hide InternalDependencyBlocks;
    var all := [first, last, user];
    assert user in all;
    assert forall p :: p in all ==> p in {first, last, user};
  }

  /** The user depends on the `lib` listed last, and that is the only edge. */
  lemma LastLibWins(first: Package, last: Package, user: Package, lib: Text)
    requires first.manifest.name == last.manifest.name == lib != user.manifest.name
    requires InternalDependencyBlocks(first.manifest) == InternalDependencyBlocks(last.manifest) == []
    requires forall dep :: dep in InternalDependencyBlocks(user.manifest) <==> dep == lib
    requires last.dirName != [] && user.dirName != last.dirName
    ensures var g := PublishGraph([first, last, user]);
      && g.Keys == {first.dirName, last.dirName, user.dirName}
      && forall d, e :: d in g ==> (e in g[d] <==> d == user.dirName && e == last.dirName)
  {
    var g := PublishGraph([first, last, user]);
    ThreeDirs(first, last, user);
    ThreeNames(first, last, user, lib);
    forall d, e | d in g ensures e in g[d] <==> d == user.dirName && e == last.dirName {
      EdgeIff([first, last, user], d, e);
      forall dep ensures Mentions([first, last, user], d, dep) <==> d == user.dirName && dep == lib {
        ThreeMentions(first, last, user, lib, d, dep);
      }
      hide PublishGraph, Mentions, NameToDirName, InternalDependencyBlocks;
      assert e in g[d] ==> d == user.dirName && e == last.dirName;
      assert d == user.dirName && e == last.dirName ==> Mentions([first, last, user], d, lib);
    }
  }

  lemma LeastOfThree(g: Graph, a: Text, b: Text, c: Text)
    requires Less(a, b) && Less(b, c) && g.Keys == {a, b, c}
    requires g[a] == {} && g[b] <= {a} && g[c] <= {a, b}
    ensures LeastTopoOrder(g, [a, b, c])
  {
    LessTrichotomy(a, b);
    LessTrichotomy(b, c);
    LessTransitive(a, b, c);
    LessTrichotomy(a, c);
    var o := [a, b, c];
    assert o[..0] == [] && o[..1] == [a] && o[..2] == [a, b];
    assert Elements<Text>([]) == {} && Elements([a]) == {a} && Elements([a, b]) == {a, b} && Elements(o) == {a, b, c};
    assert TopoOrder(g, o);
    assert Greedy(g, o);
    GreedyIsLeast(g, o);
  }

  lemma LeastWithLateMiddle(g: Graph, a: Text, b: Text, c: Text)
    requires Less(a, b) && Less(b, c) && g.Keys == {a, b, c}
    requires g[a] == {} && g[b] == {c} && g[c] == {}
    ensures LeastTopoOrder(g, [a, c, b])
  {
    LessTrichotomy(a, b);
    LessTrichotomy(b, c);
    LessTransitive(a, b, c);
    LessTrichotomy(a, c);
    var o := [a, c, b];
    assert o[..0] == [] && o[..1] == [a] && o[..2] == [a, c];
    assert Elements<Text>([]) == {} && Elements([a]) == {a} && Elements([a, c]) == {a, c} && Elements(o) == {a, b, c};
    assert TopoOrder(g, o);
    assert Greedy(g, o);
    GreedyIsLeast(g, o);
  }

  /**
   * With directories p < user < q, the order in which the two `lib`s are listed decides whether the user goes before q.
   */
  method PublishBothWays(p: Package, q: Package, user: Package, lib: Text) returns (x: Outcome, y: Outcome)
    requires p.manifest.name == q.manifest.name == lib != user.manifest.name
    requires InternalDependencyBlocks(p.manifest) == InternalDependencyBlocks(q.manifest) == []
    requires forall dep :: dep in InternalDependencyBlocks(user.manifest) <==> dep == lib
    requires p.dirName != [] && Less(p.dirName, user.dirName) && Less(user.dirName, q.dirName)
    ensures Rearranged([p, q, user], [q, p, user])
    ensures x == Order([p.dirName, q.dirName, user.dirName]) && y == Order([p.dirName, user.dirName, q.dirName])
  {
    hide PublishGraph, InternalDependencyBlocks, LeastTopoOrder, DirNames, NoDup, Rearranged;
    OrderedDirs(p, q, user);
    SwapRearranges(p, q, user);
    LastLibWins(p, q, user, lib);
    LastLibWins(q, p, user, lib);
    LeastWithLateMiddle(PublishGraph([p, q, user]), p.dirName, user.dirName, q.dirName);
    LeastOfThree(PublishGraph([q, p, user]), p.dirName, user.dirName, q.dirName);
    x := PublishThree([p, q, user], [p.dirName, q.dirName, user.dirName]);
    y := PublishThree([q, p, user], [p.dirName, user.dirName, q.dirName]);
  }

  lemma SwapRearranges(p: Package, q: Package, user: Package)
    ensures Rearranged([p, q, user], [q, p, user])
  {
  }

  lemma OrderedDirs(p: Package, q: Package, user: Package)
    requires p.dirName != [] && Less(p.dirName, user.dirName) && Less(user.dirName, q.dirName)
    ensures user.dirName !in {p.dirName, q.dirName} && q.dirName != []
    ensures NoDup(DirNames([p, q, user])) && [] !in DirNames([p, q, user])
    ensures NoDup(DirNames([q, p, user])) && [] !in DirNames([q, p, user])
  {
    LessTrichotomy(p.dirName, user.dirName);
    LessTrichotomy(user.dirName, q.dirName);
    LessTransitive(p.dirName, user.dirName, q.dirName);
    LessTrichotomy(p.dirName, q.dirName);
    assert DirNames([p, q, user]) == [p.dirName, q.dirName, user.dirName];
    assert DirNames([q, p, user]) == [q.dirName, p.dirName, user.dirName];
  }

  method PublishThree(packages: seq<Package>, expected: seq<Text>) returns (r: Outcome)
    requires LeastTopoOrder(PublishGraph(packages), expected) && NoDup(DirNames(packages)) && [] !in DirNames(packages)
    ensures r == Order(expected)
  {
    TopoOrderAcyclic(PublishGraph(packages), expected);
    hide PublishGraph, LeastTopoOrder, Acyclic, CycleSet, NoDup;
    r := ComputePublishOrder(packages);
    LeastUnique(PublishGraph(packages), r.order, expected);
  }

  /** Two arrangements of the same packages, without harmful names: the same result, whatever the directories. */
  method PublishRearranged(a: seq<Package>, b: seq<Package>) returns (x: Outcome, y: Outcome)
    requires Rearranged(a, b) && HarmlessNames(a)
    ensures x == y
  {
    hide PublishGraph, HarmlessNames, LeastTopoOrder, Acyclic, CycleSet, NoDup, Sorted, Drained, LeftOver;
    HarmlessIsOrderFree(a, b);
    SameDirectories(a, b);
    x := ComputePublishOrder(a);
    y := ComputePublishOrder(b);
    if x.Order? {
      LeastUnique(PublishGraph(a), x.order, y.order);
    } else {
      ghost var o :| Drained(PublishGraph(a), o) && LeftOver(DirNames(a), o, x.unresolved);
      ghost var o' :| Drained(PublishGraph(b), o') && LeftOver(DirNames(b), o', y.unresolved);
      DrainedUnique(PublishGraph(a), o, o');
      SameLeftOver(DirNames(a), DirNames(b), o, x.unresolved, y.unresolved);
      SortedUnique(x.unresolved, y.unresolved);
    }
  }

  /** With distinct manifest names the result depends only on which packages there are. */
  method PublishDistinctNames(a: seq<Package>, b: seq<Package>) returns (x: Outcome, y: Outcome)
    requires Rearranged(a, b) && DistinctNames(a)
    ensures x == y
  {
    hide *;
    DistinctNamesAreHarmless(a);
    x, y := PublishRearranged(a, b);
  }

  lemma SameLeftOver(a: seq<Text>, b: seq<Text>, o: seq<Text>, x: seq<Text>, y: seq<Text>)
    requires multiset(a) == multiset(b) && LeftOver(a, o, x) && LeftOver(b, o, y)
    ensures multiset(x) == multiset(y)
  {
  }

  lemma SameDirectories(a: seq<Package>, b: seq<Package>)
    requires Rearranged(a, b)
    ensures multiset(DirNames(a)) == multiset(DirNames(b))
    ensures [] in DirNames(a) <==> [] in DirNames(b)
    ensures NoDup(DirNames(a)) <==> NoDup(DirNames(b))
  {
    SameDirMultiset(a, b);
    SameElements(DirNames(a), DirNames(b));
    SameElements(DirNames(b), DirNames(a));
    assert [] in Elements(DirNames(a)) <==> [] in DirNames(a);
    assert [] in Elements(DirNames(b)) <==> [] in DirNames(b);
  }

  lemma DirNamesRemoveAt(b: seq<Package>, i: nat)
    requires i < |b|
    ensures multiset(DirNames(b)) == multiset(DirNames(b[..i] + b[i + 1..])) + multiset{b[i].dirName}
  {
    var dirs := DirNames(b);
    assert DirNames(b[..i] + b[i + 1..]) == dirs[..i] + dirs[i + 1..];
    assert dirs == dirs[..i] + [b[i].dirName] + dirs[i + 1..];
  }

  lemma FirstOccurs(a: seq<Package>, b: seq<Package>) returns (i: nat)
    requires Rearranged(a, b) && a != []
    ensures i < |b| && b[i] == a[0] && Rearranged(a[1..], b[..i] + b[i + 1..])
  {
    assert a[0] in multiset(b);
    i :| 0 <= i < |b| && b[i] == a[0];
    RemoveAt(b, i);
    TailMultiset(a);
  }

  lemma {:induction false} SameDirMultiset(a: seq<Package>, b: seq<Package>)
    requires Rearranged(a, b)
    ensures multiset(DirNames(a)) == multiset(DirNames(b))
    decreases |a|
  {
    if a == [] {
      assert |multiset(b)| == 0;
    } else {
      hide *;
      var i := FirstOccurs(a, b);
      SameDirMultiset(a[1..], b[..i] + b[i + 1..]);
      PutBack(a, b, i);
    }
  }

  lemma PutBack(a: seq<Package>, b: seq<Package>, i: nat)
    requires a != [] && i < |b| && b[i] == a[0]
    requires multiset(DirNames(a[1..])) == multiset(DirNames(b[..i] + b[i + 1..]))
    ensures multiset(DirNames(a)) == multiset(DirNames(b))
  {
    hide *;
    DirNamesRemoveAt(b, i);
    DirNamesRemoveAt(a, 0);
    assert a[..0] + a[1..] == a[1..];
  }
}
