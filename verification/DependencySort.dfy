/** The registry's module sort: a depth-first walk that appends a module after the
    modules it depends on. Dependencies on absent modules are passed over. */
module DependencySort {
  import opened Outcomes
  import opened DepthFirst
  import opened Ordering

  datatype Dependency = Dependency(id: string, versionConstraint: string, required: bool)

  datatype Lifecycle = Lifecycle(install: string, uninstall: string, upgrade: string, rollback: string,
                                 destructiveCheck: string)

  datatype Module = Module(id: string, version: string, dependencies: seq<Dependency>, lifecycle: Lifecycle)

  datatype SortError = DuplicateId(id: string) | DependencyCycle(id: string)

  // --- what is promised --------------------------------------------------------------------------

  ghost predicate DistinctIds(modules: seq<Module>) {
    forall i, j :: 0 <= i < j < |modules| ==> modules[i].id != modules[j].id
  }

  function Ids(modules: seq<Module>): (ids: seq<string>)
    ensures |ids| == |modules| && forall i :: 0 <= i < |ids| ==> ids[i] == modules[i].id
  {
    seq(|modules|, i requires 0 <= i < |modules| => modules[i].id)
  }

  /** Every dependency that is present comes earlier. */
  ghost predicate DependenciesFirst(modules: seq<Module>) {
    forall i :: 0 <= i < |modules| ==> PrecededByDependencies(modules, i)
  }

  ghost predicate PrecededByDependencies(modules: seq<Module>, i: nat)
    requires i < |modules|
  {
    forall d :: d in modules[i].dependencies && d.id in Ids(modules) ==> d.id in Ids(modules[..i])
  }

  /** a and b are in the list and a depends on b. */
  ghost predicate DependsOn(modules: seq<Module>, a: string, b: string) {
    b in Ids(modules) && exists m, d :: m in modules && m.id == a && d in m.dependencies && d.id == b
  }

  /** A chain of dependencies that comes back to its start. */
  ghost predicate HasCycle(modules: seq<Module>) {
    exists p: seq<string> :: IsDependencyLoop(modules, p)
  }

  ghost predicate IsDependencyLoop(modules: seq<Module>, p: seq<string>) {
    |p| > 1 && p[0] == p[|p| - 1] && forall i :: 0 < i < |p| ==> DependsOn(modules, p[i - 1], p[i])
  }

  // --- the graph the walk runs on ----------------------------------------------------------------

  const ById: Dependency -> string := (d: Dependency) => d.id

  function SortedById(dependencies: seq<Dependency>): seq<Dependency> {
    StableSort(dependencies, ById)
  }

  function Present(dependencies: seq<Dependency>, ids: set<string>): seq<string> {
    if dependencies == [] then []
    else (if dependencies[0].id in ids then [dependencies[0].id] else []) + Present(dependencies[1..], ids)
  }

  lemma {:induction false} PresentMembers(dependencies: seq<Dependency>, ids: set<string>)
    ensures forall id :: id in Present(dependencies, ids) <==> id in ids && exists d :: d in dependencies && d.id == id
  {
    if dependencies != [] {
      PresentMembers(dependencies[1..], ids);
      assert dependencies == [dependencies[0]] + dependencies[1..];
    }
  }

  function GraphOf(byId: map<string, Module>): Graph {
    map id | id in byId :: Present(SortedById(byId[id].dependencies), byId.Keys)
  }

  lemma GraphEdges(byId: map<string, Module>, a: string, b: string)
    requires a in byId
    ensures b in GraphOf(byId)[a] <==> b in byId && exists d :: d in byId[a].dependencies && d.id == b
  {
    PresentMembers(SortedById(byId[a].dependencies), byId.Keys);
    StableSortSorts(byId[a].dependencies, ById);
  }

  lemma GraphIsClosed(byId: map<string, Module>)
    ensures Closed(GraphOf(byId))
  {
    forall a, b | a in byId && b in GraphOf(byId)[a] ensures b in byId {
      GraphEdges(byId, a, b);
    }
  }

  lemma IdsAppend(modules: seq<Module>, m: Module)
    ensures Ids(modules + [m]) == Ids(modules) + [m.id]
  {
  }

  lemma PresentOfNone(ids: set<string>)
    ensures Present([], ids) == []
  {
  }

  lemma PresentStep(dependencies: seq<Dependency>, ids: set<string>, i: nat)
    requires i < |dependencies|
    ensures Present(dependencies[i..], ids) ==
            if dependencies[i].id in ids then [dependencies[i].id] + Present(dependencies[i + 1..], ids)
            else Present(dependencies[i + 1..], ids)
  {
    assert dependencies[i..][1..] == dependencies[i + 1..];
  }

  // --- the walk ------------------------------------------------------------------------------------

  /** The closure's captured variables; 'graph' is the dependency graph it walks. */
  class Sorter {
    const byId: map<string, Module>
    ghost const graph: Graph
    var visited: set<string>
    var visiting: set<string>
    var sorted: seq<Module>

    ghost predicate Valid()
      reads this
    {
      && graph.Keys == byId.Keys && Closed(graph)
      && (forall id :: id in byId ==>
          byId[id].id == id && graph[id] == Present(SortedById(byId[id].dependencies), byId.Keys))
      && (forall id :: id in visited <==> id in Ids(sorted))
      && (forall m :: m in sorted ==> m.id in byId && m == byId[m.id])
      && visiting <= byId.Keys
    }

    constructor (byId: map<string, Module>)
      requires forall id :: id in byId ==> byId[id].id == id
      ensures Valid() && this.byId == byId && graph == GraphOf(byId) && visiting == {} && sorted == []
    {
      this.byId, graph := byId, GraphOf(byId);
      visited, visiting, sorted := {}, {}, [];
      GraphIsClosed(byId);
    }

    /** The walk from one module is Visit on the dependency graph; it ends because each
        nested call has one more module marked as being visited. */
    method VisitModule(current: Module) returns (failure: Option<SortError>)
      requires Valid() && current.id in byId && byId[current.id] == current
      modifies this
      ensures failure.Some? ==>
              failure.value.DependencyCycle? && Visit(graph, current.id, old(visiting), Ids(old(sorted))) == None
      ensures failure.None? ==>
                && Valid() && visiting == old(visiting)
                && Visit(graph, current.id, old(visiting), Ids(old(sorted))) == Some(Ids(sorted))
      decreases byId.Keys - visiting, 0
    {
      hide Present, SortedById, VisitAll;
      var id := current.id;
      if id in visited {
        return None;
      }
      if id in visiting {
        return Some(DependencyCycle(id));
      }
      visiting := visiting + {id};
      failure := VisitDependencies(SortedById(current.dependencies));
      if failure.Some? {
        return;
      }
      visiting := visiting - {id};
      visited := visited + {id};
      IdsAppend(sorted, current);
      sorted := sorted + [current];
      assert visiting == old(visiting);
    }

    /** The closure's loop over the sorted dependencies of one module. */
    method VisitDependencies(dependencies: seq<Dependency>) returns (failure: Option<SortError>)
      requires Valid() && forall n :: n in Present(dependencies, byId.Keys) ==> n in graph
      modifies this
      ensures failure.Some? ==>
                failure.value.DependencyCycle? && VisitAll(graph, Present(dependencies, byId.Keys), old(visiting),
                                                           Ids(old(sorted))) == None
      ensures failure.None? ==>
                && Valid() && visiting == old(visiting)
                && VisitAll(graph, Present(dependencies, byId.Keys), old(visiting), Ids(old(sorted))) ==
                   Some(Ids(sorted))
      decreases byId.Keys - visiting, 1
    {
      hide Present, SortedById, VisitAll, Visit, Closed;
      assert dependencies[0..] == dependencies;
      for i := 0 to |dependencies|
        invariant Valid() && visiting == old(visiting)
        invariant forall n :: n in Present(dependencies[i..], byId.Keys) ==> n in graph
        invariant VisitAll(graph, Present(dependencies, byId.Keys), visiting, Ids(old(sorted)))
               == VisitAll(graph, Present(dependencies[i..], byId.Keys), visiting, Ids(sorted))
      {
        var d := dependencies[i];
        PresentStep(dependencies, byId.Keys, i);
        if d.id !in byId {
          continue;
        }
        VisitAllStep(graph, d.id, Present(dependencies[i + 1..], byId.Keys), visiting, Ids(sorted));
        var inner := VisitModule(byId[d.id]);
        if inner.Some? {
          return inner;
        }
      }
      assert dependencies[|dependencies|..] == [];
      PresentOfNone(byId.Keys);
      VisitNone(graph, visiting, Ids(sorted));
      return None;
    }

    /** The outer loop: walk from every module in turn. */
    method VisitListed(modules: seq<Module>) returns (failure: Option<SortError>)
      requires Valid() && forall m :: m in modules ==> m.id in byId && byId[m.id] == m
      requires forall n :: n in Ids(modules) ==> n in graph
      modifies this
      ensures failure.Some? ==>
                failure.value.DependencyCycle? && VisitAll(graph, Ids(modules), old(visiting), Ids(old(sorted))) == None
      ensures failure.None? ==>
                && Valid() && visiting == old(visiting)
                && VisitAll(graph, Ids(modules), old(visiting), Ids(old(sorted))) == Some(Ids(sorted))
    {
      hide Present, SortedById, VisitAll, Visit, Closed;
      ghost var roots := Ids(modules);
      assert roots[0..] == roots;
      for i := 0 to |modules|
        invariant Valid() && visiting == old(visiting)
        invariant forall n :: n in roots[i..] ==> n in graph
        invariant VisitAll(graph, roots, visiting, Ids(old(sorted))) ==
                  VisitAll(graph, roots[i..], visiting, Ids(sorted))
      {
        assert roots[i..] == [modules[i].id] + roots[i + 1..];
        VisitAllStep(graph, modules[i].id, roots[i + 1..], visiting, Ids(sorted));
        failure := VisitModule(modules[i]);
        if failure.Some? {
          return;
        }
      }
      assert roots[|modules|..] == [];
      VisitNone(graph, visiting, Ids(sorted));
      return None;
    }
  }

  // --- the sort ------------------------------------------------------------------------------------

  ghost predicate Indexes(byId: map<string, Module>, modules: seq<Module>) {
    && (forall m :: m in modules ==> m.id in byId && byId[m.id] == m)
    && (forall id :: id in byId ==> byId[id].id == id && byId[id] in modules)
  }

  lemma IndexedIds(byId: map<string, Module>, modules: seq<Module>)
    requires Indexes(byId, modules)
    ensures forall id :: id in Ids(modules) <==> id in byId
  {
    forall id | id in byId ensures id in Ids(modules) {
      var i :| 0 <= i < |modules| && modules[i] == byId[id];
      assert Ids(modules)[i] == id;
    }
  }

  lemma DependsOnIsEdge(byId: map<string, Module>, modules: seq<Module>, a: string, b: string)
    requires Indexes(byId, modules)
    ensures DependsOn(modules, a, b) <==> a in byId && b in GraphOf(byId)[a]
  {
    IndexedIds(byId, modules);
    if a in byId { GraphEdges(byId, a, b); }
  }

  lemma LoopIsPath(byId: map<string, Module>, modules: seq<Module>, p: seq<string>)
    requires Indexes(byId, modules) && |p| > 1 && p[0] == p[|p| - 1]
    ensures IsDependencyLoop(modules, p) <==> IsPath(GraphOf(byId), p)
  {
    var g := GraphOf(byId);
    forall i | 0 < i < |p| ensures DependsOn(modules, p[i - 1], p[i]) <==> Edge(g, p[i - 1], p[i]) {
      DependsOnIsEdge(byId, modules, p[i - 1], p[i]);
    }
    GraphIsClosed(byId);
    if IsDependencyLoop(modules, p) {
      forall i | 0 <= i < |p| ensures p[i] in g {
        if i > 0 { assert Edge(g, p[i - 1], p[i]); } else { assert Edge(g, p[0], p[1]); }
      }
    }
  }

  lemma CycleIsGraphCycle(byId: map<string, Module>, modules: seq<Module>)
    requires Indexes(byId, modules)
    ensures HasCycle(modules) <==> Cyclic(GraphOf(byId))
  {
    if HasCycle(modules) {
      var p: seq<string> :| IsDependencyLoop(modules, p);
      LoopIsPath(byId, modules, p);
    }
    if Cyclic(GraphOf(byId)) {
      var p: seq<string> :| IsPath(GraphOf(byId), p) && |p| > 1 && p[0] == p[|p| - 1];
      LoopIsPath(byId, modules, p);
    }
  }

  /** On any listing of the indexed modules, graph order is dependency order. */
  lemma OrderIsDependenciesFirst(byId: map<string, Module>, listing: seq<Module>)
    requires Indexes(byId, listing)
    ensures Ordered(GraphOf(byId), Ids(listing)) <==> DistinctIds(listing) && DependenciesFirst(listing)
  {
    hide GraphOf, Indexes, PrecededByDependencies;
    IndexedIds(byId, listing);
    var g, ids := GraphOf(byId), Ids(listing);
    GraphKeys(byId);
    assert Distinct(ids) <==> DistinctIds(listing);
    forall i | 0 <= i < |listing|
      ensures PrecededByDependencies(listing, i) <==> forall m :: m in g[ids[i]] ==> m in ids[..i]
    {
      PrecededInGraph(byId, listing, i);
    }
  }

  lemma GraphKeys(byId: map<string, Module>)
    ensures GraphOf(byId).Keys == byId.Keys
  {
  }

  lemma PrecededInGraph(byId: map<string, Module>, listing: seq<Module>, i: nat)
    requires Indexes(byId, listing) && i < |listing|
    ensures listing[i].id in byId
    ensures PrecededByDependencies(listing, i) <==>
            forall m :: m in GraphOf(byId)[listing[i].id] ==> m in Ids(listing)[..i]
  {
    hide GraphOf;
    IndexedIds(byId, listing);
    GraphKeys(byId);
    assert listing[i] in listing;
    assert Ids(listing[..i]) == Ids(listing)[..i];
    forall b ensures b in GraphOf(byId)[listing[i].id] <==>
      b in Ids(listing) && exists d :: d in listing[i].dependencies && d.id == b {
      GraphEdges(byId, listing[i].id, b);
    }
  }

  lemma SameListing(a: seq<Module>, b: seq<Module>)
    requires DistinctIds(a) && DistinctIds(b) && forall m :: m in a <==> m in b
    ensures multiset(a) == multiset(b)
  {
    var id := (m: Module) => m.id;
    forall m ensures multiset(a)[m] == multiset(b)[m] {
      CountOfDistinctKeys(a, id, m);
      CountOfDistinctKeys(b, id, m);
    }
  }

  lemma SortedIsListing(byId: map<string, Module>, modules: seq<Module>, sorted: seq<Module>)
    requires Indexes(byId, modules)
    requires forall m :: m in sorted ==> m.id in byId && m == byId[m.id]
    requires forall id :: id in Ids(sorted) <==> id in byId
    ensures Indexes(byId, sorted) && forall m :: m in sorted <==> m in modules
  {
    forall id | id in byId ensures byId[id] in sorted {
      var i :| 0 <= i < |sorted| && Ids(sorted)[i] == id;
      assert sorted[i] == byId[id];
    }
  }

  lemma SameIdsSameListing(byId: map<string, Module>, a: seq<Module>, b: seq<Module>)
    requires Indexes(byId, a) && Indexes(byId, b) && Ids(a) == Ids(b)
    ensures a == b
  {
    forall i | 0 <= i < |a| ensures a[i] == b[i] {
      assert Ids(a)[i] == Ids(b)[i];
    }
  }

  ghost predicate IsRepeated(modules: seq<Module>, id: string) {
    exists i, j :: 0 <= i < j < |modules| && modules[i].id == id && modules[j].id == id
  }

  method IndexModules(modules: seq<Module>) returns (r: Result<map<string, Module>, SortError>)
    ensures r.Ok? <==> DistinctIds(modules)
    ensures r.Ok? ==> Indexes(r.value, modules)
    ensures r.Err? ==> r.error.DuplicateId? && IsRepeated(modules, r.error.id)
  {
    var byId: map<string, Module> := map[];
    for i := 0 to |modules|
      invariant Indexes(byId, modules[..i]) && DistinctIds(modules[..i])
    {
      assert modules[..i + 1] == modules[..i] + [modules[i]];
      IndexedIds(byId, modules[..i]);
      if modules[i].id in byId {
        var k :| 0 <= k < i && Ids(modules[..i])[k] == modules[i].id;
        assert modules[k].id == modules[i].id;
        return Err(DuplicateId(modules[i].id));
      }
      byId := byId[modules[i].id := modules[i]];
    }
    assert modules[..|modules|] == modules;
    return Ok(byId);
  }

  /** What the walk over all modules decides, in terms of the module list. */
  lemma WalkMeaning(byId: map<string, Module>, modules: seq<Module>)
    requires Indexes(byId, modules) && DistinctIds(modules)
    ensures Closed(GraphOf(byId)) && forall n :: n in Ids(modules) <==> n in GraphOf(byId)
    ensures VisitAll(GraphOf(byId), Ids(modules), {}, []) == None <==> HasCycle(modules)
    ensures DependenciesFirst(modules) ==> VisitAll(GraphOf(byId), Ids(modules), {}, []) == Some(Ids(modules))
  {
    GraphIsClosed(byId);
    IndexedIds(byId, modules);
    VisitAllDecidesCycles(GraphOf(byId), Ids(modules));
    CycleIsGraphCycle(byId, modules);
    OrderIsDependenciesFirst(byId, modules);
    if DependenciesFirst(modules) { OrderedRootsAreKept(GraphOf(byId), Ids(modules)); }
  }

  lemma WalkOutcome(byId: map<string, Module>, modules: seq<Module>, sorted: seq<Module>)
    requires Indexes(byId, modules) && DistinctIds(modules)
    requires forall m :: m in sorted ==> m.id in byId && m == byId[m.id]
    requires Closed(GraphOf(byId)) && (forall n :: n in Ids(modules) <==> n in GraphOf(byId))
    requires VisitAll(GraphOf(byId), Ids(modules), {}, []) == Some(Ids(sorted))
    ensures multiset(sorted) == multiset(modules) && DistinctIds(sorted) && DependenciesFirst(sorted)
    ensures Ids(sorted) == Ids(modules) ==> sorted == modules
  {
    VisitAllDecidesCycles(GraphOf(byId), Ids(modules));
    SortedIsListing(byId, modules, sorted);
    OrderIsDependenciesFirst(byId, sorted);
    SameListing(sorted, modules);
    if Ids(sorted) == Ids(modules) { SameIdsSameListing(byId, modules, sorted); }
  }

  /** The sequence of ids that the walk lists. */
  ghost predicate IsSortOf(modules: seq<Module>, sorted: seq<Module>) {
    exists byId :: Indexes(byId, modules) && Lists(byId, Ids(modules), Ids(sorted))
  }

  ghost predicate Lists(byId: map<string, Module>, roots: seq<string>, ids: seq<string>) {
    && Closed(GraphOf(byId)) && (forall n :: n in roots ==> n in GraphOf(byId))
    && VisitAll(GraphOf(byId), roots, {}, []) == Some(ids)
  }

  /** The same module with its dependencies, of distinct ids, listed in another order. */
  ghost predicate IsReordered(a: Module, b: Module) {
    && a.id == b.id && multiset(a.dependencies) == multiset(b.dependencies) && DistinctKeys(a.dependencies, ById)
  }

  lemma ReorderedSort(a: seq<Dependency>, b: seq<Dependency>)
    requires multiset(a) == multiset(b) && DistinctKeys(a, ById)
    ensures SortedById(a) == SortedById(b)
  {
    var x, y := SortedById(a), SortedById(b);
    StableSortSorts(a, ById);
    StableSortSorts(b, ById);
    DistinctKeysPermute(a, x, ById);
    DistinctKeysPermute(a, y, ById);
    SortedDistinctIsStrict(x, ById);
    SortedDistinctIsStrict(y, ById);
    SameElements(x, y);
    StrictListingIsUnique(x, y, ById);
  }

  /** The order in which modules list their dependencies does not matter to the sort. */
  lemma DependencyOrderIsIrrelevant(a: seq<Module>, b: seq<Module>, x: seq<Module>, y: seq<Module>)
    requires |a| == |b| && forall i :: 0 <= i < |a| ==> IsReordered(a[i], b[i])
    requires IsSortOf(a, x) && IsSortOf(b, y)
    ensures Ids(x) == Ids(y)
  {
    hide Indexes, Lists, GraphOf, IsReordered;
    var byA :| Indexes(byA, a) && Lists(byA, Ids(a), Ids(x));
    var byB :| Indexes(byB, b) && Lists(byB, Ids(b), Ids(y));
    SameIdsInOrder(a, b);
    IndexedIds(byA, a);
    IndexedIds(byB, b);
    assert byA.Keys == byB.Keys;
    forall id | id in byA ensures SortedById(byA[id].dependencies) == SortedById(byB[id].dependencies) {
      SameDependencies(byA, byB, a, b, id);
    }
    SameGraph(byA, byB);
    SameWalk(byA, byB, Ids(a), Ids(x), Ids(y));
  }

  lemma SameIdsInOrder(a: seq<Module>, b: seq<Module>)
    requires |a| == |b| && forall i :: 0 <= i < |a| ==> IsReordered(a[i], b[i])
    ensures Ids(a) == Ids(b)
  {
    forall i | 0 <= i < |a| ensures Ids(a)[i] == Ids(b)[i] { assert IsReordered(a[i], b[i]); }
  }

  lemma SameDependencies(byA: map<string, Module>, byB: map<string, Module>, a: seq<Module>, b: seq<Module>, id: string)
    requires Indexes(byA, a) && Indexes(byB, b) && id in byA && id in byB
    requires |a| == |b| && forall i :: 0 <= i < |a| ==> IsReordered(a[i], b[i])
    ensures SortedById(byA[id].dependencies) == SortedById(byB[id].dependencies)
  {
    hide SortedById, DistinctKeys;
    var i :| 0 <= i < |a| && a[i] == byA[id];
    assert IsReordered(a[i], b[i]) && b[i] in b;
    ReorderedSort(byA[id].dependencies, byB[id].dependencies);
  }

  lemma SameWalk(byA: map<string, Module>, byB: map<string, Module>, roots: seq<string>, x: seq<string>, y: seq<string>)
    requires GraphOf(byA) == GraphOf(byB) && Lists(byA, roots, x) && Lists(byB, roots, y)
    ensures x == y
  {
    hide GraphOf, VisitAll;
  }

  lemma SameGraph(a: map<string, Module>, b: map<string, Module>)
    requires a.Keys == b.Keys
    requires forall id :: id in a ==> SortedById(a[id].dependencies) == SortedById(b[id].dependencies)
    ensures GraphOf(a) == GraphOf(b)
  {
    hide SortedById, Present;
  }

  /** The sort fails exactly when an id repeats or the dependencies among the present
      modules have a cycle. Otherwise it returns a permutation with every present dependency
      first, and it returns a list that is already in order unchanged. */
  method SortModulesByDependencies(modules: seq<Module>) returns (r: Result<seq<Module>, SortError>)
    ensures r.Err? && r.error.DuplicateId? <==> !DistinctIds(modules)
    ensures r.Err? && r.error.DuplicateId? ==> IsRepeated(modules, r.error.id)
    ensures r.Ok? ==> IsSortOf(modules, r.value)
    ensures r.Err? <==> !DistinctIds(modules) || HasCycle(modules)
    ensures r.Ok? ==> multiset(r.value) == multiset(modules) && DistinctIds(r.value) && DependenciesFirst(r.value)
    ensures DistinctIds(modules) && DependenciesFirst(modules) ==> r == Ok(modules)
  {
    var index := IndexModules(modules);
    if index.Err? {
      return Err(index.error);
    }
    var byId := index.value;
    WalkMeaning(byId, modules);
    var sorter := new Sorter(byId);
    var failure := sorter.VisitListed(modules);
    if failure.Some? {
      return Err(failure.value);
    }
    WalkOutcome(byId, modules, sorter.sorted);
    return Ok(sorter.sorted);
  }

  /** A list already in dependency order has no cycle. */
  lemma OrderedListHasNoCycle(modules: seq<Module>)
    requires DistinctIds(modules) && DependenciesFirst(modules)
    ensures !HasCycle(modules)
  {
    var byId := map m | m in modules :: m.id := m;
    assert Indexes(byId, modules) by {
      forall m | m in modules ensures m.id in byId && byId[m.id] == m {
        assert forall n :: n in modules && n.id == m.id ==> n == m;
      }
    }
    WalkMeaning(byId, modules);
  }

  /** The cycle check the registry uses for validation. */
  method DetectDependencyCycle(modules: seq<Module>) returns (failure: Option<SortError>)
    ensures failure.Some? <==> !DistinctIds(modules) || HasCycle(modules)
  {
    var r := SortModulesByDependencies(modules);
    failure := if r.Err? then Some(r.error) else None;
  }
}
