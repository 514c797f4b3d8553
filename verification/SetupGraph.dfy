/**
The check of the repositories' setup dependencies: every dependency names another
configured repository, and a depth-first search reports cycles. `visiting` holds the
repositories on the current path and `visited` the finished ones.
*/
module SetupGraph {

  type Graph = map<string, seq<string>>

  datatype Diagnostic = SelfDependency(id: string) | MissingDependency(id: string) | DependencyCycle(id: string)

  // ---------------------------------------------------------------- what is meant

  ghost predicate Edge(g: Graph, u: string, v: string) {
    u in g && v in g && v in g[u]
  }

  ghost predicate Path(g: Graph, p: seq<string>) {
    p != [] && forall k | 0 <= k < |p| - 1 :: Edge(g, p[k], p[k + 1])
  }

  /** A closed walk along at least one dependency. */
  ghost predicate Cycle(g: Graph, p: seq<string>) {
    |p| >= 2 && Path(g, p) && p[0] == p[|p| - 1]
  }

  ghost predicate OnCycle(g: Graph, v: string) {
    exists p :: Cycle(g, p) && p[0] == v
  }

  /** Every dependency names another configured repository. */
  ghost predicate WellNamed(g: Graph) {
    forall u, v | u in g && v in g[u] :: v != u && v in g
  }

  /** All repositories, each after the configured repositories it depends on. */
  ghost predicate SetupOrder(g: Graph, order: seq<string>) {
    && SameElements(g.Keys, order)
    && (forall i, j | 0 <= i < j < |order| :: order[i] != order[j])
    && (forall i, v | 0 <= i < |order| && Edge(g, order[i], v) :: v in order[..i])
  }

  // ------------------------------------------------------------- what a search finds

  /** A dependency finished before what depends on it, or was reported. */
  ghost predicate Finished(g: Graph, order: seq<string>, found: seq<Diagnostic>) {
    && (forall i | 0 <= i < |order| :: order[i] in g)
    && (forall i, j | 0 <= i < j < |order| :: order[i] != order[j])
    && (forall i, v | 0 <= i < |order| && Edge(g, order[i], v) :: v in order[..i] || DependencyCycle(v) in found)
  }

  /** Every reported cycle is one. */
  ghost predicate Honest(g: Graph, found: seq<Diagnostic>) {
    forall d | d in found && d.DependencyCycle? :: OnCycle(g, d.id)
  }

  /** Along unreported repositories of a walk the finishing position goes down. */
  lemma {:induction false} WalkDescends(g: Graph, order: seq<string>, found: seq<Diagnostic>, p: seq<string>, i: nat)
    requires Finished(g, order, found) && Path(g, p)
    requires i < |order| && order[i] == p[0]
    requires forall k | 0 < k < |p| :: DependencyCycle(p[k]) !in found
    ensures |p| > 1 ==> p[|p| - 1] in order[..i]
    decreases |p|
  {
    if |p| > 1 {
      assert Edge(g, p[0], p[1]);
      assert p[1] in order[..i];
      var j :| 0 <= j < i && order[j] == p[1];
      WalkDescends(g, order, found, p[1..], j);
      assert order[..j] <= order[..i] && p[1..][|p| - 2] == p[|p| - 1];
    }
  }

  /** Once the search has finished everything, each cycle has a reported repository on it. */
  lemma CyclesReported(g: Graph, order: seq<string>, found: seq<Diagnostic>, p: seq<string>)
    requires Finished(g, order, found) && (forall u :: u in g ==> u in order)
    requires Cycle(g, p)
    ensures exists k :: 0 < k < |p| && DependencyCycle(p[k]) in found
  {
    if forall k | 0 < k < |p| :: DependencyCycle(p[k]) !in found {
      assert Edge(g, p[0], p[1]);
      var i :| 0 <= i < |order| && order[i] == p[0];
      WalkDescends(g, order, found, p, i);
    }
  }

  /** In a graph with a setup order nothing lies on a cycle. */
  lemma OrderExcludesCycles(g: Graph, order: seq<string>, v: string)
    requires SetupOrder(g, order)
    ensures !OnCycle(g, v)
  {
    if OnCycle(g, v) {
      var p :| Cycle(g, p) && p[0] == v;
      CyclesReported(g, order, [], p);
    }
  }

  // ------------------------------------------------------------------- the search

  class Search {
    const g: Graph
    var visiting: set<string>
    var visited: set<string>
    var diagnostics: seq<Diagnostic>
    /** The visited repositories in the order they were finished. */
    ghost var order: seq<string>

    constructor (g: Graph)
      ensures this.g == g && visiting == {} && visited == {} && diagnostics == [] && order == []
    {
      this.g := g;
      visiting, visited, diagnostics := {}, {}, [];
      order := [];
    }

    ghost predicate Valid()
      reads this
    {
      && SameElements(visited, order)
      && Finished(g, order, diagnostics) && Honest(g, diagnostics)
      && visiting <= g.Keys && visited !! visiting
    }

    /** The search is done with `v`, or has reported it. */
    ghost predicate Settled(v: string)
      reads this
    {
      v in visited || DependencyCycle(v) in diagnostics
    }

    /** `path` leads from a root of the search to the repository now entered. */
    method Visit(id: string, ghost path: seq<string>)
      requires Valid() && id in g && SameElements(visiting, path) && Path(g, path + [id])
      modifies this
      ensures Valid() && visiting == old(visiting) && old(visited) <= visited
      ensures OnlyCyclesAdded(old(diagnostics), diagnostics)
      ensures Settled(id) && (id !in old(visiting) ==> id in visited)
      decreases |g.Keys - visiting|, 1, 0
    {
      if id in visited { return; }
      if id in visiting {
        CycleFound(g, path, id);
        Report(g, order, diagnostics, id);
        diagnostics := diagnostics + [DependencyCycle(id)];
        return;
      }
      visiting := visiting + {id};
      Smaller(g.Keys - visiting, g.Keys - old(visiting), id);
      ghost var here := path + [id];
      assert SameElements(visiting, here) by { assert forall u :: u in here <==> u in path || u == id; }
      VisitAll(id, g[id], here);
      Leave(id);
      assert visiting == old(visiting);
    }

    /** The dependencies of `id` are done, so `id` is. */
    method Leave(id: string)
      requires Valid() && id in g && id in visiting
      requires forall v | v in g[id] && v in g :: Settled(v)
      modifies this
      ensures Valid() && visiting == old(visiting) - {id} && visited == old(visited) + {id}
      ensures diagnostics == old(diagnostics)
    {
      Finish(g, order, diagnostics, id);
      visiting := visiting - {id};
      visited := visited + {id};
      order := order + [id];
    }

    /** The loop over the dependencies of `id`, from those still to be visited. */
    method VisitAll(id: string, dependsOn: seq<string>, ghost path: seq<string>)
      requires Valid() && id in g && (forall v | v in dependsOn :: v in g[id])
      requires SameElements(visiting, path) && Path(g, path) && path[|path| - 1] == id
      modifies this
      ensures Valid() && visiting == old(visiting) && old(visited) <= visited
      ensures OnlyCyclesAdded(old(diagnostics), diagnostics)
      ensures forall v | v in dependsOn && v in g :: Settled(v)
      decreases |g.Keys - visiting|, 2, |dependsOn|
    {
      for k := 0 to |dependsOn|
        invariant Valid() && visiting == old(visiting) && old(visited) <= visited
        invariant OnlyCyclesAdded(old(diagnostics), diagnostics)
        invariant forall j | 0 <= j < k && dependsOn[j] in g :: Settled(dependsOn[j])
      {
        if dependsOn[k] in g {
          PathExtends(g, path, dependsOn[k]);
          ghost var before := diagnostics;
          Visit(dependsOn[k], path);
          PrefixKeeps(old(diagnostics), before, diagnostics);
        }
      }
    }
  }

  lemma PathExtends(g: Graph, path: seq<string>, v: string)
    requires Path(g, path) && path[|path| - 1] in g && v in g[path[|path| - 1]] && v in g
    ensures Path(g, path + [v])
  {
    var more := path + [v];
    forall k | 0 <= k < |more| - 1 ensures Edge(g, more[k], more[k + 1]) {
      if k < |path| - 1 { assert Edge(g, path[k], path[k + 1]); }
    }
  }

  ghost predicate OnlyCyclesAdded(found: seq<Diagnostic>, more: seq<Diagnostic>) {
    found <= more && forall k | |found| <= k < |more| :: more[k].DependencyCycle?
  }

  lemma PrefixKeeps(first: seq<Diagnostic>, found: seq<Diagnostic>, more: seq<Diagnostic>)
    requires OnlyCyclesAdded(first, found) && OnlyCyclesAdded(found, more)
    ensures OnlyCyclesAdded(first, more) && forall d | d in found :: d in more
  {
    assert forall k | 0 <= k < |found| :: found[k] == more[k];
  }

  ghost predicate SameElements(s: set<string>, p: seq<string>) {
    forall u :: u in s <==> u in p
  }

  lemma Report(g: Graph, order: seq<string>, found: seq<Diagnostic>, id: string)
    requires Finished(g, order, found) && Honest(g, found) && OnCycle(g, id)
    ensures Finished(g, order, found + [DependencyCycle(id)]) && Honest(g, found + [DependencyCycle(id)])
    ensures DependencyCycle(id) in found + [DependencyCycle(id)]
  {
    var more := found + [DependencyCycle(id)];
    assert forall d | d in found :: d in more;
    assert more[|found|] == DependencyCycle(id);
  }

  lemma Finish(g: Graph, order: seq<string>, found: seq<Diagnostic>, id: string)
    requires Finished(g, order, found) && id in g && id !in order
    requires forall v | v in g[id] && v in g :: v in order || DependencyCycle(v) in found
    ensures Finished(g, order + [id], found)
  {
    var more := order + [id];
    forall i, v | 0 <= i < |more| && Edge(g, more[i], v) ensures v in more[..i] || DependencyCycle(v) in found {
      if i < |order| {
        assert order[i] == more[i] && more[..i] == order[..i];
      } else {
        assert more[..i] == order;
      }
    }
  }

  lemma Smaller<T>(a: set<T>, b: set<T>, x: T)
    requires a <= b && x in b && x !in a
    ensures |a| < |b|
  {
    Fewer(a, b - {x});
  }

  lemma {:induction false} Fewer<T>(a: set<T>, b: set<T>)
    requires a <= b
    ensures |a| <= |b|
  {
    if a != {} {
      var x :| x in a;
      Fewer(a - {x}, b - {x});
    }
  }

  /** Coming back to a repository of the path closes a cycle. */
  lemma CycleFound(g: Graph, path: seq<string>, id: string)
    requires Path(g, path + [id]) && id in path
    ensures OnCycle(g, id)
  {
    var k :| 0 <= k < |path| && path[k] == id;
    var p := (path + [id])[k..];
    forall j | 0 <= j < |p| - 1 ensures Edge(g, p[j], p[j + 1]) {
      assert p[j] == (path + [id])[k + j] && p[j + 1] == (path + [id])[k + j + 1];
    }
    assert Cycle(g, p) && p[0] == id;
  }

  // -------------------------------------------------------------------- the check

  /** What is wrong with the name `v` among the dependencies of `u`. */
  function NameProblem(g: Graph, u: string, v: string): seq<Diagnostic> {
    if v == u then [SelfDependency(u)] else if v !in g then [MissingDependency(u)] else []
  }

  ghost predicate BadName(g: Graph, d: Diagnostic) {
    exists u, v :: u in g && v in g[u] && d in NameProblem(g, u, v)
  }

  method NameDiagnostics(g: Graph, entries: seq<string>) returns (found: seq<Diagnostic>)
    requires SameElements(g.Keys, entries)
    ensures forall d :: d in found <==> BadName(g, d)
  {
    found := [];
    for i := 0 to |entries|
      invariant forall d | d in found :: BadName(g, d)
      invariant forall k, v | 0 <= k < i && v in g[entries[k]] :: NamedIn(g, entries[k], v, found)
    {
      var u := entries[i];
      ghost var before := found;
      var more := RepositoryNames(g, u, g[u]);
      found := found + more;
      assert forall k, v | 0 <= k < i && v in g[entries[k]] :: NamedIn(g, entries[k], v, before);
    }
    forall d | BadName(g, d) ensures d in found {
      var u, v :| u in g && v in g[u] && d in NameProblem(g, u, v);
      assert u in entries;
      var k :| 0 <= k < |entries| && entries[k] == u;
      assert NamedIn(g, entries[k], v, found);
    }
  }

  ghost predicate NamedIn(g: Graph, u: string, v: string, found: seq<Diagnostic>) {
    forall d | d in NameProblem(g, u, v) :: d in found
  }

  method RepositoryNames(g: Graph, u: string, dependsOn: seq<string>) returns (found: seq<Diagnostic>)
    requires u in g && forall v | v in dependsOn :: v in g[u]
    ensures forall d | d in found :: BadName(g, d)
    ensures forall v | v in dependsOn :: NamedIn(g, u, v, found)
  {
    found := [];
    for j := 0 to |dependsOn|
      invariant forall d | d in found :: BadName(g, d)
      invariant forall k | 0 <= k < j :: NamedIn(g, u, dependsOn[k], found)
    {
      found := found + NameProblem(g, u, dependsOn[j]);
    }
  }

  /** The search over all repositories, started with what was already found. */
  method FindCycles(g: Graph, sorted: seq<string>, found: seq<Diagnostic>)
    returns (all: seq<Diagnostic>, ghost order: seq<string>)
    requires SameElements(g.Keys, sorted) && forall d | d in found :: !d.DependencyCycle?
    ensures OnlyCyclesAdded(found, all) && Honest(g, all) && Finished(g, order, all) && SameElements(g.Keys, order)
  {
    var search := new Search(g);
    search.diagnostics := found;
    for i := 0 to |sorted|
      invariant search.Valid() && search.g == g && search.visiting == {} && OnlyCyclesAdded(found, search.diagnostics)
      invariant forall k | 0 <= k < i :: sorted[k] in search.visited
    {
      ghost var before := search.diagnostics;
      search.Visit(sorted[i], []);
      PrefixKeeps(found, before, search.diagnostics);
    }
    all, order := search.diagnostics, search.order;
    assert forall u | u in g :: u in sorted;
  }

  /**
  Nothing is reported exactly when every dependency names another configured repository and there is a setup
  order. Each reported cycle is one, and each cycle has a reported repository on it.
  */
  method SetupGraphDiagnostics(g: Graph, entries: seq<string>, sorted: seq<string>)
    returns (diagnostics: seq<Diagnostic>)
    requires SameElements(g.Keys, entries) && SameElements(g.Keys, sorted)
    ensures diagnostics == [] <==> WellNamed(g) && exists order :: SetupOrder(g, order)
    ensures forall d: Diagnostic | !d.DependencyCycle? :: d in diagnostics <==> BadName(g, d)
    ensures Honest(g, diagnostics)
    ensures forall p | Cycle(g, p) :: exists k :: 0 < k < |p| && DependencyCycle(p[k]) in diagnostics
  {
    var names := NameDiagnostics(g, entries);
    ghost var order;
    diagnostics, order := FindCycles(g, sorted, names);
    forall p | Cycle(g, p) ensures exists k :: 0 < k < |p| && DependencyCycle(p[k]) in diagnostics {
      CyclesReported(g, order, diagnostics, p);
    }
    AddedNames(names, diagnostics);
    NothingReported(g, order, diagnostics);
  }

  lemma AddedNames(names: seq<Diagnostic>, all: seq<Diagnostic>)
    requires OnlyCyclesAdded(names, all)
    ensures forall d: Diagnostic | !d.DependencyCycle? :: d in all <==> d in names
  {
    assert forall k | 0 <= k < |names| :: names[k] == all[k];
  }

  lemma WellNamedExactly(g: Graph)
    ensures WellNamed(g) <==> forall d :: !BadName(g, d)
    ensures forall d | BadName(g, d) :: !d.DependencyCycle?
  {
    if !WellNamed(g) {
      var u, v :| u in g && v in g[u] && (v == u || v !in g);
      var d := NameProblem(g, u, v)[0];
      assert d in NameProblem(g, u, v);
      assert BadName(g, d);
    }
  }

  lemma NothingReported(g: Graph, order: seq<string>, all: seq<Diagnostic>)
    requires Finished(g, order, all) && SameElements(g.Keys, order) && Honest(g, all)
    requires forall d: Diagnostic | !d.DependencyCycle? :: d in all <==> BadName(g, d)
    ensures all == [] <==> WellNamed(g) && exists order :: SetupOrder(g, order)
  {
    WellNamedExactly(g);
    if all == [] {
      assert forall d :: d !in all;
      forall i, v | 0 <= i < |order| && Edge(g, order[i], v) ensures v in order[..i] {
        assert DependencyCycle(v) !in all;
      }
      assert SetupOrder(g, order);
    }
    if o :| SetupOrder(g, o) {
      forall v ensures !OnCycle(g, v) { OrderExcludesCycles(g, o, v); }
      assert all != [] ==> all[0] in all;
    }
  }
}
