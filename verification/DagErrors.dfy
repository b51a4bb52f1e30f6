/** The dependency check of litigation_lifecycle_validator.py: Kahn's algorithm, roots, and reachability. */
module DagErrors {
  import opened Collections
  import opened Digraph
  import opened Strings
  import CycleDetector

  datatype GraphError =
    | UnknownDependency(item: string, dependency: string)
    | SelfDependency(item: string)
    | CycleDetected
    | RootMustBeReferralPacket
    | UnreachableDocumentType

  // One occurrence of a known, proper dependency.
  datatype Edge = Edge(item: string, dependency: string)

  ghost function Nodes(ids: seq<string>): set<string> {
    set id | id in ids
  }

  // ---------- counting ----------

  ghost function Occurrences(s: seq<string>, x: string): nat {
    if s == [] then 0 else
    Occurrences(s[..|s| - 1], x) + if s[|s| - 1] == x then 1 else 0
  }

  /** How many edges of `item` have a dependency that is not yet visited. */
  ghost function OpenEdges(edges: seq<Edge>, visited: set<string>, item: string): nat {
    if edges == [] then 0 else
    var last := edges[|edges| - 1];
    OpenEdges(edges[..|edges| - 1], visited, item) + if last.item == item && last.dependency !in visited then 1 else 0
  }

  ghost function EdgesBetween(edges: seq<Edge>, item: string, dependency: string): nat {
    if edges == [] then 0 else
    EdgesBetween(edges[..|edges| - 1], item, dependency) + if edges[|edges| - 1] == Edge(item, dependency) then 1 else 0
  }

  lemma OccurrencesAppend(s: seq<string>, y: string, x: string)
    ensures Occurrences(s + [y], x) == Occurrences(s, x) + if y == x then 1 else 0
  {
    assert (s + [y])[..|s|] == s;
  }

  lemma EdgesAppend(edges: seq<Edge>, e: Edge, visited: set<string>, x: string, d: string)
    ensures OpenEdges(edges + [e], visited, x)
         == OpenEdges(edges, visited, x) + if e.item == x && e.dependency !in visited then 1 else 0
    ensures EdgesBetween(edges + [e], x, d) == EdgesBetween(edges, x, d) + if e == Edge(x, d) then 1 else 0
  {
    assert (edges + [e])[..|edges|] == edges;
  }

  lemma {:induction false} OccurrencesInMultiset(s: seq<string>, x: string)
    ensures Occurrences(s, x) == multiset(s)[x]
  {
    if s != [] {
      assert s == s[..|s| - 1] + [s[|s| - 1]];
      OccurrencesInMultiset(s[..|s| - 1], x);
    }
  }

  lemma {:induction false} OccurrencesPrefix(s: seq<string>, n: nat, x: string)
    requires n <= |s|
    ensures Occurrences(s[..n], x) <= Occurrences(s, x)
  {
    if n == |s| {
      assert s[..n] == s;
    } else {
      OccurrencesPrefix(s[..|s| - 1], n, x);
      assert s[..|s| - 1][..n] == s[..n];
    }
  }

  lemma {:induction false} OccursIffIn(s: seq<string>, x: string)
    ensures 0 < Occurrences(s, x) <==> x in s
  {
    if s != [] {
      OccursIffIn(s[..|s| - 1], x);
      assert s == s[..|s| - 1] + [s[|s| - 1]];
    }
  }

  lemma {:induction false} VisitClosesEdges(edges: seq<Edge>, visited: set<string>, d: string, x: string)
    requires d !in visited
    ensures OpenEdges(edges, visited, x) == OpenEdges(edges, visited + {d}, x) + EdgesBetween(edges, x, d)
  {
    if edges != [] {
      VisitClosesEdges(edges[..|edges| - 1], visited, d, x);
    }
  }

  lemma {:induction false} OpenMeansUnvisited(edges: seq<Edge>, visited: set<string>, x: string)
    ensures 0 < OpenEdges(edges, visited, x) <==> exists d :: Edge(x, d) in edges && d !in visited
  {
    if edges != [] {
      var last := edges[|edges| - 1];
      OpenMeansUnvisited(edges[..|edges| - 1], visited, x);
      assert edges == edges[..|edges| - 1] + [last];
      assert last.item == x ==> last == Edge(x, last.dependency);
    }
  }

  // ---------- building the tables ----------

  ghost predicate CountsOpen(nodes: set<string>, edges: seq<Edge>, visited: set<string>, indegree: map<string, int>) {
    indegree.Keys == nodes && forall x :: x in nodes ==> indegree[x] == OpenEdges(edges, visited, x)
  }

  ghost predicate ListsItems(nodes: set<string>, edges: seq<Edge>, outgoing: map<string, seq<string>>) {
    && outgoing.Keys == nodes
    && (forall d, x :: d in nodes ==> Occurrences(outgoing[d], x) == EdgesBetween(edges, x, d))
    && (forall d, x :: d in nodes && x in outgoing[d] ==> x in nodes)
  }

  lemma CountEdge(nodes: set<string>, edges: seq<Edge>, indegree: map<string, int>, e: Edge)
    requires CountsOpen(nodes, edges, {}, indegree) && e.item in nodes
    ensures CountsOpen(nodes, edges + [e], {}, indegree[e.item := indegree[e.item] + 1])
  {
    forall x | x in nodes
      ensures indegree[e.item := indegree[e.item] + 1][x] == OpenEdges(edges + [e], {}, x)
    {
      EdgesAppend(edges, e, {}, x, x);
    }
  }

  lemma ListEdge(nodes: set<string>, edges: seq<Edge>, outgoing: map<string, seq<string>>, e: Edge)
    requires ListsItems(nodes, edges, outgoing) && e.item in nodes && e.dependency in nodes
    ensures ListsItems(nodes, edges + [e], outgoing[e.dependency := outgoing[e.dependency] + [e.item]])
  {
    var longer := outgoing[e.dependency := outgoing[e.dependency] + [e.item]];
    forall d, x | d in nodes
      ensures Occurrences(longer[d], x) == EdgesBetween(edges + [e], x, d)
    {
      EdgesAppend(edges, e, {}, x, d);
      OccurrencesAppend(outgoing[e.dependency], e.item, x);
    }
  }

  /** All dependencies of `a` are known and proper. */
  ghost predicate Sound(ids: seq<string>, deps: Dependencies, a: string) {
    forall b :: b in DependenciesOf(deps, a) ==> b in ids && b != a
  }

  /** Tables of edges that stem from the first `n` items. */
  ghost predicate TablesUpTo(
    ids: seq<string>, deps: Dependencies, n: nat,
    edges: seq<Edge>, indegree: map<string, int>, outgoing: map<string, seq<string>>)
    requires n <= |ids|
  {
    && CountsOpen(Nodes(ids), edges, {}, indegree)
    && ListsItems(Nodes(ids), edges, outgoing)
    && forall a, b :: Edge(a, b) in edges <==> a in ids[..n] && b in DependenciesOf(deps, a) && b in ids && a != b
  }

  method AddItem(
    ids: seq<string>, item: string, dependencies: seq<string>,
    indegree0: map<string, int>, outgoing0: map<string, seq<string>>, ghost edges0: seq<Edge>)
    returns (errors: seq<GraphError>, indegree: map<string, int>,
             outgoing: map<string, seq<string>>, ghost edges: seq<Edge>)
    requires item in ids
    requires CountsOpen(Nodes(ids), edges0, {}, indegree0) && ListsItems(Nodes(ids), edges0, outgoing0)
    ensures CountsOpen(Nodes(ids), edges, {}, indegree) && ListsItems(Nodes(ids), edges, outgoing)
    ensures forall a, b :: Edge(a, b) in edges <==>
      Edge(a, b) in edges0 || (a == item && b in dependencies && b in ids && a != b)
    ensures errors == [] <==> forall b :: b in dependencies ==> b in ids && b != item
    ensures CycleDetected !in errors
  {
    errors, indegree, outgoing, edges := [], indegree0, outgoing0, edges0;
    for k := 0 to |dependencies|
      invariant CountsOpen(Nodes(ids), edges, {}, indegree) && ListsItems(Nodes(ids), edges, outgoing)
      invariant forall a, b :: Edge(a, b) in edges <==>
        Edge(a, b) in edges0 || (a == item && b in dependencies[..k] && b in ids && a != b)
      invariant errors == [] <==> forall b :: b in dependencies[..k] ==> b in ids && b != item
      invariant CycleDetected !in errors
    {
      var dependency := dependencies[k];
      assert dependencies[..k + 1] == dependencies[..k] + [dependency];
      if dependency !in ids {
        errors := errors + [UnknownDependency(item, dependency)];
      } else if dependency == item {
        errors := errors + [SelfDependency(item)];
      } else {
        CountEdge(Nodes(ids), edges, indegree, Edge(item, dependency));
        ListEdge(Nodes(ids), edges, outgoing, Edge(item, dependency));
        indegree := indegree[item := indegree[item] + 1];
        outgoing := outgoing[dependency := outgoing[dependency] + [item]];
        edges := edges + [Edge(item, dependency)];
      }
    }
    assert dependencies[..|dependencies|] == dependencies;
  }

  lemma TablesNext(
    ids: seq<string>, deps: Dependencies, n: nat, edges0: seq<Edge>,
    edges: seq<Edge>, indegree: map<string, int>, outgoing: map<string, seq<string>>)
    requires n < |ids|
    requires CountsOpen(Nodes(ids), edges, {}, indegree) && ListsItems(Nodes(ids), edges, outgoing)
    requires forall a, b :: Edge(a, b) in edges0 <==>
      a in ids[..n] && b in DependenciesOf(deps, a) && b in ids && a != b
    requires forall a, b :: Edge(a, b) in edges <==>
      Edge(a, b) in edges0 || (a == ids[n] && b in DependenciesOf(deps, ids[n]) && b in ids && a != b)
    ensures TablesUpTo(ids, deps, n + 1, edges, indegree, outgoing)
  {
    assert ids[..n + 1] == ids[..n] + [ids[n]];
  }

  ghost predicate SoundUpTo(ids: seq<string>, deps: Dependencies, n: nat)
    requires n <= |ids|
  {
    forall k :: 0 <= k < n ==> Sound(ids, deps, ids[k])
  }

  lemma SoundNext(ids: seq<string>, deps: Dependencies, n: nat)
    requires n < |ids|
    ensures SoundUpTo(ids, deps, n + 1) <==> SoundUpTo(ids, deps, n) && Sound(ids, deps, ids[n])
  {
  }

  method EmptyTables(ids: seq<string>, ghost deps: Dependencies)
    returns (indegree: map<string, int>, outgoing: map<string, seq<string>>)
    ensures TablesUpTo(ids, deps, 0, [], indegree, outgoing)
  {
    indegree, outgoing := map id | id in ids :: 0, map id | id in ids :: [];
  }

  method BuildTables(ids: seq<string>, deps: Dependencies)
    returns (errors: seq<GraphError>, indegree: map<string, int>,
             outgoing: map<string, seq<string>>, ghost edges: seq<Edge>)
    ensures errors == [] <==> SoundUpTo(ids, deps, |ids|)
    ensures CycleDetected !in errors
    ensures TablesUpTo(ids, deps, |ids|, edges, indegree, outgoing)
  {
    errors, edges := [], [];
    indegree, outgoing := EmptyTables(ids, deps);
    var n := 0;
    ghost var sound := true;
    while n < |ids|
      invariant n <= |ids|
      invariant TablesUpTo(ids, deps, n, edges, indegree, outgoing)
      invariant sound <==> errors == []
      invariant sound <==> SoundUpTo(ids, deps, n)
      invariant CycleDetected !in errors
    {
      ghost var edges0 := edges;
      var found;
      found, indegree, outgoing, edges := AddItem(ids, ids[n], DependenciesOf(deps, ids[n]), indegree, outgoing, edges);
      TablesNext(ids, deps, n, edges0, edges, indegree, outgoing);
      SoundNext(ids, deps, n);
      sound := sound && found == [];
      errors, n := errors + found, n + 1;
    }
  }

  // ---------- Kahn's algorithm ----------

  lemma {:induction false} DistinctByMultiset(s: seq<string>)
    ensures Distinct(s) <==> forall x :: multiset(s)[x] <= 1
  {
    if s != [] {
      var front, last := s[..|s| - 1], s[|s| - 1];
      DistinctByMultiset(front);
      assert s == front + [last];
      if Distinct(s) {
        assert last !in front;
      }
      if forall x :: multiset(s)[x] <= 1 {
        assert multiset(s)[last] <= 1;
        assert forall x :: multiset(front)[x] <= multiset(s)[x];
      }
    }
  }

  /** `sorted(...)` of distinct ids lists the same ids once each. */
  lemma SortKeepsIds(s: seq<string>)
    ensures Distinct(s) ==> Distinct(Sort(s))
    ensures forall x :: x in Sort(s) <==> x in s
    ensures forall x :: Occurrences(Sort(s), x) == Occurrences(s, x)
  {
    DistinctByMultiset(s);
    DistinctByMultiset(Sort(s));
    forall x
      ensures Occurrences(Sort(s), x) == Occurrences(s, x)
      ensures x in Sort(s) <==> x in s
    {
      OccurrencesInMultiset(s, x);
      OccurrencesInMultiset(Sort(s), x);
      assert x in Sort(s) <==> x in multiset(Sort(s));
    }
  }

  /** The listed ids are exactly the nodes without open edges. */
  ghost predicate ListsFree(nodes: set<string>, edges: seq<Edge>, visited: set<string>, listed: seq<string>) {
    Distinct(listed) && forall x :: x in listed <==> x in nodes && OpenEdges(edges, visited, x) == 0
  }

  ghost predicate VisitedInOrder(edges: seq<Edge>, visited: seq<string>) {
    forall k, d :: 0 <= k < |visited| && Edge(visited[k], d) in edges ==> d in visited[..k]
  }

  /** What holds between two turns of Kahn's loop. */
  ghost predicate Peeling(
    nodes: set<string>, edges: seq<Edge>, indegree: map<string, int>, queue: seq<string>, visited: seq<string>)
  {
    && CountsOpen(nodes, edges, Nodes(visited), indegree)
    && ListsFree(nodes, edges, Nodes(visited), visited + queue)
    && VisitedInOrder(edges, visited)
  }

  /** Takes one off the count of every target and appends those that reach zero to the queue. */
  method Close(targets: seq<string>, indegree0: map<string, int>, queue0: seq<string>)
    returns (indegree: map<string, int>, queue: seq<string>, ghost freed: seq<string>)
    requires forall x :: x in targets ==> x in indegree0
    requires forall x :: x in indegree0 ==> Occurrences(targets, x) <= indegree0[x]
    ensures indegree.Keys == indegree0.Keys
    ensures forall x :: x in indegree ==> indegree[x] == indegree0[x] - Occurrences(targets, x)
    ensures queue == queue0 + freed && Distinct(freed)
    ensures forall x :: x in freed <==> x in targets && indegree0[x] == Occurrences(targets, x)
  {
    indegree, queue, freed := indegree0, queue0, [];
    for k := 0 to |targets|
      invariant indegree.Keys == indegree0.Keys
      invariant forall x :: x in indegree ==> indegree[x] == indegree0[x] - Occurrences(targets[..k], x)
      invariant queue == queue0 + freed && Distinct(freed)
      invariant forall x :: x in freed <==> x in targets[..k] && indegree0[x] == Occurrences(targets[..k], x)
    {
      var target := targets[k];
      assert targets[..k + 1] == targets[..k] + [target];
      forall x
        ensures Occurrences(targets[..k + 1], x) == Occurrences(targets[..k], x) + if target == x then 1 else 0
        ensures Occurrences(targets[..k + 1], x) <= Occurrences(targets, x)
      {
        OccurrencesAppend(targets[..k], target, x);
        OccurrencesPrefix(targets, k + 1, x);
      }
      indegree := indegree[target := indegree[target] - 1];
      if indegree[target] == 0 {
        assert target !in freed;
        queue, freed := queue + [target], freed + [target];
      }
    }
    assert targets[..|targets|] == targets;
  }

  lemma ClosedCounts(
    nodes: set<string>, edges: seq<Edge>, visited: set<string>, item: string,
    before: map<string, int>, targets: seq<string>, after: map<string, int>)
    requires CountsOpen(nodes, edges, visited, before) && item !in visited
    requires forall x :: Occurrences(targets, x) == EdgesBetween(edges, x, item)
    requires after.Keys == nodes && forall x :: x in nodes ==> after[x] == before[x] - Occurrences(targets, x)
    ensures CountsOpen(nodes, edges, visited + {item}, after)
  {
    forall x | x in nodes
      ensures after[x] == OpenEdges(edges, visited + {item}, x)
    {
      VisitClosesEdges(edges, visited, item, x);
    }
  }

  lemma DistinctConcat(a: seq<string>, b: seq<string>)
    requires Distinct(a) && Distinct(b) && forall x :: !(x in a && x in b)
    ensures Distinct(a + b)
  {
    forall i, j | 0 <= i < j < |a + b|
      ensures (a + b)[i] != (a + b)[j]
    {
      if i < |a| <= j {
        assert a[i] in a && b[j - |a|] in b;
      }
    }
  }

  lemma FreedListed(
    nodes: set<string>, edges: seq<Edge>, visited: set<string>, item: string,
    before: map<string, int>, targets: seq<string>, listed: seq<string>, freed: seq<string>)
    requires CountsOpen(nodes, edges, visited, before) && item !in visited
    requires forall x :: Occurrences(targets, x) == EdgesBetween(edges, x, item)
    requires forall x :: x in targets ==> x in nodes
    requires ListsFree(nodes, edges, visited, listed)
    requires Distinct(freed) && forall x :: x in freed <==> x in targets && before[x] == Occurrences(targets, x)
    ensures ListsFree(nodes, edges, visited + {item}, listed + freed)
  {
    forall x
      ensures x in listed + freed <==> x in nodes && OpenEdges(edges, visited + {item}, x) == 0
      ensures !(x in listed && x in freed)
    {
      VisitClosesEdges(edges, visited, item, x);
      OccursIffIn(targets, x);
    }
    DistinctConcat(listed, freed);
  }

  method KahnTurn(
    ghost nodes: set<string>, outgoing: map<string, seq<string>>,
    indegree0: map<string, int>, queue0: seq<string>, visited0: seq<string>, ghost edges: seq<Edge>)
    returns (indegree: map<string, int>, queue: seq<string>, visited: seq<string>)
    requires ListsItems(nodes, edges, outgoing) && Peeling(nodes, edges, indegree0, queue0, visited0) && queue0 != []
    ensures Peeling(nodes, edges, indegree, queue, visited)
    ensures |visited| == |visited0| + 1
  {
    var item := queue0[0];
    HeadUnvisited(visited0, queue0);
    var targets := Sort(outgoing[item]);
    SortKeepsIds(outgoing[item]);
    ghost var freed;
    TargetsWithinCounts(nodes, edges, Nodes(visited0), item, indegree0, targets);
    indegree, queue, freed := Close(targets, indegree0, queue0[1..]);
    visited := visited0 + [item];
    assert Nodes(visited) == Nodes(visited0) + {item};
    assert visited + queue == (visited0 + queue0) + freed;
    ClosedCounts(nodes, edges, Nodes(visited0), item, indegree0, targets, indegree);
    FreedListed(nodes, edges, Nodes(visited0), item, indegree0, targets, visited0 + queue0, freed);
    ItemFree(nodes, edges, visited0, queue0);
    VisitNext(edges, visited0, item);
  }

  lemma HeadUnvisited(visited: seq<string>, queue: seq<string>)
    requires queue != [] && Distinct(visited + queue)
    ensures queue[0] !in visited && queue[0] in visited + queue
  {
    var listed := visited + queue;
    assert queue[0] == listed[|visited|];
    forall k | 0 <= k < |visited|
      ensures visited[k] != queue[0]
    {
      assert listed[k] != listed[|visited|];
    }
  }

  lemma TargetsWithinCounts(
    nodes: set<string>, edges: seq<Edge>, visited: set<string>, item: string,
    indegree: map<string, int>, targets: seq<string>)
    requires CountsOpen(nodes, edges, visited, indegree) && item !in visited
    requires forall x :: Occurrences(targets, x) == EdgesBetween(edges, x, item)
    ensures forall x :: x in indegree ==> Occurrences(targets, x) <= indegree[x]
  {
    forall x | x in indegree
      ensures Occurrences(targets, x) <= indegree[x]
    {
      VisitClosesEdges(edges, visited, item, x);
    }
  }

  lemma ItemFree(nodes: set<string>, edges: seq<Edge>, visited: seq<string>, queue: seq<string>)
    requires queue != [] && ListsFree(nodes, edges, Nodes(visited), visited + queue)
    ensures forall d :: Edge(queue[0], d) in edges ==> d in visited
  {
    HeadUnvisited(visited, queue);
    OpenMeansUnvisited(edges, Nodes(visited), queue[0]);
  }

  lemma VisitNext(edges: seq<Edge>, visited: seq<string>, item: string)
    requires VisitedInOrder(edges, visited)
    requires forall d :: Edge(item, d) in edges ==> d in visited
    ensures VisitedInOrder(edges, visited + [item])
  {
    var longer := visited + [item];
    forall k, d | 0 <= k < |longer| && Edge(longer[k], d) in edges
      ensures d in longer[..k]
    {
      assert longer[..k] == visited[..k];
      assert visited[..|visited|] == visited;
    }
  }

  /** `deque(sorted(item for item, count in indegree.items() if count == 0))` */
  method FirstQueue(ids: seq<string>, indegree: map<string, int>, ghost edges: seq<Edge>) returns (queue: seq<string>)
    requires CountsOpen(Nodes(ids), edges, {}, indegree)
    ensures Peeling(Nodes(ids), edges, indegree, queue, [])
  {
    var zero: seq<string> := [];
    for k := 0 to |ids|
      invariant Distinct(zero)
      invariant forall x :: x in zero <==> x in ids[..k] && indegree[x] == 0
    {
      assert ids[..k + 1] == ids[..k] + [ids[k]];
      if indegree[ids[k]] == 0 && ids[k] !in zero {
        zero := zero + [ids[k]];
      }
    }
    assert ids[..|ids|] == ids;
    queue := Sort(zero);
    SortKeepsIds(zero);
    assert Nodes([]) == {} && [] + queue == queue;
  }

  lemma {:induction false} DistinctSize(s: seq<string>)
    ensures |Nodes(s)| <= |s|
    ensures |Nodes(s)| == |s| <==> Distinct(s)
  {
    if s != [] {
      var front, last := s[..|s| - 1], s[|s| - 1];
      DistinctSize(front);
      assert s == front + [last];
      assert Nodes(s) == Nodes(front) + {last};
    }
  }

  method KahnOrder(
    ids: seq<string>, indegree0: map<string, int>, outgoing: map<string, seq<string>>, ghost edges: seq<Edge>)
    returns (visited: seq<string>, ghost indegree: map<string, int>)
    requires CountsOpen(Nodes(ids), edges, {}, indegree0) && ListsItems(Nodes(ids), edges, outgoing)
    ensures Peeling(Nodes(ids), edges, indegree, [], visited)
  {
    var counts := indegree0;
    var queue := FirstQueue(ids, indegree0, edges);
    visited := [];
    while queue != []
      invariant Peeling(Nodes(ids), edges, counts, queue, visited)
      decreases |ids| - |visited|
    {
      counts, queue, visited := KahnTurn(Nodes(ids), outgoing, counts, queue, visited, edges);
      VisitedWithin(ids, edges, counts, queue, visited);
    }
    indegree := counts;
  }

  lemma VisitedWithin(
    ids: seq<string>, edges: seq<Edge>, indegree: map<string, int>, queue: seq<string>, visited: seq<string>)
    requires Peeling(Nodes(ids), edges, indegree, queue, visited)
    ensures |visited| <= |Nodes(ids)| <= |ids| && Distinct(visited) && Nodes(visited) <= Nodes(ids)
  {
    var listed := visited + queue;
    assert forall k :: 0 <= k < |visited| ==> visited[k] == listed[k];
    forall x | x in visited
      ensures x in Nodes(ids)
    {
      assert x in listed;
    }
    DistinctSize(visited);
    DistinctSize(ids);
    SubsetSize(Nodes(visited), Nodes(ids));
  }

  /** Kahn's order covers all listed ids iff they are distinct and their proper arcs have no cycle. */
  lemma KahnVerdict(
    ids: seq<string>, deps: Dependencies, edges: seq<Edge>, indegree: map<string, int>, visited: seq<string>)
    requires Peeling(Nodes(ids), edges, indegree, [], visited)
    requires forall a, b :: Edge(a, b) in edges <==> (a, b) in ProperArcs(Nodes(ids), deps)
    ensures |visited| == |ids| <==> Distinct(ids) && Acyclic(ProperArcs(Nodes(ids), deps))
  {
    var arcs := ProperArcs(Nodes(ids), deps);
    VisitedWithin(ids, edges, indegree, [], visited);
    DistinctSize(ids);
    DistinctSize(visited);
    SubsetSize(Nodes(visited), Nodes(ids));
    if Nodes(visited) == Nodes(ids) {
      forall k, b | 0 <= k < |visited| && (visited[k], b) in arcs
        ensures b in visited[..k]
      {
        assert Edge(visited[k], b) in edges;
      }
      forall a, b | (a, b) in arcs
        ensures a in visited
      {
        assert a in Nodes(visited);
      }
      OrderMeansAcyclic(arcs, visited);
    } else {
      LeftoverIsStuck(ids, deps, edges, indegree, visited);
    }
  }

  lemma LeftoverIsStuck(
    ids: seq<string>, deps: Dependencies, edges: seq<Edge>, indegree: map<string, int>, visited: seq<string>)
    requires Peeling(Nodes(ids), edges, indegree, [], visited)
    requires forall a, b :: Edge(a, b) in edges <==> (a, b) in ProperArcs(Nodes(ids), deps)
    requires Nodes(visited) < Nodes(ids)
    ensures !Acyclic(ProperArcs(Nodes(ids), deps))
  {
    var arcs, left := ProperArcs(Nodes(ids), deps), Nodes(ids) - Nodes(visited);
    assert visited + [] == visited;
    forall a | a in left
      ensures DependsWithin(arcs, left, a)
    {
      OpenMeansUnvisited(edges, Nodes(visited), a);
      var d :| Edge(a, d) in edges && d !in Nodes(visited);
      assert (a, d) in arcs;
    }
    if left == {} {
      forall x | x in Nodes(ids)
        ensures x in Nodes(visited)
      {
        assert x !in left;
      }
      assert false;
    }
    StuckMeansCycle(arcs, left);
  }

  // ---------- roots and reachability ----------

  /** The roots among the first `n` ids. */
  function RootsUpTo(ids: seq<string>, deps: Dependencies, n: nat): seq<string>
    requires n <= |ids|
  {
    if n == 0 then [] else
    var front := RootsUpTo(ids, deps, n - 1);
    if DependenciesOf(deps, ids[n - 1]) == [] then front + [ids[n - 1]] else front
  }

  lemma {:induction false} RootsMembers(ids: seq<string>, deps: Dependencies, n: nat)
    requires n <= |ids|
    ensures forall x :: x in RootsUpTo(ids, deps, n) <==> x in ids[..n] && DependenciesOf(deps, x) == []
  {
    if 0 < n {
      RootsMembers(ids, deps, n - 1);
      assert ids[..n] == ids[..n - 1] + [ids[n - 1]];
    }
  }

  /** `tuple(item for item in ids if not dependencies.get(item, ()))` */
  function Roots(ids: seq<string>, deps: Dependencies): (roots: seq<string>)
    ensures forall x :: x in roots <==> x in ids && DependenciesOf(deps, x) == []
  {
    RootsMembers(ids, deps, |ids|);
    assert ids[..|ids|] == ids;
    RootsUpTo(ids, deps, |ids|)
  }

  ghost predicate ClosedUnder(outgoing: map<string, seq<string>>, reachable: set<string>, pending: seq<string>) {
    forall d, x :: d in reachable && d in outgoing && x in outgoing[d] ==> x in reachable || d in pending
  }

  /** A set that holds the roots and every dependant of its members. */
  ghost predicate HoldsReach(outgoing: map<string, seq<string>>, roots: seq<string>, s: set<string>) {
    (forall x :: x in roots ==> x in s) && ClosedUnder(outgoing, s, [])
  }

  /** Breadth-first search from the roots along `outgoing`: it ends with the least set that holds all it should. */
  method Reach(roots: seq<string>, outgoing: map<string, seq<string>>)
    returns (reachable: set<string>)
    requires forall d, x :: d in outgoing && x in outgoing[d] ==> x in outgoing
    requires forall x :: x in roots ==> x in outgoing
    ensures reachable <= outgoing.Keys
    ensures HoldsReach(outgoing, roots, reachable)
    ensures forall s :: HoldsReach(outgoing, roots, s) ==> reachable <= s
  {
    reachable := set x | x in roots;
    var frontier := roots;
    while frontier != []
      invariant forall x :: x in roots ==> x in reachable
      invariant forall x :: x in frontier ==> x in reachable
      invariant reachable <= outgoing.Keys
      invariant ClosedUnder(outgoing, reachable, frontier)
      invariant forall s :: HoldsReach(outgoing, roots, s) ==> reachable <= s
      decreases outgoing.Keys - reachable, |frontier|
    {
      var item := frontier[0];
      assert item in frontier && frontier == [item] + frontier[1..];
      ghost var before := reachable;
      reachable, frontier := Spread(outgoing[item], reachable, frontier[1..]);
      assert reachable == before || outgoing.Keys - reachable < outgoing.Keys - before;
      forall s | HoldsReach(outgoing, roots, s)
        ensures reachable <= s
      {
        assert before <= s && item in s;
      }
    }
  }

  method Spread(targets: seq<string>, reachable0: set<string>, frontier0: seq<string>)
    returns (reachable: set<string>, frontier: seq<string>)
    ensures reachable == reachable0 + set x | x in targets
    ensures forall x :: x in frontier <==> x in frontier0 || x in reachable - reachable0
    ensures reachable == reachable0 ==> frontier == frontier0
  {
    reachable, frontier := reachable0, frontier0;
    for k := 0 to |targets|
      invariant reachable == reachable0 + set x | x in targets[..k]
      invariant forall x :: x in frontier <==> x in frontier0 || x in reachable - reachable0
      invariant reachable == reachable0 ==> frontier == frontier0
    {
      assert targets[..k + 1] == targets[..k] + [targets[k]];
      if targets[k] !in reachable {
        reachable, frontier := reachable + {targets[k]}, frontier + [targets[k]];
      }
    }
    assert targets[..|targets|] == targets;
  }

  /** With one root, known proper dependencies and no cycle, a closed set with the root holds every id. */
  lemma AllReachable(
    ids: seq<string>, deps: Dependencies, edges: seq<Edge>, indegree: map<string, int>,
    outgoing: map<string, seq<string>>, reachable: set<string>, root: string)
    requires TablesUpTo(ids, deps, |ids|, edges, indegree, outgoing) && SoundUpTo(ids, deps, |ids|)
    requires Roots(ids, deps) == [root] && root in reachable && ClosedUnder(outgoing, reachable, [])
    requires Acyclic(ProperArcs(Nodes(ids), deps))
    ensures Nodes(ids) <= reachable
  {
    var arcs, left := ProperArcs(Nodes(ids), deps), Nodes(ids) - reachable;
    forall a | a in left
      ensures DependsWithin(arcs, left, a)
    {
      UnreachedDependency(ids, deps, edges, indegree, outgoing, reachable, root, a);
    }
    if x :| x in Nodes(ids) && x !in reachable {
      assert x in left;
      StuckMeansCycle(arcs, left);
    }
  }

  /** An unreached id has an unreached dependency. */
  lemma UnreachedDependency(
    ids: seq<string>, deps: Dependencies, edges: seq<Edge>, indegree: map<string, int>,
    outgoing: map<string, seq<string>>, reachable: set<string>, root: string, a: string)
    requires TablesUpTo(ids, deps, |ids|, edges, indegree, outgoing) && SoundUpTo(ids, deps, |ids|)
    requires Roots(ids, deps) == [root] && root in reachable && ClosedUnder(outgoing, reachable, [])
    requires a in Nodes(ids) - reachable
    ensures DependsWithin(ProperArcs(Nodes(ids), deps), Nodes(ids) - reachable, a)
  {
    assert a !in Roots(ids, deps);
    var k :| 0 <= k < |ids| && ids[k] == a;
    assert Sound(ids, deps, ids[k]);
    var d := DependenciesOf(deps, a)[0];
    assert d in DependenciesOf(deps, a);
    assert ids[..|ids|] == ids;
    assert Edge(a, d) in edges;
    EdgeIsListed(Nodes(ids), edges, outgoing, Edge(a, d));
    assert (a, d) in ProperArcs(Nodes(ids), deps);
  }

  lemma EdgeIsListed(nodes: set<string>, edges: seq<Edge>, outgoing: map<string, seq<string>>, e: Edge)
    requires ListsItems(nodes, edges, outgoing) && e in edges && e.dependency in nodes
    ensures e.item in outgoing[e.dependency]
  {
    EdgeCounted(edges, e);
    OccursIffIn(outgoing[e.dependency], e.item);
  }

  lemma {:induction false} EdgeCounted(edges: seq<Edge>, e: Edge)
    requires e in edges
    ensures 0 < EdgesBetween(edges, e.item, e.dependency)
  {
    if edges[|edges| - 1] != e {
      assert edges == edges[..|edges| - 1] + [edges[|edges| - 1]];
      EdgeCounted(edges[..|edges| - 1], e);
    }
  }

  // ---------- the whole check ----------

  /** The condition that a dependency table must meet. */
  ghost predicate WellFormedDag(ids: seq<string>, deps: Dependencies, root: string) {
    && Distinct(ids)
    && SoundUpTo(ids, deps, |ids|)
    && Acyclic(ProperArcs(Nodes(ids), deps))
    && Roots(ids, deps) == [root]
  }

  /** The verdict of Kahn's algorithm on the tables. */
  method CheckOrder(
    ids: seq<string>, deps: Dependencies, indegree: map<string, int>,
    outgoing: map<string, seq<string>>, ghost edges: seq<Edge>)
    returns (errors: seq<GraphError>)
    requires TablesUpTo(ids, deps, |ids|, edges, indegree, outgoing)
    ensures errors == (if Distinct(ids) && Acyclic(ProperArcs(Nodes(ids), deps)) then [] else [CycleDetected])
  {
    ghost var left;
    var visited;
    assert ids[..|ids|] == ids;
    visited, left := KahnOrder(ids, indegree, outgoing, edges);
    KahnVerdict(ids, deps, edges, left, visited);
    errors := if |visited| == |ids| then [] else [CycleDetected];
  }

  /** What is reached from the roots, which is everything if nothing else is wrong. */
  method CheckReach(
    ids: seq<string>, deps: Dependencies, root: string, indegree: map<string, int>, outgoing: map<string, seq<string>>,
    ghost edges: seq<Edge>)
    returns (errors: seq<GraphError>)
    requires TablesUpTo(ids, deps, |ids|, edges, indegree, outgoing)
    ensures CycleDetected !in errors
    ensures SoundUpTo(ids, deps, |ids|) && Roots(ids, deps) == [root] && Acyclic(ProperArcs(Nodes(ids), deps)) ==>
      errors == []
  {
    var roots := Roots(ids, deps);
    var reachable := Reach(roots, outgoing);
    if SoundUpTo(ids, deps, |ids|) && roots == [root] && Acyclic(ProperArcs(Nodes(ids), deps)) {
      AllReachable(ids, deps, edges, indegree, outgoing, reachable, root);
    }
    errors := if reachable == (set id | id in ids) then [] else [UnreachableDocumentType];
  }

  /** `_dag_errors` is exact, repeated ids included. */
  method DagErrors(ids: seq<string>, deps: Dependencies, expectedRoot: string) returns (errors: seq<GraphError>)
    ensures errors == [] <==> WellFormedDag(ids, deps, expectedRoot)
    ensures CycleDetected in errors <==> !(Distinct(ids) && Acyclic(ProperArcs(Nodes(ids), deps)))
  {
    ghost var edges;
    var tableErrors, indegree, outgoing;
    tableErrors, indegree, outgoing, edges := BuildTables(ids, deps);
    var orderErrors := CheckOrder(ids, deps, indegree, outgoing, edges);
    var rootErrors := if Roots(ids, deps) == [expectedRoot] then [] else [RootMustBeReferralPacket];
    var reachErrors := CheckReach(ids, deps, expectedRoot, indegree, outgoing, edges);
    errors := tableErrors + orderErrors + rootErrors + reachErrors;
    assert |errors| == |tableErrors| + |orderErrors| + |rootErrors| + |reachErrors|;
  }

  /**
    Runs both detectors on one graph. Without self-dependencies they agree; a self-dependency is a cycle to the
    recursive search, while `_dag_errors` sets it aside and reports it by itself.
   */
  method CompareDetectors(ids: seq<string>, graph: Dependencies, expectedRoot: string)
    returns (cycle: bool, errors: seq<GraphError>)
    requires Distinct(ids) && forall id :: id in ids <==> id in graph
    ensures cycle <==> CycleDetected in errors || !SelfFree(graph.Keys, graph)
    ensures SelfFree(graph.Keys, graph) ==> (cycle <==> CycleDetected in errors)
  {
    assert Nodes(ids) == graph.Keys;
    AcyclicSplits(graph.Keys, graph);
    var search := new CycleDetector.AssetGraph(graph);
    cycle := search.HasCycle(ids);
    errors := DagErrors(ids, graph, expectedRoot);
  }
}
