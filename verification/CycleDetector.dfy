/** The recursive cycle search over asset dependencies (the nested `visit` of design_c_validator.py). */
module CycleDetector {
  import opened Collections
  import opened Digraph

  /** The nodes being visited form a walk through the graph. */
  ghost predicate WalkUnderway(arcs: set<Arc>, visiting: set<string>, stack: seq<string>) {
    visiting == (set x | x in stack) && Distinct(stack) && IsWalk(arcs, stack)
  }

  /** No cycle was met so far: every visited node has its dependencies completed before it. */
  ghost predicate NoCycleMet(arcs: set<Arc>, visiting: set<string>, visited: set<string>, completed: seq<string>) {
    && visited == (set x | x in completed)
    && visited !! visiting
    && Distinct(completed)
    && DependenciesFirst(arcs, completed)
  }

  lemma Descend(arcs: set<Arc>, visiting: set<string>, stack: seq<string>, id: string)
    requires WalkUnderway(arcs, visiting, stack) && id !in visiting
    requires stack != [] ==> (stack[|stack| - 1], id) in arcs
    ensures WalkUnderway(arcs, visiting + {id}, stack + [id])
  {
  }

  lemma Reenter(arcs: set<Arc>, visiting: set<string>, stack: seq<string>, id: string)
    requires WalkUnderway(arcs, visiting, stack) && id in visiting
    requires stack != [] ==> (stack[|stack| - 1], id) in arcs
    ensures !Acyclic(arcs)
  {
    var k :| 0 <= k < |stack| && stack[k] == id;
    assert IsCycle(arcs, stack[k..] + [id]);
  }

  lemma Complete(
    arcs: set<Arc>, visiting: set<string>, visited: set<string>, completed: seq<string>, id: string)
    requires NoCycleMet(arcs, visiting + {id}, visited, completed)
    requires forall b :: (id, b) in arcs ==> b in visited
    ensures NoCycleMet(arcs, visiting - {id}, visited + {id}, completed + [id])
  {
    forall k, b | 0 <= k < |completed| + 1 && ((completed + [id])[k], b) in arcs
      ensures b in (completed + [id])[..k]
    {
      assert (completed + [id])[..k] == completed[..k];
      assert completed[..|completed|] == completed;
    }
  }

  class AssetGraph {
    // asset id -> ids it depends on
    const graph: Dependencies
    var visiting: set<string>
    var visited: set<string>

    // The assets being visited, outermost first, and the visited ones in order of completion.
    ghost var stack: seq<string>
    ghost var completed: seq<string>

    constructor (graph: Dependencies)
      ensures this.graph == graph && visiting == {} && visited == {} && stack == [] && completed == []
    {
      this.graph := graph;
      visiting, visited, stack, completed := {}, {}, [], [];
    }

    ghost function Arcs(): set<Arc> {
      KnownArcs(graph.Keys, graph)
    }

    ghost predicate Clean()
      reads this
    {
      NoCycleMet(Arcs(), visiting, visited, completed)
    }

    method Visit(assetId: string) returns (cycle: bool)
      requires assetId in graph && WalkUnderway(Arcs(), visiting, stack)
      requires stack != [] ==> (stack[|stack| - 1], assetId) in Arcs()
      modifies this
      ensures stack == old(stack) && visiting == old(visiting) && old(visited) <= visited
      ensures cycle ==> !Acyclic(Arcs())
      ensures !cycle && old(Clean()) ==> Clean() && assetId in visited
      decreases graph.Keys - visiting - visited
    {
      if assetId in visiting {
        Reenter(Arcs(), visiting, stack, assetId);
        return true;
      }
      if assetId in visited {
        return false;
      }
      Descend(Arcs(), visiting, stack, assetId);
      visiting, stack := visiting + {assetId}, stack + [assetId];
      assert assetId in graph.Keys - old(visiting) - old(visited);
      cycle := false;
      var dependencies := graph[assetId];
      var k := 0;
      while k < |dependencies| && !cycle
        invariant k <= |dependencies|
        invariant stack == old(stack) + [assetId] && visiting == old(visiting) + {assetId}
        invariant old(visited) <= visited
        invariant cycle ==> !Acyclic(Arcs())
        invariant !cycle && old(Clean()) ==> Clean()
        invariant !cycle && old(Clean()) ==>
          forall i :: 0 <= i < k && dependencies[i] in graph ==> dependencies[i] in visited
      {
        if dependencies[k] in graph {
          assert (assetId, dependencies[k]) in Arcs();
          cycle := Visit(dependencies[k]);
        }
        k := k + 1;
      }
      if !cycle && old(Clean()) {
        Complete(Arcs(), old(visiting), visited, completed, assetId);
        completed := completed + [assetId];
      }
      visiting, visited, stack := visiting - {assetId}, visited + {assetId}, old(stack);
    }

    /** `any(visit(asset_id) for asset_id in graph)`: the search reports a cycle iff there is one. */
    method HasCycle(assetIds: seq<string>) returns (cycle: bool)
      requires forall id :: id in assetIds <==> id in graph
      requires visiting == {} && visited == {} && stack == [] && completed == []
      modifies this
      ensures cycle <==> !Acyclic(KnownArcs(graph.Keys, graph))
    {
      cycle := false;
      var k := 0;
      while k < |assetIds| && !cycle
        invariant k <= |assetIds|
        invariant stack == [] && visiting == {}
        invariant cycle ==> !Acyclic(Arcs())
        invariant !cycle ==> Clean() && forall i :: 0 <= i < k ==> assetIds[i] in visited
      {
        assert assetIds[k] in assetIds;
        cycle := Visit(assetIds[k]);
        k := k + 1;
      }
      if !cycle {
        forall a, b | (a, b) in Arcs()
          ensures a in completed
        {
          assert a in assetIds;
        }
        OrderMeansAcyclic(Arcs(), completed);
      }
    }
  }
}
