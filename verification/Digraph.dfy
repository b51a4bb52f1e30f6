/** Finite dependency graphs: walks, cycles, and the two ways of settling whether a cycle exists. */
module Digraph {
  import opened Collections

  // An arc leads from a node to one of its dependencies.
  type Arc = (string, string)

  ghost predicate IsWalk(arcs: set<Arc>, p: seq<string>) {
    forall k :: 0 <= k < |p| - 1 ==> (p[k], p[k + 1]) in arcs
  }

  ghost predicate IsCycle(arcs: set<Arc>, p: seq<string>) {
    2 <= |p| && p[0] == p[|p| - 1] && IsWalk(arcs, p)
  }

  ghost predicate Acyclic(arcs: set<Arc>) {
    forall p :: !IsCycle(arcs, p)
  }

  /** Dependencies come first: the arcs of every listed node lead to earlier ones. */
  ghost predicate DependenciesFirst(arcs: set<Arc>, order: seq<string>) {
    forall k, b :: 0 <= k < |order| && (order[k], b) in arcs ==> b in order[..k]
  }

  lemma {:induction false} WalkDescends(arcs: set<Arc>, order: seq<string>, p: seq<string>, k: nat)
    requires DependenciesFirst(arcs, order) && IsWalk(arcs, p) && 2 <= |p|
    requires k < |order| && order[k] == p[0]
    ensures p[|p| - 1] in order[..k]
    decreases |p|
  {
    assert (p[0], p[1]) in arcs;
    assert p[1] in order[..k];
    if 2 < |p| {
      var j :| 0 <= j < k && order[j] == p[1];
      forall i | 0 <= i < |p[1..]| - 1
        ensures (p[1..][i], p[1..][i + 1]) in arcs
      {
        assert (p[i + 1], p[i + 2]) in arcs;
      }
      WalkDescends(arcs, order, p[1..], j);
      assert order[..j] <= order[..k];
    }
  }

  /** A dependencies-first listing of all nodes rules out cycles. */
  lemma OrderMeansAcyclic(arcs: set<Arc>, order: seq<string>)
    requires Distinct(order) && DependenciesFirst(arcs, order)
    requires forall a, b :: (a, b) in arcs ==> a in order
    ensures Acyclic(arcs)
  {
    forall p
      ensures !IsCycle(arcs, p)
    {
      if IsCycle(arcs, p) {
        assert (p[0], p[1]) in arcs;
        var k :| 0 <= k < |order| && order[k] == p[0];
        WalkDescends(arcs, order, p, k);
        assert false;
      }
    }
  }

  ghost predicate DependsWithin(arcs: set<Arc>, u: set<string>, a: string) {
    exists b :: b in u && (a, b) in arcs
  }

  lemma {:induction false} WalkWithin(arcs: set<Arc>, u: set<string>, n: nat) returns (p: seq<string>)
    requires u != {} && forall a :: a in u ==> DependsWithin(arcs, u, a)
    ensures |p| == n + 1 && IsWalk(arcs, p) && forall k :: 0 <= k < |p| ==> p[k] in u
  {
    if n == 0 {
      var a :| a in u;
      return [a];
    }
    var front := WalkWithin(arcs, u, n - 1);
    assert DependsWithin(arcs, u, front[n - 1]);
    var b :| b in u && (front[n - 1], b) in arcs;
    p := front + [b];
    forall k | 0 <= k < |p| - 1
      ensures (p[k], p[k + 1]) in arcs
    {
      if k < n - 1 {
        assert (front[k], front[k + 1]) in arcs;
      }
    }
  }

  lemma {:induction false} RepeatsElement<T>(p: seq<T>, u: set<T>) returns (i: nat, j: nat)
    requires |u| < |p| && forall x :: x in p ==> x in u
    ensures i < j < |p| && p[i] == p[j]
    decreases |p|
  {
    var n := |p| - 1;
    if k :| 0 <= k < n && p[k] == p[n] {
      return k, n;
    }
    assert p[n] in p;
    forall x | x in p[..n]
      ensures x in u - {p[n]}
    {
      assert x in p;
    }
    i, j := RepeatsElement(p[..n], u - {p[n]});
  }

  /** A set of nodes each of which depends on a member of the set contains a cycle. */
  lemma StuckMeansCycle(arcs: set<Arc>, u: set<string>)
    requires u != {} && forall a :: a in u ==> DependsWithin(arcs, u, a)
    ensures !Acyclic(arcs)
  {
    var p := WalkWithin(arcs, u, |u|);
    var i, j := RepeatsElement(p, u);
    WalkSlice(arcs, p, i, j);
    assert IsCycle(arcs, p[i..j + 1]);
  }

  lemma WalkSlice(arcs: set<Arc>, p: seq<string>, i: nat, j: nat)
    requires IsWalk(arcs, p) && i <= j < |p|
    ensures IsWalk(arcs, p[i..j + 1])
  {
    var q := p[i..j + 1];
    forall k | 0 <= k < |q| - 1
      ensures (q[k], q[k + 1]) in arcs
    {
      assert (p[i + k], p[i + k + 1]) in arcs;
    }
  }

  // ---------- the graph of a dependency table ----------

  type Dependencies = map<string, seq<string>>

  /** `dependencies.get(item, ())` */
  function DependenciesOf(deps: Dependencies, item: string): seq<string> {
    if item in deps then deps[item] else []
  }

  /** Arcs between known nodes, self-arcs included. */
  ghost function KnownArcs(ids: set<string>, deps: Dependencies): set<Arc> {
    set a, b | a in ids && b in DependenciesOf(deps, a) && b in ids :: (a, b)
  }

  /** Arcs between two different known nodes. */
  ghost function ProperArcs(ids: set<string>, deps: Dependencies): set<Arc> {
    set a, b | a in ids && b in DependenciesOf(deps, a) && b in ids && a != b :: (a, b)
  }

  ghost predicate SelfFree(ids: set<string>, deps: Dependencies) {
    forall a :: a in ids ==> a !in DependenciesOf(deps, a)
  }

  /** Setting self-arcs aside loses exactly the cycles of length one. */
  lemma AcyclicSplits(ids: set<string>, deps: Dependencies)
    ensures Acyclic(KnownArcs(ids, deps)) <==> Acyclic(ProperArcs(ids, deps)) && SelfFree(ids, deps)
  {
    var known, proper := KnownArcs(ids, deps), ProperArcs(ids, deps);
    if Acyclic(known) {
      forall p
        ensures !IsCycle(proper, p)
      {
        if IsCycle(proper, p) {
          forall k | 0 <= k < |p| - 1
            ensures (p[k], p[k + 1]) in known
          {
            assert (p[k], p[k + 1]) in proper;
          }
          assert IsCycle(known, p);
        }
      }
      forall a | a in ids
        ensures a !in DependenciesOf(deps, a)
      {
        if a in DependenciesOf(deps, a) {
          assert IsCycle(known, [a, a]);
        }
      }
    }
    if SelfFree(ids, deps) {
      assert known == proper;
    }
  }
}
