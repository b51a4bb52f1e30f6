/**
  Building the document graph from the group table (employment_lifecycle_catalog.py) and renaming it into a
  matter dossier (matter_dossier_planner.py).
 */
module LifecycleCatalog {
  import opened Collections
  import opened Digraph
  import DagErrors

  // A group of documents chained one after the other; the empty base stands for no base.
  datatype Group = Group(base: string, rows: seq<string>)

  datatype Document = Document(id: string, prerequisites: seq<string>)

  /** `(previous,) if previous else ()` */
  function PrerequisiteList(previous: string): seq<string> {
    if previous == "" then [] else [previous]
  }

  function DocumentAt(g: Group, k: nat): Document
    requires k < |g.rows|
  {
    Document(g.rows[k], PrerequisiteList(if k == 0 then g.base else g.rows[k - 1]))
  }

  /** The documents of the first `n` groups and of the first `k` rows of group `n`. */
  ghost function DocumentsUpTo(groups: seq<Group>, n: nat, k: nat): seq<Document>
    requires n <= |groups| && (if n < |groups| then k <= |groups[n].rows| else k == 0)
    decreases n, k
  {
    if 0 < k then DocumentsUpTo(groups, n, k - 1) + [DocumentAt(groups[n], k - 1)]
    else if n == 0 then []
    else DocumentsUpTo(groups, n - 1, |groups[n - 1].rows|)
  }

  ghost function Documents(groups: seq<Group>): seq<Document> {
    DocumentsUpTo(groups, |groups|, 0)
  }

  method BuildDocuments(groups: seq<Group>) returns (documents: seq<Document>)
    ensures documents == Documents(groups)
  {
    documents := [];
    for n := 0 to |groups|
      invariant documents == DocumentsUpTo(groups, n, 0)
    {
      var previous := groups[n].base;
      for k := 0 to |groups[n].rows|
        invariant documents == DocumentsUpTo(groups, n, k)
        invariant previous == if k == 0 then groups[n].base else groups[n].rows[k - 1]
      {
        documents := documents + [Document(groups[n].rows[k], PrerequisiteList(previous))];
        previous := groups[n].rows[k];
      }
    }
  }

  ghost function Ids(documents: seq<Document>): (ids: seq<string>)
    ensures |ids| == |documents| && forall i :: 0 <= i < |ids| ==> ids[i] == documents[i].id
  {
    seq(|documents|, i requires 0 <= i < |documents| => documents[i].id)
  }

  /** `{item.document_type_id: item.prerequisite_type_ids for item in document_types}` */
  ghost function Prerequisites(documents: seq<Document>): Dependencies {
    if documents == [] then map[] else
    Prerequisites(documents[..|documents| - 1])
      [documents[|documents| - 1].id := documents[|documents| - 1].prerequisites]
  }

  /** How many rows the first `n` groups have. */
  ghost function RowsBefore(groups: seq<Group>, n: nat): nat
    requires n <= |groups|
  {
    if n == 0 then 0 else RowsBefore(groups, n - 1) + |groups[n - 1].rows|
  }

  lemma {:induction false} BuiltSoFar(groups: seq<Group>, n: nat, k: nat)
    requires n <= |groups| && (if n < |groups| then k <= |groups[n].rows| else k == 0)
    ensures |DocumentsUpTo(groups, n, k)| == RowsBefore(groups, n) + k
    decreases n, k
  {
    if 0 < k {
      BuiltSoFar(groups, n, k - 1);
    } else if n != 0 {
      BuiltSoFar(groups, n - 1, |groups[n - 1].rows|);
    }
  }

  lemma {:induction false} StaysBuilt(groups: seq<Group>, n: nat, k: nat, m: nat, j: nat)
    requires n <= |groups| && (if n < |groups| then k <= |groups[n].rows| else k == 0)
    requires m <= |groups| && (if m < |groups| then j <= |groups[m].rows| else j == 0)
    requires n < m || (n == m && k <= j)
    ensures DocumentsUpTo(groups, n, k) <= DocumentsUpTo(groups, m, j)
    decreases m, j
  {
    if n != m || k != j {
      if 0 < j {
        StaysBuilt(groups, n, k, m, j - 1);
      } else {
        StaysBuilt(groups, n, k, m - 1, |groups[m - 1].rows|);
      }
    }
  }

  /**
    Row `k` of group `n` is the document at its place in the table; it hangs off the row above it, and the first row
    of a group off the base of the group, unless that text is empty.
   */
  lemma DocumentOfRow(groups: seq<Group>, n: nat, k: nat)
    requires n < |groups| && k < |groups[n].rows|
    ensures |Documents(groups)| == RowsBefore(groups, |groups|) && RowsBefore(groups, n) + k < |Documents(groups)|
    ensures
      var document := Documents(groups)[RowsBefore(groups, n) + k];
      var previous := if 0 < k then groups[n].rows[k - 1] else groups[n].base;
      && document.id == groups[n].rows[k]
      && document.prerequisites == (if previous == "" then [] else [previous])
  {
    var built, place := DocumentsUpTo(groups, n, k + 1), RowsBefore(groups, n) + k;
    BuiltSoFar(groups, n, k);
    BuiltSoFar(groups, n, k + 1);
    BuiltSoFar(groups, |groups|, 0);
    StaysBuilt(groups, n, k + 1, |groups|, 0);
    assert built[place] == DocumentAt(groups[n], k);
    assert Documents(groups)[place] == built[place];
  }

  // ---------- well-ordered tables pass the dependency check ----------

  /** Ids that occur before row `k` of group `n`. */
  ghost predicate OccursBefore(groups: seq<Group>, n: nat, id: string)
    requires n <= |groups|
  {
    exists m :: 0 <= m < n && id in groups[m].rows
  }

  /** The first group starts the root and the other groups hang off ids of earlier groups. */
  ghost predicate Anchored(groups: seq<Group>) {
    && groups != [] && groups[0].base == "" && groups[0].rows != []
    && (forall n :: 0 < n < |groups| ==> OccursBefore(groups, n, groups[n].base))
    && (forall n, k :: 0 <= n < |groups| && 0 <= k < |groups[n].rows| ==> groups[n].rows[k] != "")
  }

  /** An anchored table in which no id occurs twice. */
  ghost predicate WellOrdered(groups: seq<Group>) {
    Anchored(groups) && Distinct(Ids(Documents(groups)))
  }

  /** Document `i` hangs off document `parents[i]`, an earlier one; only the first has no prerequisite. */
  ghost predicate Chained(documents: seq<Document>, parents: seq<nat>) {
    && |parents| == |documents|
    && (documents != [] ==> documents[0].prerequisites == [])
    && (forall i :: 0 < i < |documents| ==> parents[i] < i)
    && (forall i :: 0 < i < |documents| ==> documents[i].prerequisites == [documents[parents[i]].id])
  }

  lemma {:induction false} DocumentsPrefix(groups: seq<Group>, n: nat, k: nat)
    requires n <= |groups| && (if n < |groups| then k <= |groups[n].rows| else k == 0)
    ensures DocumentsUpTo(groups, n, 0) <= DocumentsUpTo(groups, n, k)
    ensures |DocumentsUpTo(groups, n, k)| == |DocumentsUpTo(groups, n, 0)| + k
    ensures 0 < k ==> DocumentsUpTo(groups, n, k)[|DocumentsUpTo(groups, n, k)| - 1].id == groups[n].rows[k - 1]
    decreases k
  {
    if 0 < k {
      DocumentsPrefix(groups, n, k - 1);
    }
  }

  /** Every row of an earlier group is among the documents built so far. */
  lemma {:induction false} EarlierRowsBuilt(groups: seq<Group>, n: nat, id: string)
    requires n <= |groups| && OccursBefore(groups, n, id)
    ensures exists j :: 0 <= j < |DocumentsUpTo(groups, n, 0)| && DocumentsUpTo(groups, n, 0)[j].id == id
  {
    var m := n - 1;
    var built := DocumentsUpTo(groups, n, 0);
    assert built == DocumentsUpTo(groups, m, |groups[m].rows|);
    DocumentsPrefix(groups, m, |groups[m].rows|);
    if k :| 0 <= k < |groups[m].rows| && groups[m].rows[k] == id {
      RowBuilt(groups, m, |groups[m].rows|, k);
    } else {
      EarlierRowsBuilt(groups, m, id);
    }
  }

  lemma {:induction false} RowBuilt(groups: seq<Group>, n: nat, k: nat, i: nat)
    requires n < |groups| && i < k <= |groups[n].rows|
    ensures exists j :: 0 <= j < |DocumentsUpTo(groups, n, k)| && DocumentsUpTo(groups, n, k)[j].id == groups[n].rows[i]
  {
    if i < k - 1 {
      RowBuilt(groups, n, k - 1, i);
      var j :| 0 <= j < |DocumentsUpTo(groups, n, k - 1)| && DocumentsUpTo(groups, n, k - 1)[j].id == groups[n].rows[i];
      assert DocumentsUpTo(groups, n, k)[j].id == groups[n].rows[i];
    } else {
      DocumentsPrefix(groups, n, k);
    }
  }

  /** The document that row `k` hangs off, among those built before it. */
  lemma PredecessorBuilt(groups: seq<Group>, n: nat, k: nat) returns (j: nat)
    requires Anchored(groups) && n < |groups| && k < |groups[n].rows| && 0 < n + k
    ensures j < |DocumentsUpTo(groups, n, k)|
    ensures DocumentAt(groups[n], k).prerequisites == [DocumentsUpTo(groups, n, k)[j].id]
  {
    if 0 < k {
      DocumentsPrefix(groups, n, k);
      j := |DocumentsUpTo(groups, n, k)| - 1;
    } else {
      EarlierRowsBuilt(groups, n, groups[n].base);
      BaseNotEmpty(groups, n);
      j :| 0 <= j < |DocumentsUpTo(groups, n, 0)| && DocumentsUpTo(groups, n, 0)[j].id == groups[n].base;
    }
  }

  lemma ChainedAppend(built: seq<Document>, parents: seq<nat>, d: Document, j: nat)
    requires Chained(built, parents)
    requires if built == [] then d.prerequisites == [] else j < |built| && d.prerequisites == [built[j].id]
    ensures Chained(built + [d], parents + [j])
  {
  }

  lemma {:induction false} BuiltChained(groups: seq<Group>, n: nat, k: nat) returns (parents: seq<nat>)
    requires Anchored(groups)
    requires n <= |groups| && (if n < |groups| then k <= |groups[n].rows| else k == 0)
    ensures Chained(DocumentsUpTo(groups, n, k), parents)
    ensures 0 < n || 0 < k ==>
      DocumentsUpTo(groups, n, k) != [] && DocumentsUpTo(groups, n, k)[0].id == groups[0].rows[0]
    decreases n, k
  {
    if 0 < k {
      parents := BuiltChained(groups, n, k - 1);
      var j := 0;
      if 0 < n + k - 1 {
        j := PredecessorBuilt(groups, n, k - 1);
      }
      ChainedAppend(DocumentsUpTo(groups, n, k - 1), parents, DocumentAt(groups[n], k - 1), j);
      parents := parents + [j];
    } else if 0 < n {
      parents := BuiltChained(groups, n - 1, |groups[n - 1].rows|);
    } else {
      parents := [];
    }
  }

  lemma BaseNotEmpty(groups: seq<Group>, n: nat)
    requires Anchored(groups) && 0 < n < |groups|
    ensures groups[n].base != ""
  {
    var m :| 0 <= m < n && groups[n].base in groups[m].rows;
    var k :| 0 <= k < |groups[m].rows| && groups[m].rows[k] == groups[n].base;
  }

  lemma {:induction false} PrerequisitesFound(documents: seq<Document>, i: nat)
    requires Distinct(Ids(documents)) && i < |documents|
    ensures DependenciesOf(Prerequisites(documents), documents[i].id) == documents[i].prerequisites
  {
    var front := documents[..|documents| - 1];
    if i < |front| {
      assert forall k :: 0 <= k < |front| ==> Ids(front)[k] == Ids(documents)[k];
      PrerequisitesFound(front, i);
      assert Ids(documents)[i] != Ids(documents)[|front|];
    }
  }

  /** A chained list of distinct documents is a well-formed graph with its first document as the only root. */
  lemma ChainedIsWellFormed(documents: seq<Document>, parents: seq<nat>)
    requires documents != [] && Distinct(Ids(documents)) && Chained(documents, parents)
    ensures DagErrors.WellFormedDag(Ids(documents), Prerequisites(documents), documents[0].id)
  {
    var ids, deps := Ids(documents), Prerequisites(documents);
    forall i | 0 <= i < |documents|
      ensures DependenciesOf(deps, ids[i]) == if i == 0 then [] else [ids[parents[i]]]
    {
      PrerequisitesFound(documents, i);
    }
    ChainOrder(ids, deps, parents);
    OnlyFirstIsRoot(ids, deps, |ids|);
  }

  lemma ChainOrder(ids: seq<string>, deps: Dependencies, parents: seq<nat>)
    requires Distinct(ids) && |parents| == |ids|
    requires forall i :: 0 < i < |ids| ==> parents[i] < i
    requires forall i :: 0 <= i < |ids| ==> DependenciesOf(deps, ids[i]) == if i == 0 then [] else [ids[parents[i]]]
    ensures Acyclic(ProperArcs(DagErrors.Nodes(ids), deps))
    ensures DagErrors.SoundUpTo(ids, deps, |ids|)
  {
    var arcs := ProperArcs(DagErrors.Nodes(ids), deps);
    forall k, b | 0 <= k < |ids| && (ids[k], b) in arcs
      ensures b in ids[..k]
    {
      assert b == ids[parents[k]] == ids[..k][parents[k]];
    }
    OrderMeansAcyclic(arcs, ids);
    forall k | 0 <= k < |ids|
      ensures DagErrors.Sound(ids, deps, ids[k])
    {
      if 0 < k {
        assert ids[parents[k]] in ids && ids[parents[k]] != ids[k];
      }
    }
  }

  lemma {:induction false} OnlyFirstIsRoot(ids: seq<string>, deps: Dependencies, n: nat)
    requires 0 < n <= |ids| && DependenciesOf(deps, ids[0]) == []
    requires forall i :: 0 < i < |ids| ==> DependenciesOf(deps, ids[i]) != []
    ensures DagErrors.RootsUpTo(ids, deps, n) == [ids[0]]
  {
    if 1 < n {
      OnlyFirstIsRoot(ids, deps, n - 1);
    } else {
      assert DagErrors.RootsUpTo(ids, deps, 0) == [];
    }
  }

  /** Every well-ordered group table builds a graph that `_dag_errors` accepts. */
  lemma WellOrderedTablePasses(groups: seq<Group>)
    requires WellOrdered(groups)
    ensures DagErrors.WellFormedDag(
      Ids(Documents(groups)), Prerequisites(Documents(groups)), groups[0].rows[0])
  {
    var parents := BuiltChained(groups, |groups|, 0);
    ChainedIsWellFormed(Documents(groups), parents);
  }

  // ---------- renaming documents into dossier nodes ----------

  type Renaming = map<string, string>

  ghost predicate InjectiveOn(f: Renaming, ids: seq<string>) {
    && (forall x :: x in ids ==> x in f)
    && (forall x, y :: x in ids && y in ids && x != y ==> f[x] != f[y])
  }

  function RenameAll(f: Renaming, xs: seq<string>): (ys: seq<string>)
    requires forall x :: x in xs ==> x in f
    ensures |ys| == |xs| && forall i :: 0 <= i < |xs| ==> ys[i] == f[xs[i]]
  {
    seq(|xs|, i requires 0 <= i < |xs| => f[xs[i]])
  }

  /** The dependencies of the renamed ids are the renamed dependencies. */
  ghost predicate RenamedTable(f: Renaming, ids: seq<string>, deps: Dependencies, renamed: Dependencies) {
    forall x :: x in ids ==>
      && x in f
      && (forall d :: d in DependenciesOf(deps, x) ==> d in f)
      && DependenciesOf(renamed, f[x]) == RenameAll(f, DependenciesOf(deps, x))
  }

  /** The renaming covers the ids of the documents and their prerequisites. */
  ghost predicate Covers(f: Renaming, documents: seq<Document>) {
    forall d :: d in documents ==> d.id in f && forall p :: p in d.prerequisites ==> p in f
  }

  /** One renamed node per document. */
  ghost predicate NodesOf(f: Renaming, documents: seq<Document>, nodes: seq<Document>)
    requires Covers(f, documents)
  {
    && |nodes| == |documents|
    && forall i :: 0 <= i < |documents| ==>
         nodes[i].id == f[documents[i].id] && nodes[i].prerequisites == RenameAll(f, documents[i].prerequisites)
  }

  /** `_build_nodes`, on the ids and dependencies. */
  method BuildNodes(documents: seq<Document>, nodeIdByType: Renaming) returns (nodes: seq<Document>)
    requires Covers(nodeIdByType, documents)
    ensures NodesOf(nodeIdByType, documents, nodes)
  {
    nodes := seq(|documents|, i requires 0 <= i < |documents| =>
      Document(nodeIdByType[documents[i].id], RenameAll(nodeIdByType, documents[i].prerequisites)));
  }

  /** A map of nodes that takes arcs to arcs takes cycles to cycles. */
  lemma CyclesCarryOver(arcs: set<Arc>, image: set<Arc>, f: Renaming)
    requires forall a, b :: (a, b) in arcs ==> a in f && b in f && (f[a], f[b]) in image
    requires Acyclic(image)
    ensures Acyclic(arcs)
  {
    forall p
      ensures !IsCycle(arcs, p)
    {
      if IsCycle(arcs, p) {
        forall x | x in p
          ensures x in f
        {
          var k :| 0 <= k < |p| && p[k] == x;
          if k < |p| - 1 {
            assert (p[k], p[k + 1]) in arcs;
          } else {
            assert (p[0], p[1]) in arcs;
          }
        }
        var q := RenameAll(f, p);
        forall k | 0 <= k < |q| - 1
          ensures (q[k], q[k + 1]) in image
        {
          assert (p[k], p[k + 1]) in arcs;
        }
        assert IsCycle(image, q);
      }
    }
  }

  ghost function Inverse(f: Renaming, ids: seq<string>): (g: Renaming)
    requires InjectiveOn(f, ids)
    ensures forall x :: x in ids ==> f[x] in g && g[f[x]] == x
  {
    if ids == [] then map[] else
    assert ids == ids[..|ids| - 1] + [ids[|ids| - 1]];
    Inverse(f, ids[..|ids| - 1])[f[ids[|ids| - 1]] := ids[|ids| - 1]]
  }

  lemma RenamedArcs(f: Renaming, ids: seq<string>, deps: Dependencies, renamed: Dependencies, x: string, y: string)
    requires InjectiveOn(f, ids) && RenamedTable(f, ids, deps, renamed)
    requires forall a, d :: a in ids && d in DependenciesOf(deps, a) ==> d in ids
    requires x in ids && y in ids
    ensures y in DependenciesOf(deps, x) <==> f[y] in DependenciesOf(renamed, f[x])
  {
    var xs, ys := DependenciesOf(deps, x), DependenciesOf(renamed, f[x]);
    if y in xs {
      var i :| 0 <= i < |xs| && xs[i] == y;
      assert ys[i] == f[y];
    }
    if f[y] in ys {
      var i :| 0 <= i < |ys| && ys[i] == f[y];
      assert xs[i] in xs && f[xs[i]] == f[y];
    }
  }

  lemma RenamedAcyclic(f: Renaming, ids: seq<string>, deps: Dependencies, renamed: Dependencies)
    requires InjectiveOn(f, ids) && RenamedTable(f, ids, deps, renamed)
    requires forall a, d :: a in ids && d in DependenciesOf(deps, a) ==> d in ids
    ensures Acyclic(ProperArcs(DagErrors.Nodes(ids), deps))
       <==> Acyclic(ProperArcs(DagErrors.Nodes(RenameAll(f, ids)), renamed))
  {
    var arcs := ProperArcs(DagErrors.Nodes(ids), deps);
    var image := ProperArcs(DagErrors.Nodes(RenameAll(f, ids)), renamed);
    ArcsMapInto(f, ids, deps, renamed);
    ArcsMapBack(f, ids, deps, renamed);
    if Acyclic(image) {
      CyclesCarryOver(arcs, image, f);
    }
    if Acyclic(arcs) {
      CyclesCarryOver(image, arcs, Inverse(f, ids));
    }
  }

  lemma ArcsMapInto(f: Renaming, ids: seq<string>, deps: Dependencies, renamed: Dependencies)
    requires InjectiveOn(f, ids) && RenamedTable(f, ids, deps, renamed)
    requires forall a, d :: a in ids && d in DependenciesOf(deps, a) ==> d in ids
    ensures forall a, b :: (a, b) in ProperArcs(DagErrors.Nodes(ids), deps) ==>
      a in f && b in f && (f[a], f[b]) in ProperArcs(DagErrors.Nodes(RenameAll(f, ids)), renamed)
  {
    forall a, b | (a, b) in ProperArcs(DagErrors.Nodes(ids), deps)
      ensures a in f && b in f && (f[a], f[b]) in ProperArcs(DagErrors.Nodes(RenameAll(f, ids)), renamed)
    {
      RenamedArcs(f, ids, deps, renamed, a, b);
      RenamedMember(f, ids, a);
      RenamedMember(f, ids, b);
    }
  }

  lemma ArcsMapBack(f: Renaming, ids: seq<string>, deps: Dependencies, renamed: Dependencies)
    requires InjectiveOn(f, ids) && RenamedTable(f, ids, deps, renamed)
    requires forall a, d :: a in ids && d in DependenciesOf(deps, a) ==> d in ids
    ensures
      var g := Inverse(f, ids);
      forall a, b :: (a, b) in ProperArcs(DagErrors.Nodes(RenameAll(f, ids)), renamed) ==>
        a in g && b in g && (g[a], g[b]) in ProperArcs(DagErrors.Nodes(ids), deps)
  {
    var ids', g := RenameAll(f, ids), Inverse(f, ids);
    forall a, b | (a, b) in ProperArcs(DagErrors.Nodes(ids'), renamed)
      ensures a in g && b in g && (g[a], g[b]) in ProperArcs(DagErrors.Nodes(ids), deps)
    {
      var i :| 0 <= i < |ids| && ids'[i] == a;
      var j :| 0 <= j < |ids| && ids'[j] == b;
      RenamedArcs(f, ids, deps, renamed, ids[i], ids[j]);
    }
  }

  lemma RenamedMember(f: Renaming, ids: seq<string>, x: string)
    requires x in ids && forall y :: y in ids ==> y in f
    ensures f[x] in RenameAll(f, ids)
  {
    var i :| 0 <= i < |ids| && ids[i] == x;
    assert RenameAll(f, ids)[i] == f[x];
  }

  lemma RenameAppend(f: Renaming, xs: seq<string>, x: string)
    requires x in f && forall y :: y in xs ==> y in f
    ensures forall y :: y in xs + [x] ==> y in f
    ensures RenameAll(f, xs + [x]) == RenameAll(f, xs) + [f[x]]
  {
  }

  /** One more id in both lists. */
  lemma RootsStep(ids: seq<string>, deps: Dependencies, n: nat)
    requires 0 < n <= |ids|
    ensures
      var front := DagErrors.RootsUpTo(ids, deps, n - 1);
      DagErrors.RootsUpTo(ids, deps, n) ==
        if DependenciesOf(deps, ids[n - 1]) == [] then front + [ids[n - 1]] else front
  {
  }

  lemma {:induction false} RenamedRoots(
    f: Renaming, ids: seq<string>, names: seq<string>, deps: Dependencies, renamed: Dependencies, n: nat)
    requires n <= |ids| == |names| && forall i :: 0 <= i < |ids| ==> ids[i] in f && names[i] == f[ids[i]]
    requires forall i :: 0 <= i < |ids| ==>
      (DependenciesOf(deps, ids[i]) == [] <==> DependenciesOf(renamed, names[i]) == [])
    ensures forall x :: x in DagErrors.RootsUpTo(ids, deps, n) ==> x in f
    ensures DagErrors.RootsUpTo(names, renamed, n) == RenameAll(f, DagErrors.RootsUpTo(ids, deps, n))
  {
    if 0 < n {
      RenamedRoots(f, ids, names, deps, renamed, n - 1);
      RootsStep(ids, deps, n);
      RootsStep(names, renamed, n);
      RenameAppend(f, DagErrors.RootsUpTo(ids, deps, n - 1), ids[n - 1]);
    }
  }

  lemma RenamedRoot(f: Renaming, ids: seq<string>, roots: seq<string>, root: string)
    requires InjectiveOn(f, ids) && root in ids && forall x :: x in roots ==> x in ids
    ensures roots == [root] <==> RenameAll(f, roots) == [f[root]]
  {
    if RenameAll(f, roots) == [f[root]] {
      assert |roots| == 1 && roots[0] in roots && f[roots[0]] == f[root];
    }
  }

  lemma RenamedDistinct(f: Renaming, ids: seq<string>)
    requires InjectiveOn(f, ids)
    ensures Distinct(ids) <==> Distinct(RenameAll(f, ids))
  {
    if Distinct(RenameAll(f, ids)) {
      forall i, j | 0 <= i < j < |ids|
        ensures ids[i] != ids[j]
      {
        assert RenameAll(f, ids)[i] != RenameAll(f, ids)[j];
      }
    }
  }

  lemma RenamedSoundness(f: Renaming, ids: seq<string>, deps: Dependencies, renamed: Dependencies)
    requires InjectiveOn(f, ids) && RenamedTable(f, ids, deps, renamed)
    requires forall a, d :: a in ids && d in DependenciesOf(deps, a) ==> d in ids
    ensures DagErrors.SoundUpTo(ids, deps, |ids|)
       <==> DagErrors.SoundUpTo(RenameAll(f, ids), renamed, |RenameAll(f, ids)|)
  {
    forall i | 0 <= i < |ids|
      ensures DagErrors.Sound(ids, deps, ids[i]) <==> DagErrors.Sound(RenameAll(f, ids), renamed, RenameAll(f, ids)[i])
    {
      RenamedSound(f, ids, deps, renamed, i);
    }
  }

  /** Renaming by an injection keeps the verdict of the dependency check. */
  lemma RenamingKeepsVerdict(f: Renaming, ids: seq<string>, deps: Dependencies, renamed: Dependencies, root: string)
    requires InjectiveOn(f, ids) && RenamedTable(f, ids, deps, renamed) && root in ids
    requires forall a, d :: a in ids && d in DependenciesOf(deps, a) ==> d in ids
    ensures DagErrors.WellFormedDag(ids, deps, root)
       <==> DagErrors.WellFormedDag(RenameAll(f, ids), renamed, f[root])
  {
    RenamedAcyclic(f, ids, deps, renamed);
    var names := RenameAll(f, ids);
    forall i | 0 <= i < |ids|
      ensures DependenciesOf(deps, ids[i]) == [] <==> DependenciesOf(renamed, names[i]) == []
    {
      assert ids[i] in ids && |DependenciesOf(renamed, names[i])| == |DependenciesOf(deps, ids[i])|;
    }
    RenamedRoots(f, ids, names, deps, renamed, |ids|);
    RenamedRoot(f, ids, DagErrors.Roots(ids, deps), root);
    RenamedDistinct(f, ids);
    RenamedSoundness(f, ids, deps, renamed);
  }

  lemma RenamedSound(f: Renaming, ids: seq<string>, deps: Dependencies, renamed: Dependencies, i: nat)
    requires InjectiveOn(f, ids) && RenamedTable(f, ids, deps, renamed) && i < |ids|
    requires forall a, d :: a in ids && d in DependenciesOf(deps, a) ==> d in ids
    ensures DagErrors.Sound(ids, deps, ids[i]) <==> DagErrors.Sound(RenameAll(f, ids), renamed, RenameAll(f, ids)[i])
  {
    var xs, ys := DependenciesOf(deps, ids[i]), DependenciesOf(renamed, f[ids[i]]);
    RenamedArcs(f, ids, deps, renamed, ids[i], ids[i]);
    forall y | y in ys
      ensures y in RenameAll(f, ids)
    {
      var k :| 0 <= k < |ys| && ys[k] == y;
      assert xs[k] in xs && y == f[xs[k]];
      RenamedMember(f, ids, xs[k]);
    }
  }

  /** Two documents that get the same node id make the dossier graph fail the check. */
  lemma CollidingNamesRejected(f: Renaming, ids: seq<string>, renamed: Dependencies, root: string)
    requires (forall x :: x in ids ==> x in f) && Distinct(ids) && !InjectiveOn(f, ids)
    ensures !DagErrors.WellFormedDag(RenameAll(f, ids), renamed, root)
  {
    var x, y :| x in ids && y in ids && x != y && f[x] == f[y];
    var i :| 0 <= i < |ids| && ids[i] == x;
    var j :| 0 <= j < |ids| && ids[j] == y;
    assert RenameAll(f, ids)[i] == RenameAll(f, ids)[j];
  }

  /** The graph of the nodes is the renamed graph of the documents. */
  lemma NodesAreRenamed(f: Renaming, documents: seq<Document>, nodes: seq<Document>)
    requires Distinct(Ids(documents)) && Covers(f, documents) && InjectiveOn(f, Ids(documents))
    requires NodesOf(f, documents, nodes)
    ensures Ids(nodes) == RenameAll(f, Ids(documents))
    ensures RenamedTable(f, Ids(documents), Prerequisites(documents), Prerequisites(nodes))
  {
    var ids := Ids(documents);
    assert Ids(nodes) == RenameAll(f, ids);
    RenamedDistinct(f, ids);
    forall x | x in ids
      ensures forall d :: d in DependenciesOf(Prerequisites(documents), x) ==> d in f
      ensures DependenciesOf(Prerequisites(nodes), f[x]) == RenameAll(f, DependenciesOf(Prerequisites(documents), x))
    {
      var i :| 0 <= i < |ids| && ids[i] == x;
      PrerequisitesFound(documents, i);
      PrerequisitesFound(nodes, i);
      assert documents[i] in documents;
    }
  }

  /** The dossier graph passes the dependency check iff the catalog graph does. */
  lemma DossierKeepsVerdict(f: Renaming, documents: seq<Document>, nodes: seq<Document>, root: string)
    requires Distinct(Ids(documents)) && Covers(f, documents) && InjectiveOn(f, Ids(documents))
    requires NodesOf(f, documents, nodes) && root in Ids(documents)
    requires forall d, p :: d in documents && p in d.prerequisites ==> p in Ids(documents)
    ensures DagErrors.WellFormedDag(Ids(documents), Prerequisites(documents), root)
       <==> DagErrors.WellFormedDag(Ids(nodes), Prerequisites(nodes), f[root])
  {
    var ids, deps := Ids(documents), Prerequisites(documents);
    NodesAreRenamed(f, documents, nodes);
    forall a, d | a in ids && d in DependenciesOf(deps, a)
      ensures d in ids
    {
      var i :| 0 <= i < |ids| && ids[i] == a;
      PrerequisitesFound(documents, i);
      assert documents[i] in documents;
    }
    RenamingKeepsVerdict(f, ids, deps, Prerequisites(nodes), root);
  }

  lemma WellOrderedIsClosed(groups: seq<Group>)
    requires WellOrdered(groups)
    ensures groups[0].rows[0] in Ids(Documents(groups))
    ensures forall d, p :: d in Documents(groups) && p in d.prerequisites ==> p in Ids(Documents(groups))
  {
    var documents := Documents(groups);
    var parents := BuiltChained(groups, |groups|, 0);
    assert Ids(documents)[0] == groups[0].rows[0];
    forall d, p | d in documents && p in d.prerequisites
      ensures p in Ids(documents)
    {
      var i :| 0 <= i < |documents| && documents[i] == d;
      if i != 0 {
        assert p == Ids(documents)[parents[i]];
      }
    }
  }

  /** Catalog and dossier together: the dossier built from any well-ordered table passes the dependency check. */
  method BuildDossier(groups: seq<Group>, nodeIdByType: Renaming) returns (nodes: seq<Document>)
    requires WellOrdered(groups) && InjectiveOn(nodeIdByType, Ids(Documents(groups)))
    ensures
      var root := groups[0].rows[0];
      root in nodeIdByType && DagErrors.WellFormedDag(Ids(nodes), Prerequisites(nodes), nodeIdByType[root])
  {
    var documents := BuildDocuments(groups);
    WellOrderedIsClosed(groups);
    forall d | d in documents
      ensures d.id in nodeIdByType && forall p :: p in d.prerequisites ==> p in nodeIdByType
    {
      var i :| 0 <= i < |documents| && documents[i] == d;
      assert Ids(documents)[i] in Ids(documents);
    }
    nodes := BuildNodes(documents, nodeIdByType);
    WellOrderedTablePasses(groups);
    DossierKeepsVerdict(nodeIdByType, documents, nodes, groups[0].rows[0]);
  }
}
