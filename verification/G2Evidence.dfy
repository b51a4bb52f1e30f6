/** Preservation, collection, review and production of the evidence inventory (g2.py), artifact by artifact. */
module G2Evidence {
  import opened G2World
  import opened Strings
  import opened Wrappers

  datatype Status = Preserved | Collected | Reviewed | WithheldNonresponsive | Produced

  datatype EvidenceFile = EvidenceFile(
    status: map<string, Status>,
    custody: map<string, seq<CustodyStep>>,
    produced: seq<string>,
    conflictCandidates: seq<string>)

  const NO_EVIDENCE := EvidenceFile(map[], map[], [], [])

  datatype EvidenceError = NotPreserved(artifactId: string) | NotCollected(artifactId: string) | ProductionEmpty

  /** A pass over the inventory that may stop, leaving behind what it has done so far. */
  datatype Pass = Done(file: EvidenceFile) | Stopped(error: EvidenceError, file: EvidenceFile)

  function StatusOf(f: EvidenceFile, id: string): Option<Status> {
    if id in f.status then Some(f.status[id]) else None
  }

  function LogOf(f: EvidenceFile, id: string): seq<CustodyStep> {
    if id in f.custody then f.custody[id] else []
  }

  function Marked(f: EvidenceFile, id: string, s: Status, log: seq<CustodyStep>): EvidenceFile {
    f.(status := f.status[id := s], custody := f.custody[id := log])
  }

  predicate Selected(a: Artifact) {
    a.responsive && !a.privileged
  }

  function FirstHash(a: Artifact): string {
    a.custody[0].objectHash
  }

  /** `artifact.custody[0]` and `artifact.custody[1:]`, as logs. */
  function FirstSteps(a: Artifact): seq<CustodyStep> {
    a.custody[..1]
  }

  function LaterSteps(a: Artifact): seq<CustodyStep> {
    a.custody[1..]
  }

  function ReviewStep(a: Artifact, reviewer: Actor): CustodyStep {
    CustodyStep("reviewed", reviewer, 51, FirstHash(a))
  }

  function ProductionStep(a: Artifact, producer: Actor): CustodyStep {
    CustodyStep("produced", producer, 52, FirstHash(a))
  }

  // ---------- conflicting claims ----------

  /** The claims of the first `n` artifacts that were selected. */
  function SelectedClaims(artifacts: seq<Artifact>, n: nat): seq<Claim>
    requires n <= |artifacts|
  {
    if n == 0 then []
    else SelectedClaims(artifacts, n - 1) + if Selected(artifacts[n - 1]) then artifacts[n - 1].claims else []
  }

  /** A dictionary from facts to the values claimed for them, with its keys in order of insertion. */
  datatype ClaimTable = ClaimTable(facts: seq<string>, values: map<string, set<string>>)

  function AddClaim(t: ClaimTable, c: Claim): ClaimTable {
    if c.factId in t.values then t.(values := t.values[c.factId := t.values[c.factId] + {c.value}])
    else ClaimTable(t.facts + [c.factId], t.values[c.factId := {c.value}])
  }

  function Tabulate(claims: seq<Claim>, n: nat): ClaimTable
    requires n <= |claims|
  {
    if n == 0 then ClaimTable([], map[]) else AddClaim(Tabulate(claims, n - 1), claims[n - 1])
  }

  /** The facts among the first `n` with more than one value, in order of insertion. */
  function Contested(t: ClaimTable, n: nat): seq<string>
    requires n <= |t.facts|
  {
    if n == 0 then []
    else
      var id := t.facts[n - 1];
      Contested(t, n - 1) + if id in t.values && 1 < |t.values[id]| then [id] else []
  }

  /** `sorted(fact_id for fact_id, values in table.items() if len(values) > 1)` */
  function ConflictList(claims: seq<Claim>): seq<string> {
    var t := Tabulate(claims, |claims|);
    Sort(Contested(t, |t.facts|))
  }

  method AddClaims(table: ClaimTable, ghost before: seq<Claim>, claims: seq<Claim>) returns (added: ClaimTable)
    requires table == Tabulate(before, |before|)
    ensures added == Tabulate(before + claims, |before + claims|)
  {
    added := table;
    ghost var all := before + claims;
    TabulatePrefix(before, all, |before|);
    for k := 0 to |claims|
      invariant added == Tabulate(all, |before| + k)
    {
      assert all[|before| + k] == claims[k];
      added := AddClaim(added, claims[k]);
    }
  }

  lemma {:induction false} TabulatePrefix(claims: seq<Claim>, more: seq<Claim>, n: nat)
    requires n <= |claims| <= |more| && more[..|claims|] == claims
    ensures Tabulate(more, n) == Tabulate(claims, n)
  {
    if n != 0 {
      TabulatePrefix(claims, more, n - 1);
      assert more[n - 1] == claims[n - 1];
    }
  }

  // ---------- what the passes do ----------

  function PreservedUpTo(f: EvidenceFile, artifacts: seq<Artifact>, n: nat): EvidenceFile
    requires n <= |artifacts|
  {
    if n == 0 then f
    else
      var a := artifacts[n - 1];
      Marked(PreservedUpTo(f, artifacts, n - 1), a.artifactId, Preserved, FirstSteps(a))
  }

  function CollectedUpTo(f: EvidenceFile, artifacts: seq<Artifact>, n: nat): Pass
    requires n <= |artifacts|
  {
    if n == 0 then Done(f)
    else
      var before, a := CollectedUpTo(f, artifacts, n - 1), artifacts[n - 1];
      if before.Stopped? then before
      else if StatusOf(before.file, a.artifactId) != Some(Preserved) then
        Stopped(NotPreserved(a.artifactId), before.file)
      else
        Done(Marked(before.file, a.artifactId, Collected, LogOf(before.file, a.artifactId) + LaterSteps(a)))
  }

  function ReviewedUpTo(f: EvidenceFile, artifacts: seq<Artifact>, reviewer: Actor, n: nat): Pass
    requires n <= |artifacts|
  {
    if n == 0 then Done(f)
    else
      var before, a := ReviewedUpTo(f, artifacts, reviewer, n - 1), artifacts[n - 1];
      if before.Stopped? then before
      else if StatusOf(before.file, a.artifactId) != Some(Collected) then
        Stopped(NotCollected(a.artifactId), before.file)
      else if Selected(a) then
        Done(Marked(before.file, a.artifactId, Reviewed, LogOf(before.file, a.artifactId) + [ReviewStep(a, reviewer)]))
      else
        Done(before.file.(status := before.file.status[a.artifactId := WithheldNonresponsive]))
  }

  function ReviewPass(f: EvidenceFile, artifacts: seq<Artifact>, reviewer: Actor): Pass {
    var pass := ReviewedUpTo(f, artifacts, reviewer, |artifacts|);
    if pass.Stopped? then pass
    else Done(pass.file.(conflictCandidates := ConflictList(SelectedClaims(artifacts, |artifacts|))))
  }

  /** The ids of the first `n` artifacts that are reviewed. */
  function ReviewedIds(f: EvidenceFile, artifacts: seq<Artifact>, n: nat): (ids: seq<string>)
    requires n <= |artifacts|
    ensures |ids| <= n
  {
    if n == 0 then []
    else
      var id, before := artifacts[n - 1].artifactId, ReviewedIds(f, artifacts, n - 1);
      if StatusOf(f, id) == Some(Reviewed) then before + [id] else before
  }

  /** `_artifact`: the first artifact with the id. */
  function FindArtifact(artifacts: seq<Artifact>, id: string, n: nat): Option<Artifact>
    requires n <= |artifacts|
  {
    if n == 0 then None
    else
      var before := FindArtifact(artifacts, id, n - 1);
      if before.Some? then before
      else if artifacts[n - 1].artifactId == id then Some(artifacts[n - 1])
      else None
  }

  function ProducedUpTo(
      f: EvidenceFile, artifacts: seq<Artifact>, ids: seq<string>, producer: Actor, n: nat): EvidenceFile
    requires n <= |ids|
  {
    if n == 0 then f
    else
      var before, id := ProducedUpTo(f, artifacts, ids, producer, n - 1), ids[n - 1];
      match FindArtifact(artifacts, id, |artifacts|)
      case None => before
      case Some(a) =>
        Marked(before.(produced := before.produced + [id]), id, Produced,
               LogOf(before, id) + [ProductionStep(a, producer)])
  }

  function ProductionPass(f: EvidenceFile, artifacts: seq<Artifact>, producer: Actor): Pass {
    var ids := ReviewedIds(f, artifacts, |artifacts|);
    if ids == [] then Stopped(ProductionEmpty, f)
    else Done(ProducedUpTo(f, artifacts, ids, producer, |ids|))
  }

  // ---------- phases of an inventory with distinct ids ----------

  datatype Phase = Untouched | InPreservation | InCollection | InReview | InProduction

  function StatusIn(phase: Phase, a: Artifact): Option<Status> {
    match phase
    case Untouched => None
    case InPreservation => Some(Preserved)
    case InCollection => Some(Collected)
    case InReview => Some(if Selected(a) then Reviewed else WithheldNonresponsive)
    case InProduction => Some(if Selected(a) then Produced else WithheldNonresponsive)
  }

  /** The custody log that a status implies. */
  function LogFor(a: Artifact, s: Option<Status>): seq<CustodyStep> {
    match s
    case None => []
    case Some(Preserved) => FirstSteps(a)
    case Some(Collected) => a.custody
    case Some(WithheldNonresponsive) => a.custody
    case Some(Reviewed) => a.custody + [ReviewStep(a, ResponsibleLawyer)]
    case Some(Produced) => a.custody + [ReviewStep(a, ResponsibleLawyer), ProductionStep(a, LitigationParalegal)]
  }

  ghost predicate ArtifactIn(f: EvidenceFile, a: Artifact, phase: Phase) {
    StatusOf(f, a.artifactId) == StatusIn(phase, a) && LogOf(f, a.artifactId) == LogFor(a, StatusIn(phase, a))
  }

  ghost predicate InventoryIn(f: EvidenceFile, artifacts: seq<Artifact>, phase: Phase) {
    forall i :: 0 <= i < |artifacts| ==> ArtifactIn(f, artifacts[i], phase)
  }

  /** The phase of artifact `i` when a pass has dealt with the first `n`. */
  function PhaseAt(i: nat, n: nat, next: Phase, phase: Phase): Phase {
    if i < n then next else phase
  }

  /** During a pass, the first `n` artifacts are in the new phase and the others still in the old one. */
  ghost predicate Between(f: EvidenceFile, artifacts: seq<Artifact>, n: nat, next: Phase, phase: Phase) {
    forall i: nat {:trigger ArtifactIn(f, artifacts[i], PhaseAt(i, n, next, phase))} :: i < |artifacts| ==>
      ArtifactIn(f, artifacts[i], PhaseAt(i, n, next, phase))
  }

  lemma BetweenStarts(f: EvidenceFile, artifacts: seq<Artifact>, next: Phase, phase: Phase)
    requires InventoryIn(f, artifacts, phase)
    ensures Between(f, artifacts, 0, next, phase)
  {
    forall i: nat | i < |artifacts|
      ensures ArtifactIn(f, artifacts[i], PhaseAt(i, 0, next, phase))
    {
      assert ArtifactIn(f, artifacts[i], phase);
    }
  }

  /** Marking one artifact touches no other. */
  lemma MarkingMovesOne(
      f: EvidenceFile, g: EvidenceFile, artifacts: seq<Artifact>, n: nat, next: Phase, phase: Phase)
    requires DistinctArtifacts(artifacts) && n < |artifacts| && Between(f, artifacts, n, next, phase)
    requires ArtifactIn(g, artifacts[n], next)
    requires forall id :: id != artifacts[n].artifactId ==>
      StatusOf(g, id) == StatusOf(f, id) && LogOf(g, id) == LogOf(f, id)
    ensures Between(g, artifacts, n + 1, next, phase)
  {
    forall i: nat | i < |artifacts|
      ensures ArtifactIn(g, artifacts[i], PhaseAt(i, n + 1, next, phase))
    {
      if i != n {
        var id := artifacts[i].artifactId;
        assert id != artifacts[n].artifactId;
        assert ArtifactIn(f, artifacts[i], PhaseAt(i, n, next, phase));
        assert StatusOf(g, id) == StatusOf(f, id);
      }
    }
  }

  ghost predicate PreservationAt(f: EvidenceFile, artifacts: seq<Artifact>, phase: Phase, n: nat)
    requires n <= |artifacts|
  {
    var g := PreservedUpTo(f, artifacts, n);
    && Between(g, artifacts, n, InPreservation, phase)
    && g.produced == f.produced && g.conflictCandidates == f.conflictCandidates
  }

  lemma PreservationAdvances(f: EvidenceFile, artifacts: seq<Artifact>, phase: Phase, k: nat)
    requires DistinctArtifacts(artifacts) && k < |artifacts| && PreservationAt(f, artifacts, phase, k)
    ensures PreservationAt(f, artifacts, phase, k + 1)
  {
    var before, after := PreservedUpTo(f, artifacts, k), PreservedUpTo(f, artifacts, k + 1);
    MarkingMovesOne(before, after, artifacts, k, InPreservation, phase);
  }

  lemma PreservationBegins(f: EvidenceFile, artifacts: seq<Artifact>, phase: Phase)
    requires InventoryIn(f, artifacts, phase)
    ensures PreservationAt(f, artifacts, phase, 0)
  {
    BetweenStarts(f, artifacts, InPreservation, phase);
  }

  lemma {:induction false} PreservationMoves(f: EvidenceFile, artifacts: seq<Artifact>, phase: Phase, n: nat)
    requires DistinctArtifacts(artifacts) && n <= |artifacts| && PreservationAt(f, artifacts, phase, 0)
    ensures PreservationAt(f, artifacts, phase, n)
  {
    if n != 0 {
      PreservationMoves(f, artifacts, phase, n - 1);
      PreservationAdvances(f, artifacts, phase, n - 1);
    }
  }

  function WithCollected(f: EvidenceFile, a: Artifact): EvidenceFile {
    Marked(f, a.artifactId, Collected, LogOf(f, a.artifactId) + LaterSteps(a))
  }

  lemma OneCollected(f: EvidenceFile, artifacts: seq<Artifact>, k: nat)
    requires DistinctArtifacts(artifacts) && k < |artifacts| && Between(f, artifacts, k, InCollection, InPreservation)
    ensures StatusOf(f, artifacts[k].artifactId) == Some(Preserved)
    ensures Between(WithCollected(f, artifacts[k]), artifacts, k + 1, InCollection, InPreservation)
  {
    var a := artifacts[k];
    assert ArtifactIn(f, artifacts[k], PhaseAt(k, k, InCollection, InPreservation));
    assert FirstSteps(a) + LaterSteps(a) == a.custody;
    MarkingMovesOne(f, WithCollected(f, a), artifacts, k, InCollection, InPreservation);
  }

  ghost predicate CollectionAt(f: EvidenceFile, artifacts: seq<Artifact>, n: nat)
    requires n <= |artifacts|
  {
    var pass := CollectedUpTo(f, artifacts, n);
    && pass.Done? && Between(pass.file, artifacts, n, InCollection, InPreservation)
    && pass.file.produced == f.produced && pass.file.conflictCandidates == f.conflictCandidates
  }

  lemma CollectionAdvances(f: EvidenceFile, artifacts: seq<Artifact>, k: nat)
    requires DistinctArtifacts(artifacts) && k < |artifacts| && CollectionAt(f, artifacts, k)
    ensures CollectionAt(f, artifacts, k + 1)
  {
    OneCollected(CollectedUpTo(f, artifacts, k).file, artifacts, k);
  }

  lemma CollectionBegins(f: EvidenceFile, artifacts: seq<Artifact>)
    requires InventoryIn(f, artifacts, InPreservation)
    ensures CollectionAt(f, artifacts, 0)
  {
    BetweenStarts(f, artifacts, InCollection, InPreservation);
  }

  lemma {:induction false} CollectionMoves(f: EvidenceFile, artifacts: seq<Artifact>, n: nat)
    requires DistinctArtifacts(artifacts) && n <= |artifacts| && CollectionAt(f, artifacts, 0)
    ensures CollectionAt(f, artifacts, n)
  {
    if n != 0 {
      CollectionMoves(f, artifacts, n - 1);
      CollectionAdvances(f, artifacts, n - 1);
    }
  }

  lemma {:induction false} CollectionStops(f: EvidenceFile, artifacts: seq<Artifact>, phase: Phase, n: nat)
    requires 0 < n <= |artifacts|
    requires ArtifactIn(f, artifacts[0], phase) && phase != InPreservation
    ensures CollectedUpTo(f, artifacts, n) == Stopped(NotPreserved(artifacts[0].artifactId), f)
  {
    if n == 1 {
      assert CollectedUpTo(f, artifacts, 0) == Done(f);
    } else {
      CollectionStops(f, artifacts, phase, n - 1);
    }
  }

  function WithReviewed(f: EvidenceFile, a: Artifact): EvidenceFile {
    if Selected(a) then
      Marked(f, a.artifactId, Reviewed, LogOf(f, a.artifactId) + [ReviewStep(a, ResponsibleLawyer)])
    else
      f.(status := f.status[a.artifactId := WithheldNonresponsive])
  }

  lemma OneReviewed(f: EvidenceFile, artifacts: seq<Artifact>, k: nat)
    requires DistinctArtifacts(artifacts) && k < |artifacts| && Between(f, artifacts, k, InReview, InCollection)
    ensures StatusOf(f, artifacts[k].artifactId) == Some(Collected)
    ensures Between(WithReviewed(f, artifacts[k]), artifacts, k + 1, InReview, InCollection)
  {
    assert ArtifactIn(f, artifacts[k], PhaseAt(k, k, InReview, InCollection));
    MarkingMovesOne(f, WithReviewed(f, artifacts[k]), artifacts, k, InReview, InCollection);
  }

  ghost predicate ReviewAt(f: EvidenceFile, artifacts: seq<Artifact>, n: nat)
    requires n <= |artifacts|
  {
    var pass := ReviewedUpTo(f, artifacts, ResponsibleLawyer, n);
    && pass.Done? && Between(pass.file, artifacts, n, InReview, InCollection)
    && pass.file.produced == f.produced && pass.file.conflictCandidates == f.conflictCandidates
  }

  lemma ReviewAdvances(f: EvidenceFile, artifacts: seq<Artifact>, k: nat)
    requires DistinctArtifacts(artifacts) && k < |artifacts| && ReviewAt(f, artifacts, k)
    ensures ReviewAt(f, artifacts, k + 1)
  {
    OneReviewed(ReviewedUpTo(f, artifacts, ResponsibleLawyer, k).file, artifacts, k);
  }

  lemma ReviewBegins(f: EvidenceFile, artifacts: seq<Artifact>)
    requires InventoryIn(f, artifacts, InCollection)
    ensures ReviewAt(f, artifacts, 0)
  {
    BetweenStarts(f, artifacts, InReview, InCollection);
  }

  lemma {:induction false} ReviewMoves(f: EvidenceFile, artifacts: seq<Artifact>, n: nat)
    requires DistinctArtifacts(artifacts) && n <= |artifacts| && ReviewAt(f, artifacts, 0)
    ensures ReviewAt(f, artifacts, n)
  {
    if n != 0 {
      ReviewMoves(f, artifacts, n - 1);
      ReviewAdvances(f, artifacts, n - 1);
    }
  }

  lemma {:induction false} ReviewStops(f: EvidenceFile, artifacts: seq<Artifact>, phase: Phase, n: nat)
    requires 0 < n <= |artifacts|
    requires ArtifactIn(f, artifacts[0], phase) && phase != InCollection
    ensures ReviewedUpTo(f, artifacts, ResponsibleLawyer, n) == Stopped(NotCollected(artifacts[0].artifactId), f)
  {
    if n == 1 {
      assert ReviewedUpTo(f, artifacts, ResponsibleLawyer, 0) == Done(f);
    } else {
      ReviewStops(f, artifacts, phase, n - 1);
    }
  }

  // ---------- production ----------

  lemma FirstWithId(artifacts: seq<Artifact>, n: nat, i: nat)
    requires DistinctArtifacts(artifacts) && i < n <= |artifacts|
    ensures FindArtifact(artifacts, artifacts[i].artifactId, n) == Some(artifacts[i])
  {
    if i < n - 1 {
      FirstWithId(artifacts, n - 1, i);
    } else {
      NoneWithId(artifacts, n - 1, artifacts[i].artifactId);
    }
  }

  lemma {:induction false} NoneWithId(artifacts: seq<Artifact>, n: nat, id: string)
    requires n <= |artifacts| && forall i :: 0 <= i < n ==> artifacts[i].artifactId != id
    ensures FindArtifact(artifacts, id, n) == None
  {
    if n != 0 {
      NoneWithId(artifacts, n - 1, id);
    }
  }

  /** The ids of the first `n` selected artifacts. */
  function SelectedIds(artifacts: seq<Artifact>, n: nat): seq<string>
    requires n <= |artifacts|
  {
    if n == 0 then []
    else if Selected(artifacts[n - 1]) then SelectedIds(artifacts, n - 1) + [artifacts[n - 1].artifactId]
    else SelectedIds(artifacts, n - 1)
  }

  lemma {:induction false} ReviewedIdsIn(f: EvidenceFile, artifacts: seq<Artifact>, phase: Phase, n: nat)
    requires DistinctArtifacts(artifacts) && InventoryIn(f, artifacts, phase) && n <= |artifacts|
    ensures ReviewedIds(f, artifacts, n) == if phase == InReview then SelectedIds(artifacts, n) else []
  {
    if n != 0 {
      ReviewedIdsIn(f, artifacts, phase, n - 1);
      assert ArtifactIn(f, artifacts[n - 1], phase);
    }
  }

  function WithProduced(f: EvidenceFile, a: Artifact): EvidenceFile {
    Marked(f.(produced := f.produced + [a.artifactId]), a.artifactId, Produced,
           LogOf(f, a.artifactId) + [ProductionStep(a, LitigationParalegal)])
  }

  lemma OneProduced(f: EvidenceFile, artifacts: seq<Artifact>, k: nat)
    requires DistinctArtifacts(artifacts) && k < |artifacts| && Between(f, artifacts, k, InProduction, InReview)
    requires Selected(artifacts[k])
    ensures Between(WithProduced(f, artifacts[k]), artifacts, k + 1, InProduction, InReview)
  {
    var a := artifacts[k];
    var g := WithProduced(f, a);
    assert ArtifactIn(f, artifacts[k], PhaseAt(k, k, InProduction, InReview));
    assert LogOf(g, a.artifactId) == LogFor(a, Some(Produced));
    MarkingMovesOne(f, g, artifacts, k, InProduction, InReview);
  }

  lemma NoneProduced(f: EvidenceFile, artifacts: seq<Artifact>, k: nat)
    requires DistinctArtifacts(artifacts) && k < |artifacts| && Between(f, artifacts, k, InProduction, InReview)
    requires !Selected(artifacts[k])
    ensures Between(f, artifacts, k + 1, InProduction, InReview)
  {
    assert ArtifactIn(f, artifacts[k], PhaseAt(k, k, InProduction, InReview));
    MarkingMovesOne(f, f, artifacts, k, InProduction, InReview);
  }

  /** The selected ones among the first `n` artifacts are produced. */
  function ProducedFirst(f: EvidenceFile, artifacts: seq<Artifact>, n: nat): EvidenceFile
    requires n <= |artifacts|
  {
    var ids := SelectedIds(artifacts, n);
    ProducedUpTo(f, artifacts, ids, LitigationParalegal, |ids|)
  }

  /** What the loop over the selected ids has made of `f` after the first `n` artifacts, seen from the inventory. */
  ghost predicate ProductionAt(f: EvidenceFile, g: EvidenceFile, artifacts: seq<Artifact>, n: nat)
    requires n <= |artifacts|
  {
    && Between(g, artifacts, n, InProduction, InReview)
    && g.produced == f.produced + SelectedIds(artifacts, n)
    && g.conflictCandidates == f.conflictCandidates
  }

  lemma ProductionAdvances(f: EvidenceFile, artifacts: seq<Artifact>, k: nat)
    requires DistinctArtifacts(artifacts) && k < |artifacts|
    requires ProductionAt(f, ProducedFirst(f, artifacts, k), artifacts, k)
    ensures ProductionAt(f, ProducedFirst(f, artifacts, k + 1), artifacts, k + 1)
  {
    var g := ProducedFirst(f, artifacts, k);
    if Selected(artifacts[k]) {
      ProducedOneMore(f, artifacts, k);
      OneProduced(g, artifacts, k);
    } else {
      assert SelectedIds(artifacts, k + 1) == SelectedIds(artifacts, k);
      NoneProduced(g, artifacts, k);
    }
  }

  lemma ProductionBegins(f: EvidenceFile, artifacts: seq<Artifact>)
    requires InventoryIn(f, artifacts, InReview)
    ensures ProductionAt(f, ProducedFirst(f, artifacts, 0), artifacts, 0)
  {
    assert ProducedFirst(f, artifacts, 0) == f;
    BetweenStarts(f, artifacts, InProduction, InReview);
  }

  lemma ProductionMoves(f: EvidenceFile, artifacts: seq<Artifact>, n: nat) returns (g: EvidenceFile)
    requires DistinctArtifacts(artifacts) && n == |artifacts| && InventoryIn(f, artifacts, InReview)
    ensures g == ProducedFirst(f, artifacts, n) && ProductionAt(f, g, artifacts, n)
  {
    var k: nat;
    g, k := ProducedFirst(f, artifacts, 0), 0;
    ProductionBegins(f, artifacts);
    while k < n
      invariant k <= n && g == ProducedFirst(f, artifacts, k) && ProductionAt(f, g, artifacts, k)
    {
      ProductionAdvances(f, artifacts, k);
      g, k := ProducedFirst(f, artifacts, k + 1), k + 1;
    }
  }

  lemma ProducedOneMore(f: EvidenceFile, artifacts: seq<Artifact>, k: nat)
    requires DistinctArtifacts(artifacts) && k < |artifacts| && Selected(artifacts[k])
    ensures ProducedFirst(f, artifacts, k + 1) == WithProduced(ProducedFirst(f, artifacts, k), artifacts[k])
  {
    var before, ids := SelectedIds(artifacts, k), SelectedIds(artifacts, k + 1);
    FirstWithId(artifacts, |artifacts|, k);
    ProducedOnLonger(f, artifacts, before, ids, |before|);
  }

  lemma {:induction false} ProducedOnLonger(
      f: EvidenceFile, artifacts: seq<Artifact>, ids: seq<string>, more: seq<string>, n: nat)
    requires n <= |ids| <= |more| && more[..|ids|] == ids
    ensures ProducedUpTo(f, artifacts, more, LitigationParalegal, n)
      == ProducedUpTo(f, artifacts, ids, LitigationParalegal, n)
  {
    if n != 0 {
      ProducedOnLonger(f, artifacts, ids, more, n - 1);
      assert more[n - 1] == ids[n - 1];
    }
  }

  // ---------- what every pass keeps ----------

  /**
    Either nothing was produced, or every selected artifact was, and the review's conflicts are those of its
    claims.
   */
  ghost predicate ProducedFits(f: EvidenceFile, artifacts: seq<Artifact>) {
    f.produced != [] ==>
      && (forall id :: id in f.produced <==> id in SelectedIds(artifacts, |artifacts|))
      && f.conflictCandidates == ConflictList(SelectedClaims(artifacts, |artifacts|))
  }

  /** The candidates of the last review, once there was one. */
  ghost predicate ReviewFits(f: EvidenceFile, artifacts: seq<Artifact>, phase: Phase) {
    phase == InReview ==> f.conflictCandidates == ConflictList(SelectedClaims(artifacts, |artifacts|))
  }

  ghost predicate EvidenceIn(f: EvidenceFile, artifacts: seq<Artifact>, phase: Phase) {
    InventoryIn(f, artifacts, phase) && ProducedFits(f, artifacts) && ReviewFits(f, artifacts, phase)
  }

  lemma BetweenIsIn(f: EvidenceFile, artifacts: seq<Artifact>, next: Phase, phase: Phase)
    requires DistinctArtifacts(artifacts) && Between(f, artifacts, |artifacts|, next, phase)
    ensures InventoryIn(f, artifacts, next)
  {
    forall i: nat | i < |artifacts|
      ensures ArtifactIn(f, artifacts[i], next)
    {
      assert ArtifactIn(f, artifacts[i], PhaseAt(i, |artifacts|, next, phase));
    }
  }

  /** Preservation takes the inventory back to the start, from any phase. */
  lemma PreservationRestarts(f: EvidenceFile, artifacts: seq<Artifact>, phase: Phase)
    requires DistinctArtifacts(artifacts) && EvidenceIn(f, artifacts, phase)
    ensures EvidenceIn(PreservedUpTo(f, artifacts, |artifacts|), artifacts, InPreservation)
  {
    PreservationBegins(f, artifacts, phase);
    PreservationMoves(f, artifacts, phase, |artifacts|);
    BetweenIsIn(PreservedUpTo(f, artifacts, |artifacts|), artifacts, InPreservation, phase);
  }

  lemma CollectionIsAtomic(f: EvidenceFile, artifacts: seq<Artifact>, phase: Phase)
    requires DistinctArtifacts(artifacts) && EvidenceIn(f, artifacts, phase)
    ensures
      var pass := CollectedUpTo(f, artifacts, |artifacts|);
      if pass.Done? then EvidenceIn(pass.file, artifacts, InCollection) else pass.file == f
    ensures artifacts != [] ==> (CollectedUpTo(f, artifacts, |artifacts|).Done? <==> phase == InPreservation)
  {
    var n := |artifacts|;
    if phase == InPreservation {
      CollectionBegins(f, artifacts);
      CollectionMoves(f, artifacts, n);
    } else if n != 0 {
      assert ArtifactIn(f, artifacts[0], phase);
      CollectionStops(f, artifacts, phase, n);
    }
    var pass := CollectedUpTo(f, artifacts, n);
    if pass.Done? && n != 0 {
      BetweenIsIn(pass.file, artifacts, InCollection, phase);
    }
  }

  lemma ReviewIsAtomic(f: EvidenceFile, artifacts: seq<Artifact>, phase: Phase)
    requires DistinctArtifacts(artifacts) && EvidenceIn(f, artifacts, phase)
    ensures
      var pass := ReviewPass(f, artifacts, ResponsibleLawyer);
      if pass.Done? then EvidenceIn(pass.file, artifacts, InReview) else pass.file == f
    ensures artifacts != [] ==> (ReviewPass(f, artifacts, ResponsibleLawyer).Done? <==> phase == InCollection)
  {
    var n := |artifacts|;
    if phase == InCollection {
      ReviewBegins(f, artifacts);
      ReviewMoves(f, artifacts, n);
    } else if n != 0 {
      assert ArtifactIn(f, artifacts[0], phase);
      ReviewStops(f, artifacts, phase, n);
    }
    var moved := ReviewedUpTo(f, artifacts, ResponsibleLawyer, n);
    if moved.Done? {
      if n != 0 {
        BetweenIsIn(moved.file, artifacts, InReview, phase);
      }
      CandidatesDoNotMatter(moved.file, ReviewPass(f, artifacts, ResponsibleLawyer).file, artifacts, InReview);
    }
  }

  lemma CandidatesDoNotMatter(f: EvidenceFile, g: EvidenceFile, artifacts: seq<Artifact>, phase: Phase)
    requires DistinctArtifacts(artifacts) && InventoryIn(f, artifacts, phase)
    requires g.status == f.status && g.custody == f.custody
    ensures InventoryIn(g, artifacts, phase)
  {
    forall i | 0 <= i < |artifacts|
      ensures ArtifactIn(g, artifacts[i], phase)
    {
      assert ArtifactIn(f, artifacts[i], phase);
    }
  }

  lemma ProductionIsAtomic(f: EvidenceFile, artifacts: seq<Artifact>, phase: Phase)
    requires DistinctArtifacts(artifacts) && EvidenceIn(f, artifacts, phase)
    ensures
      var pass := ProductionPass(f, artifacts, LitigationParalegal);
      if pass.Done? then pass.file.produced != [] && EvidenceIn(pass.file, artifacts, InProduction) else pass.file == f
    ensures ProductionPass(f, artifacts, LitigationParalegal).Done?
      <==> phase == InReview && SelectedIds(artifacts, |artifacts|) != []
  {
    ReviewedIdsIn(f, artifacts, phase, |artifacts|);
    if phase == InReview && SelectedIds(artifacts, |artifacts|) != [] {
      var g := ProductionMoves(f, artifacts, |artifacts|);
      BetweenIsIn(g, artifacts, InProduction, InReview);
    }
  }

  // ---------- what was produced ----------

  // Only production adds to what was produced.

  lemma {:induction false} PreservationProducesNothing(f: EvidenceFile, artifacts: seq<Artifact>, n: nat)
    requires n <= |artifacts|
    ensures PreservedUpTo(f, artifacts, n).produced == f.produced
  {
    if n != 0 {
      PreservationProducesNothing(f, artifacts, n - 1);
    }
  }

  lemma {:induction false} CollectionProducesNothing(f: EvidenceFile, artifacts: seq<Artifact>, n: nat)
    requires n <= |artifacts|
    ensures CollectedUpTo(f, artifacts, n).file.produced == f.produced
  {
    if n != 0 {
      CollectionProducesNothing(f, artifacts, n - 1);
    }
  }

  lemma {:induction false} ReviewProducesNothing(f: EvidenceFile, artifacts: seq<Artifact>, reviewer: Actor, n: nat)
    requires n <= |artifacts|
    ensures ReviewedUpTo(f, artifacts, reviewer, n).file.produced == f.produced
  {
    if n != 0 {
      ReviewProducesNothing(f, artifacts, reviewer, n - 1);
    }
  }

  // ---------- inventories with repeated ids ----------

  /** The ids of the first `n` artifacts differ. */
  ghost predicate DistinctUpTo(artifacts: seq<Artifact>, n: nat)
    requires n <= |artifacts|
  {
    forall i, j :: 0 <= i < j < n ==> artifacts[i].artifactId != artifacts[j].artifactId
  }

  ghost predicate AmongIds(artifacts: seq<Artifact>, n: nat, id: string)
    requires n <= |artifacts|
  {
    exists i :: 0 <= i < n && artifacts[i].artifactId == id
  }

  /** Whatever the file was, preservation leaves every listed artifact preserved. */
  lemma {:induction false} AllPreserved(f: EvidenceFile, artifacts: seq<Artifact>, n: nat, id: string)
    requires n <= |artifacts| && AmongIds(artifacts, n, id)
    ensures StatusOf(PreservedUpTo(f, artifacts, n), id) == Some(Preserved)
  {
    if artifacts[n - 1].artifactId != id {
      assert AmongIds(artifacts, n - 1, id);
      AllPreserved(f, artifacts, n - 1, id);
    }
  }

  /** While a collection succeeds, exactly the ids it has passed are collected. */
  lemma {:induction false} CollectedSoFar(f: EvidenceFile, artifacts: seq<Artifact>, n: nat, id: string)
    requires n <= |artifacts| && CollectedUpTo(f, artifacts, n).Done?
    ensures StatusOf(CollectedUpTo(f, artifacts, n).file, id)
         == if AmongIds(artifacts, n, id) then Some(Collected) else StatusOf(f, id)
  {
    if n != 0 {
      CollectedSoFar(f, artifacts, n - 1, id);
      if AmongIds(artifacts, n, id) && artifacts[n - 1].artifactId != id {
        assert AmongIds(artifacts, n - 1, id);
      }
    }
  }

  /** A successful collection, from any file, has met no id twice. */
  lemma {:induction false} CollectionMeetsIdsOnce(f: EvidenceFile, artifacts: seq<Artifact>, n: nat)
    requires n <= |artifacts| && CollectedUpTo(f, artifacts, n).Done?
    ensures DistinctUpTo(artifacts, n)
  {
    if n != 0 {
      CollectionMeetsIdsOnce(f, artifacts, n - 1);
      CollectedSoFar(f, artifacts, n - 1, artifacts[n - 1].artifactId);
      assert !AmongIds(artifacts, n - 1, artifacts[n - 1].artifactId);
    }
  }

  /** A preserved inventory is collected as far as its ids differ. */
  lemma {:induction false} DistinctIdsAreCollected(f: EvidenceFile, artifacts: seq<Artifact>, n: nat)
    requires n <= |artifacts| && DistinctUpTo(artifacts, n)
    requires forall i :: 0 <= i < n ==> StatusOf(f, artifacts[i].artifactId) == Some(Preserved)
    ensures CollectedUpTo(f, artifacts, n).Done?
  {
    if n != 0 {
      DistinctIdsAreCollected(f, artifacts, n - 1);
      CollectedSoFar(f, artifacts, n - 1, artifacts[n - 1].artifactId);
    }
  }

  /** The first artifact of a preserved inventory is collected at once and stays collected. */
  lemma {:induction false} FirstIsCollected(f: EvidenceFile, artifacts: seq<Artifact>, n: nat)
    requires 0 < n <= |artifacts| && StatusOf(f, artifacts[0].artifactId) == Some(Preserved)
    ensures StatusOf(CollectedUpTo(f, artifacts, n).file, artifacts[0].artifactId) == Some(Collected)
  {
    if n == 1 {
      assert CollectedUpTo(f, artifacts, 0) == Done(f);
    } else {
      FirstIsCollected(f, artifacts, n - 1);
    }
  }

  /**
    After preservation, collection succeeds iff the artifact ids are distinct. A collection that is refused has
    always changed the file, so distinct ids are exactly what makes it atomic there.
   */
  lemma CollectionNeedsDistinctIds(f: EvidenceFile, artifacts: seq<Artifact>)
    ensures
      var preserved := PreservedUpTo(f, artifacts, |artifacts|);
      var pass := CollectedUpTo(preserved, artifacts, |artifacts|);
      (pass.Done? <==> DistinctArtifacts(artifacts)) && (pass.Stopped? ==> pass.file != preserved)
  {
    var n := |artifacts|;
    var preserved := PreservedUpTo(f, artifacts, n);
    forall i | 0 <= i < n
      ensures StatusOf(preserved, artifacts[i].artifactId) == Some(Preserved)
    {
      assert AmongIds(artifacts, n, artifacts[i].artifactId);
      AllPreserved(f, artifacts, n, artifacts[i].artifactId);
    }
    var pass := CollectedUpTo(preserved, artifacts, n);
    if pass.Done? {
      CollectionMeetsIdsOnce(preserved, artifacts, n);
    } else {
      FirstIsCollected(preserved, artifacts, n);
    }
    if DistinctArtifacts(artifacts) {
      DistinctIdsAreCollected(preserved, artifacts, n);
    }
  }
}
