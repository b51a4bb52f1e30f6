/** Berean's own look at the evidence (`_detect_conflicts` and check BRN-005 of berean.py), set against the kernel's. */
module Berean {
  import opened Collections
  import opened G2World
  import opened G2Evidence
  import opened Strings
  import opened Wrappers

  /** The claims of the first `n` artifacts that were produced. */
  function ProducedClaims(artifacts: seq<Artifact>, produced: set<string>, n: nat): seq<Claim>
    requires n <= |artifacts|
  {
    if n == 0 then []
    else
      ProducedClaims(artifacts, produced, n - 1)
      + if artifacts[n - 1].artifactId in produced then artifacts[n - 1].claims else []
  }

  /** Two of the claims give the fact different values. */
  ghost predicate Disputed(claims: seq<Claim>, factId: string) {
    exists i, j :: 0 <= i < |claims| && 0 <= j < |claims|
      && claims[i].factId == factId && claims[j].factId == factId && claims[i].value != claims[j].value
  }

  function ClaimedValues(claims: seq<Claim>, factId: string, n: nat): set<string>
    requires n <= |claims|
  {
    set i | 0 <= i < n && claims[i].factId == factId :: claims[i].value
  }

  predicate Mentioned(claims: seq<Claim>, factId: string, n: nat)
    requires n <= |claims|
  {
    exists i :: 0 <= i < n && claims[i].factId == factId
  }

  /** The table holds exactly the mentioned facts, each once, with the values claimed for it. */
  ghost predicate TableFits(t: ClaimTable, claims: seq<Claim>, n: nat)
    requires n <= |claims|
  {
    && (forall id :: id in t.values <==> Mentioned(claims, id, n))
    && (forall id :: id in t.facts <==> id in t.values)
    && (forall id :: id in t.values ==> t.values[id] == ClaimedValues(claims, id, n))
  }

  lemma {:induction false} TableOf(claims: seq<Claim>, n: nat)
    requires n <= |claims|
    ensures TableFits(Tabulate(claims, n), claims, n)
  {
    if n != 0 {
      TableOf(claims, n - 1);
      OneMoreClaim(Tabulate(claims, n - 1), claims, n - 1);
    }
  }

  lemma OneMoreClaim(t: ClaimTable, claims: seq<Claim>, k: nat)
    requires k < |claims| && TableFits(t, claims, k)
    ensures TableFits(AddClaim(t, claims[k]), claims, k + 1)
  {
    var c, u := claims[k], AddClaim(t, claims[k]);
    forall id
      ensures id in u.values <==> Mentioned(claims, id, k + 1)
    {
      if Mentioned(claims, id, k + 1) && id != c.factId {
        assert Mentioned(claims, id, k);
      }
    }
    forall id | id in u.values
      ensures u.values[id] == ClaimedValues(claims, id, k + 1)
    {
      if id == c.factId {
        assert ClaimedValues(claims, id, k + 1) == ClaimedValues(claims, id, k) + {c.value};
        if id !in t.values {
          assert !Mentioned(claims, id, k);
          assert ClaimedValues(claims, id, k) == {};
        }
      } else {
        assert ClaimedValues(claims, id, k + 1) == ClaimedValues(claims, id, k);
      }
    }
  }

  lemma {:induction false} ContestedIds(t: ClaimTable, n: nat, id: string)
    requires n <= |t.facts|
    ensures id in Contested(t, n) <==> id in t.facts[..n] && id in t.values && 1 < |t.values[id]|
  {
    if n != 0 {
      ContestedIds(t, n - 1, id);
      assert t.facts[..n] == t.facts[..n - 1] + [t.facts[n - 1]];
    }
  }

  lemma TwoValues(s: set<string>)
    ensures 1 < |s| <==> exists v, w :: v in s && w in s && v != w
  {
    if 1 < |s| {
      var v :| v in s;
      assert |s - {v}| == |s| - 1;
      var w :| w in s - {v};
    }
    if v, w :| v in s && w in s && v != w {
      assert |s - {v}| == |s| - 1 && w in s - {v};
    }
  }

  /** A fact is listed as conflicting iff two claims dispute it. */
  lemma ConflictsAreDisputes(claims: seq<Claim>, factId: string)
    ensures factId in ConflictList(claims) <==> Disputed(claims, factId)
  {
    var t := Tabulate(claims, |claims|);
    TableOf(claims, |claims|);
    ContestedIds(t, |t.facts|, factId);
    assert t.facts[..|t.facts|] == t.facts;
    assert factId in ConflictList(claims) <==> factId in multiset(Contested(t, |t.facts|));
    var values := ClaimedValues(claims, factId, |claims|);
    TwoValues(values);
    if Disputed(claims, factId) {
      var i, j :| 0 <= i < |claims| && 0 <= j < |claims|
        && claims[i].factId == factId && claims[j].factId == factId && claims[i].value != claims[j].value;
      assert Mentioned(claims, factId, |claims|);
      assert claims[i].value in values && claims[j].value in values;
    }
  }

  lemma {:induction false} FactsDiffer(claims: seq<Claim>, n: nat)
    requires n <= |claims|
    ensures
      var t := Tabulate(claims, n);
      Distinct(t.facts) && forall id :: id in t.facts <==> id in t.values
  {
    if n != 0 {
      FactsDiffer(claims, n - 1);
    }
  }

  lemma {:induction false} ContestedDiffer(t: ClaimTable, n: nat)
    requires n <= |t.facts| && Distinct(t.facts)
    ensures Distinct(Contested(t, n))
  {
    if n != 0 {
      ContestedDiffer(t, n - 1);
      ContestedIds(t, n - 1, t.facts[n - 1]);
      assert t.facts[n - 1] !in t.facts[..n - 1];
    }
  }

  lemma {:induction false} OnceEach(s: seq<string>)
    requires Distinct(s)
    ensures forall x :: multiset(s)[x] <= 1
  {
    if s != [] {
      OnceEach(s[1..]);
      assert s == [s[0]] + s[1..];
      assert s[0] !in s[1..];
    }
  }

  lemma DifferIfOnce(s: seq<string>)
    requires forall x :: multiset(s)[x] <= 1
    ensures Distinct(s)
  {
    forall i, j | 0 <= i < j < |s|
      ensures s[i] != s[j]
    {
      var front, rest := s[..j], s[j..];
      assert s == front + rest && front[i] == s[i] && rest[0] == s[j];
      assert multiset(s)[s[i]] == multiset(front)[s[i]] + multiset(rest)[s[i]];
      assert s[i] in front && 1 <= multiset(front)[s[i]];
      assert s[i] !in multiset(rest) && s[j] in multiset(rest);
    }
  }

  /** The list of conflicts ascends strictly. */
  lemma ConflictsAscend(claims: seq<Claim>)
    ensures forall i, j :: 0 <= i < j < |ConflictList(claims)| ==>
      Less(ConflictList(claims)[i], ConflictList(claims)[j])
  {
    var t := Tabulate(claims, |claims|);
    FactsDiffer(claims, |claims|);
    ContestedDiffer(t, |t.facts|);
    OnceEach(Contested(t, |t.facts|));
    SortAscends(Contested(t, |t.facts|));
    DifferIfOnce(ConflictList(claims));
  }

  // ---------- the loops ----------

  method DetectConflicts(artifacts: seq<Artifact>, produced: set<string>) returns (detected: seq<string>)
    ensures detected == ConflictList(ProducedClaims(artifacts, produced, |artifacts|))
  {
    var table, claims := ClaimTable([], map[]), [];
    for n := 0 to |artifacts|
      invariant claims == ProducedClaims(artifacts, produced, n)
      invariant table == Tabulate(claims, |claims|)
    {
      if artifacts[n].artifactId in produced {
        table := AddClaims(table, claims, artifacts[n].claims);
        claims := claims + artifacts[n].claims;
      }
    }
    detected := Sort(Contested(table, |table.facts|));
  }

  datatype CustodyError =
    Nonmonotonic(artifactId: string) | Missing(artifactId: string, action: string) | HashMismatch(artifactId: string)

  const REQUIRED_ACTIONS := ["created", "collected", "hashed", "reviewed", "produced"]

  predicate DaysRise(log: seq<CustodyStep>) {
    forall i, j :: 0 <= i < j < |log| ==> log[i].day <= log[j].day
  }

  predicate HasAction(log: seq<CustodyStep>, action: string) {
    exists i :: 0 <= i < |log| && log[i].action == action
  }

  /** What BRN-005 asks of the custody log of a produced artifact. */
  predicate CustodyComplete(log: seq<CustodyStep>, contentHash: string) {
    && DaysRise(log)
    && (forall k :: 0 <= k < |REQUIRED_ACTIONS| ==> HasAction(log, REQUIRED_ACTIONS[k]))
    && (set i | 0 <= i < |log| :: log[i].objectHash) == {contentHash}
  }

  method CheckCustody(id: string, log: seq<CustodyStep>, contentHash: string) returns (errors: seq<CustodyError>)
    ensures errors == [] <==> CustodyComplete(log, contentHash)
  {
    errors := if DaysRise(log) then [] else [Nonmonotonic(id)];
    for k := 0 to |REQUIRED_ACTIONS|
      invariant errors == [] <==>
        DaysRise(log) && forall j :: 0 <= j < k ==> HasAction(log, REQUIRED_ACTIONS[j])
    {
      if !HasAction(log, REQUIRED_ACTIONS[k]) {
        errors := errors + [Missing(id, REQUIRED_ACTIONS[k])];
      }
    }
    if (set i | 0 <= i < |log| :: log[i].objectHash) != {contentHash} {
      errors := errors + [HashMismatch(id)];
    }
  }

  /** The custody part of BRN-005, over the produced artifacts in the order of the inventory. */
  method AuditCustody(f: EvidenceFile, artifacts: seq<Artifact>) returns (errors: seq<CustodyError>)
    ensures errors == [] <==> CustodyAuditPasses(f, artifacts)
  {
    errors := [];
    for n := 0 to |artifacts|
      invariant errors == [] <==> forall i :: 0 <= i < n ==> CustodyPassesAt(f, artifacts, i)
    {
      var a, found := artifacts[n], [];
      if a.artifactId in f.produced {
        found := CheckCustody(a.artifactId, LogOf(f, a.artifactId), a.contentHash);
      }
      assert found == [] <==> CustodyPassesAt(f, artifacts, n);
      assert errors + found == [] <==> errors == [] && found == [];
      errors := errors + found;
    }
  }

  predicate CustodyPassesAt(f: EvidenceFile, artifacts: seq<Artifact>, i: nat)
    requires i < |artifacts|
  {
    artifacts[i].artifactId in f.produced ==>
      CustodyComplete(LogOf(f, artifacts[i].artifactId), artifacts[i].contentHash)
  }

  ghost predicate CustodyAuditPasses(f: EvidenceFile, artifacts: seq<Artifact>) {
    forall i :: 0 <= i < |artifacts| ==> CustodyPassesAt(f, artifacts, i)
  }

  // ---------- agreement with the kernel ----------

  lemma {:induction false} SelectedIsListed(artifacts: seq<Artifact>, n: nat, i: nat)
    requires DistinctArtifacts(artifacts) && i < |artifacts| && n <= |artifacts|
    ensures artifacts[i].artifactId in SelectedIds(artifacts, n) <==> i < n && Selected(artifacts[i])
  {
    if n != 0 {
      SelectedIsListed(artifacts, n - 1, i);
    }
  }

  lemma {:induction false} SameClaims(artifacts: seq<Artifact>, produced: set<string>, n: nat)
    requires DistinctArtifacts(artifacts) && n <= |artifacts|
    requires forall id :: id in produced <==> id in SelectedIds(artifacts, |artifacts|)
    ensures ProducedClaims(artifacts, produced, n) == SelectedClaims(artifacts, n)
  {
    if n != 0 {
      SameClaims(artifacts, produced, n - 1);
      SelectedIsListed(artifacts, |artifacts|, n - 1);
    }
  }

  /** Once anything was produced, the conflicts that the review listed are those that Berean detects. */
  lemma ReviewAgreesWithBerean(f: EvidenceFile, artifacts: seq<Artifact>, phase: Phase)
    requires DistinctArtifacts(artifacts) && EvidenceIn(f, artifacts, phase) && f.produced != []
    ensures f.conflictCandidates == ConflictList(ProducedClaims(artifacts, set id | id in f.produced, |artifacts|))
  {
    SameClaims(artifacts, set id | id in f.produced, |artifacts|);
  }

  /** The days of a log do not fall, whatever the status. */
  lemma LogsRise(a: Artifact, s: Option<Status>)
    requires WellMade(a)
    ensures DaysRise(LogFor(a, s))
  {
  }

  /** A log passes exactly when its artifact's status says that it was produced. */
  lemma CompleteIffProduced(a: Artifact, s: Option<Status>)
    requires WellMade(a)
    ensures CustodyComplete(LogFor(a, s), a.contentHash) <==> s == Some(Produced)
  {
    var log := LogFor(a, s);
    assert REQUIRED_ACTIONS[4] == "produced";
    if s == Some(Produced) {
      assert log[0].action == "created" && log[1].action == "collected" && log[2].action == "hashed";
      assert log[3].action == "reviewed" && log[4].action == "produced";
      assert log[0].objectHash == a.contentHash;
      assert (set i | 0 <= i < |log| :: log[i].objectHash) == {a.contentHash};
    } else {
      assert !HasAction(log, REQUIRED_ACTIONS[4]);
    }
  }

  /** The custody audit passes iff every produced artifact has the status of a produced one. */
  lemma CustodyAuditIsExact(f: EvidenceFile, artifacts: seq<Artifact>, phase: Phase)
    requires AllWellMade(artifacts) && EvidenceIn(f, artifacts, phase)
    ensures CustodyAuditPasses(f, artifacts) <==>
      (forall i :: 0 <= i < |artifacts| && artifacts[i].artifactId in f.produced ==>
         StatusOf(f, artifacts[i].artifactId) == Some(Produced))
  {
    forall i | 0 <= i < |artifacts|
      ensures CustodyPassesAt(f, artifacts, i)
        <==> (artifacts[i].artifactId in f.produced ==> StatusOf(f, artifacts[i].artifactId) == Some(Produced))
    {
      assert ArtifactIn(f, artifacts[i], phase);
      CompleteIffProduced(artifacts[i], StatusIn(phase, artifacts[i]));
    }
  }

  lemma {:induction false} ListedIsSelected(artifacts: seq<Artifact>, n: nat, id: string) returns (i: nat)
    requires n <= |artifacts| && id in SelectedIds(artifacts, n)
    ensures i < n && Selected(artifacts[i]) && artifacts[i].artifactId == id
  {
    if Selected(artifacts[n - 1]) && artifacts[n - 1].artifactId == id {
      i := n - 1;
    } else {
      i := ListedIsSelected(artifacts, n - 1, id);
    }
  }

  /** Once something was produced, the audit passes in the phase of production only. */
  lemma AuditPassesInPhase(f: EvidenceFile, artifacts: seq<Artifact>, phase: Phase)
    requires AllWellMade(artifacts) && EvidenceIn(f, artifacts, phase)
    ensures CustodyAuditPasses(f, artifacts) <==> f.produced == [] || phase == InProduction
  {
    CustodyAuditIsExact(f, artifacts, phase);
    forall i | 0 <= i < |artifacts| && artifacts[i].artifactId in f.produced
      ensures StatusOf(f, artifacts[i].artifactId) == Some(Produced) <==> phase == InProduction
    {
      assert ArtifactIn(f, artifacts[i], phase);
      SelectedIsListed(artifacts, |artifacts|, i);
    }
    if f.produced != [] {
      assert f.produced[0] in f.produced;
      var i := ListedIsSelected(artifacts, |artifacts|, f.produced[0]);
      assert artifacts[i].artifactId in f.produced;
    }
  }
}
