/** Which worlds a matter can be closed in: a script of commands that closes it, and why nothing else would. */
module G2Closure {
  import opened Collections
  import opened Wrappers
  import opened G2World
  import opened G2Evidence
  import opened G2Kernel
  import opened G2Runs
  import Finance = G2Finance

  const STEPS := 18

  /** The verbs of the script: the chain of litigation, one invoice, a payment in full, and a late appeal. */
  function ScriptVerb(w: World, k: nat): (v: Verb)
    requires k < STEPS
    ensures v != ReadOracle && !v.OtherVerb?
  {
    if k == 0 then ReceiveReferral
    else if k == 1 then SubmitConflictResult
    else if k == 2 then RecordLawyerGate
    else if k == 3 then OpenMatter
    else if k == 4 then IssuePreservation
    else if k == 5 then CollectEvidence
    else if k == 6 then ReviewEvidence
    else if k == 7 then ProduceDiscovery
    else if k == 8 then TakeDeposition
    else if k == 9 then RetainExpert
    else if k == 10 then ResolutionVerb(w.route)
    else if k == 11 then RecordTime
    else if k == 12 then SubmitInvoice
    else if k == 13 then CarrierAudit
    else if k == 14 then ApplyPayment
    else if k == 15 then FinalizeCloseout
    else if k == 16 then AppealReduction
    else CloseMatter
  }

  function ActorOf(v: Verb): (a: Actor)
    ensures a in ACTORS
  {
    match v
    case ReceiveReferral => IntakeCoordinator
    case SubmitConflictResult => ConflictsAnalyst
    case IssuePreservation => LitigationParalegal
    case CollectEvidence => LitigationParalegal
    case ProduceDiscovery => LitigationParalegal
    case SubmitInvoice => BillingSpecialist
    case CarrierAudit => ClaimHandler
    case AppealReduction => BillingSpecialist
    case ApplyPayment => BillingSpecialist
    case _ => ResponsibleLawyer
  }

  const ORDERS := Payload(CONSENT, MayOpenMatter, 0, 100.0, "L120", "analysis", 20.0, 10.0, 80.0)

  function ScriptCommand(w: World, k: nat): Command
    requires k < STEPS
  {
    var v := ScriptVerb(w, k);
    Command("CMD", v, ActorOf(v), RoleOf(ActorOf(v)), w.matterId, ORDERS, {}, {})
  }

  function Script(w: World): (commands: seq<Command>)
    ensures |commands| == STEPS
  {
    seq(STEPS, k requires 0 <= k < STEPS => ScriptCommand(w, k))
  }

  // ---------- rights along the script ----------

  const LAWYER_RIGHTS: set<Authority> := {MayDoLegalWork, MayRetainExpert, MayResolve, MayCloseMatter, MayRecordTime}
  const PARALEGAL_RIGHTS: set<Authority> := {MayPreserve, MayCollect, MayProduce}

  /** The authority that is held after `k` steps, as far as the script needs it. */
  ghost predicate Authorized(m: Authorities, k: nat) {
    && MayReceiveReferral in Held(m, IntakeCoordinator)
    && MayAuditCarrier in Held(m, ClaimHandler)
    && (1 <= k ==> MaySearchConflicts in Held(m, ConflictsAnalyst))
    && (2 <= k ==> MayDetermineConflict in Held(m, ResponsibleLawyer))
    && (3 <= k ==> MayOpenMatter in Held(m, ResponsibleLawyer))
    && (4 <= k ==> LAWYER_RIGHTS <= Held(m, ResponsibleLawyer))
    && (4 <= k ==> PARALEGAL_RIGHTS <= Held(m, LitigationParalegal))
    && (4 <= k ==> MayBill in Held(m, BillingSpecialist))
  }

  ghost predicate StaffInformed(m: Knowledges, k: nat) {
    && ReferralSummary in Held(m, IntakeCoordinator)
    && Guidelines in Held(m, ClaimHandler)
    && (1 <= k ==> PartyNames in Held(m, ConflictsAnalyst))
    && (4 <= k ==> EvidenceInventoryMetadata in Held(m, LitigationParalegal))
    && (4 <= k ==> Guidelines in Held(m, BillingSpecialist))
    && (5 <= k ==> PreservationIssued in Held(m, LitigationParalegal))
    && (7 <= k ==> ReviewComplete in Held(m, LitigationParalegal))
  }

  ghost predicate LawyerInformed(m: Knowledges, k: nat) {
    var known := Held(m, ResponsibleLawyer);
    && ReferralSummary in known
    && (2 <= k ==> ConflictResult in known)
    && (4 <= k ==> InitialRecord in known)
    && (6 <= k ==> CollectedEvidence in known)
    && (8 <= k ==> ProducedEvidence in known)
    && (9 <= k ==> DepositionTranscript in known)
    && (10 <= k ==> ExpertOpinion in known)
  }

  lemma AuthorityOnlyGrows(m: Authorities, c: Command, a: Actor)
    ensures Held(m, a) <= Held(NextAuthority(m, c), a)
  {
  }

  lemma KnowledgeOnlyGrows(m: Knowledges, c: Command, a: Actor)
    ensures Held(m, a) <= Held(NextKnowledge(m, c), a)
  {
  }

  lemma AuthorizedStep(w: World, m: Authorities, k: nat)
    requires k < STEPS && Authorized(m, k)
    ensures Authorized(NextAuthority(m, ScriptCommand(w, k)), k + 1)
  {
    var c := ScriptCommand(w, k);
    AuthorityOnlyGrows(m, c, IntakeCoordinator);
    AuthorityOnlyGrows(m, c, ClaimHandler);
    AuthorityOnlyGrows(m, c, ConflictsAnalyst);
    AuthorityOnlyGrows(m, c, ResponsibleLawyer);
    AuthorityOnlyGrows(m, c, LitigationParalegal);
    AuthorityOnlyGrows(m, c, BillingSpecialist);
  }

  lemma StaffInformedStep(w: World, m: Knowledges, k: nat)
    requires k < STEPS && StaffInformed(m, k)
    ensures StaffInformed(NextKnowledge(m, ScriptCommand(w, k)), k + 1)
  {
    var c := ScriptCommand(w, k);
    KnowledgeOnlyGrows(m, c, IntakeCoordinator);
    KnowledgeOnlyGrows(m, c, ClaimHandler);
    KnowledgeOnlyGrows(m, c, ConflictsAnalyst);
    KnowledgeOnlyGrows(m, c, LitigationParalegal);
    KnowledgeOnlyGrows(m, c, BillingSpecialist);
  }

  lemma LawyerInformedStep(w: World, m: Knowledges, k: nat)
    requires k < STEPS && LawyerInformed(m, k)
    ensures LawyerInformed(NextKnowledge(m, ScriptCommand(w, k)), k + 1)
  {
    KnowledgeOnlyGrows(m, ScriptCommand(w, k), ResponsibleLawyer);
  }

  // ---------- progress along the script ----------

  function PhaseAfter(k: nat): Phase {
    if k < 5 then Untouched
    else if k == 5 then InPreservation
    else if k == 6 then InCollection
    else if k == 7 then InReview
    else InProduction
  }

  function LedgerAfter(k: nat): Finance.Balances {
    if k < 12 then Finance.NOTHING_BILLED
    else if k == 12 then Finance.Balances(100.0, 100.0, 0.0, 0.0, 0.0, 0.0, 0.0, 0.0, 0.0)
    else if k == 13 then Finance.Balances(100.0, 0.0, 100.0, 0.0, 0.0, 0.0, 0.0, 0.0, 0.0)
    else if k == 14 then Finance.Balances(100.0, 0.0, 100.0, 80.0, 20.0, 0.0, 80.0, 0.0, 0.0)
    else if k < 17 then Finance.Balances(100.0, 0.0, 100.0, 80.0, 20.0, 0.0, 0.0, 80.0, 0.0)
    else Finance.Balances(100.0, 0.0, 100.0, 90.0, 10.0, 10.0, 10.0, 80.0, 0.0)
  }

  function HoldsAfter(k: nat): set<string> {
    if k == 2 then {CONSENT} else {}
  }

  ghost predicate Recorded(p: Projection, k: nat) {
    && p.authorityHolds == HoldsAfter(k)
    && (11 <= k ==> p.outcome != "")
    && (16 <= k ==> CLOSEOUT + {FinanceReconciled} <= p.closeConditions)
    && (18 <= k ==> p.closed)
  }

  /** The inventory, as far as it matters: without distinct ids the script does not get past collection. */
  ghost predicate EvidenceAfter(w: World, f: EvidenceFile, k: nat) {
    DistinctArtifacts(w.evidence) ==> EvidenceIn(f, w.evidence, PhaseAfter(k))
  }

  ghost predicate OnScript(w: World, s: State, k: nat) {
    && Authorized(s.authority, k) && StaffInformed(s.knowledge, k) && LawyerInformed(s.knowledge, k)
    && Recorded(s.projection, k) && s.finance == LedgerAfter(k) && EvidenceAfter(w, s.projection.evidence, k)
  }

  /** Nothing but the inventory can stop the script. */
  ghost predicate InventoryAllows(w: World, k: nat) {
    (k <= 5 || DistinctArtifacts(w.evidence)) && (k <= 7 || SelectedIds(w.evidence, |w.evidence|) != [])
  }

  lemma EarlyPermit(w: World, s: State, k: nat)
    requires k < 9 && Authorized(s.authority, k) && StaffInformed(s.knowledge, k) && LawyerInformed(s.knowledge, k)
    ensures Screen(w, s, ScriptCommand(w, k)) == None
  {
    var c := ScriptCommand(w, k);
    assert MissingAuthorityOf(s, c) == {} && MissingKnowledgeOf(s, c) == {};
  }

  lemma LatePermit(w: World, s: State, k: nat)
    requires 9 <= k < STEPS
    && Authorized(s.authority, k) && StaffInformed(s.knowledge, k) && LawyerInformed(s.knowledge, k)
    ensures Screen(w, s, ScriptCommand(w, k)) == None
  {
    var c := ScriptCommand(w, k);
    assert MissingAuthorityOf(s, c) == {} && MissingKnowledgeOf(s, c) == {};
  }

  lemma Permit(w: World, s: State, k: nat)
    requires k < STEPS && OnScript(w, s, k)
    ensures Screen(w, s, ScriptCommand(w, k)) == None
  {
    if k < 9 {
      EarlyPermit(w, s, k);
    } else {
      LatePermit(w, s, k);
    }
  }

  lemma EvidenceSteps(w: World, k: nat)
    requires k < STEPS
    ensures IsEvidenceVerb(ScriptVerb(w, k)) <==> 4 <= k < 8
  {
  }

  lemma OtherVerbsMakeNoPass(w: World, f: EvidenceFile, c: Command)
    requires !IsEvidenceVerb(c.verb)
    ensures PassOf(w, f, c) == Done(f)
  {
  }

  lemma NoPass(w: World, f: EvidenceFile, k: nat)
    requires k < STEPS && !(4 <= k < 8)
    ensures PassOf(w, f, ScriptCommand(w, k)) == Done(f)
  {
    EvidenceSteps(w, k);
    OtherVerbsMakeNoPass(w, f, ScriptCommand(w, k));
  }

  lemma CollectionPasses(f: EvidenceFile, artifacts: seq<Artifact>)
    requires DistinctArtifacts(artifacts) && EvidenceIn(f, artifacts, InPreservation)
    ensures
      var pass := CollectedUpTo(f, artifacts, |artifacts|);
      pass.Done? && EvidenceIn(pass.file, artifacts, InCollection)
  {
    CollectionIsAtomic(f, artifacts, InPreservation);
    assert artifacts == [] ==> CollectedUpTo(f, artifacts, 0) == Done(f);
  }

  lemma ReviewPasses(f: EvidenceFile, artifacts: seq<Artifact>)
    requires DistinctArtifacts(artifacts) && EvidenceIn(f, artifacts, InCollection)
    ensures
      var pass := ReviewPass(f, artifacts, ResponsibleLawyer);
      pass.Done? && EvidenceIn(pass.file, artifacts, InReview)
  {
    ReviewIsAtomic(f, artifacts, InCollection);
    assert artifacts == [] ==> ReviewedUpTo(f, artifacts, ResponsibleLawyer, 0) == Done(f);
  }

  /** Which pass a step makes. */
  lemma PassAt(w: World, f: EvidenceFile, k: nat)
    requires 4 <= k < 8
    ensures PassOf(w, f, ScriptCommand(w, k)) ==
      if k == 4 then Done(PreservedUpTo(f, w.evidence, |w.evidence|))
      else if k == 5 then CollectedUpTo(f, w.evidence, |w.evidence|)
      else if k == 6 then ReviewPass(f, w.evidence, ResponsibleLawyer)
      else ProductionPass(f, w.evidence, LitigationParalegal)
  {
  }

  /** The pass of an evidence step succeeds if the inventory allows it. */
  lemma EvidencePass(w: World, f: EvidenceFile, k: nat)
    requires 4 <= k < 8 && DistinctArtifacts(w.evidence) && EvidenceIn(f, w.evidence, PhaseAfter(k))
    requires k == 7 ==> SelectedIds(w.evidence, |w.evidence|) != []
    ensures
      var pass := PassOf(w, f, ScriptCommand(w, k));
      pass.Done? && EvidenceIn(pass.file, w.evidence, PhaseAfter(k + 1))
  {
    PassAt(w, f, k);
    if k == 4 {
      PreservationRestarts(f, w.evidence, Untouched);
    } else if k == 5 {
      CollectionPasses(f, w.evidence);
    } else if k == 6 {
      ReviewPasses(f, w.evidence);
    } else {
      ProductionIsAtomic(f, w.evidence, InReview);
    }
  }

  lemma PassAllowed(w: World, f: EvidenceFile, k: nat)
    requires k < STEPS && EvidenceAfter(w, f, k) && InventoryAllows(w, k + 1)
    ensures PassOf(w, f, ScriptCommand(w, k)).Done?
    ensures EvidenceAfter(w, PassOf(w, f, ScriptCommand(w, k)).file, k + 1)
  {
    if 4 <= k < 8 {
      if DistinctArtifacts(w.evidence) {
        EvidencePass(w, f, k);
      } else {
        assert k == 4;
      }
    } else {
      NoPass(w, f, k);
      assert k != 4 ==> PhaseAfter(k + 1) == PhaseAfter(k);
    }
  }

  lemma LedgerTakes(w: World, k: nat)
    requires k < STEPS
    ensures
      var op := OperationOf(ScriptCommand(w, k));
      if op.Some? then Finance.Takes(LedgerAfter(k), op.value)
      && LedgerAfter(k + 1) == Finance.Posted(LedgerAfter(k), op.value)
      else LedgerAfter(k + 1) == LedgerAfter(k)
  {
  }

  lemma LedgerReconciles(k: nat)
    requires 15 <= k
    ensures Finance.InvariantErrors(LedgerAfter(k)) == []
  {
    Finance.NoErrorsIffReconciles(LedgerAfter(k));
  }

  /** The five verbs with checks of their own, apart. */
  predicate ChecksItself(v: Verb) {
    v == RecordLawyerGate || v == OpenMatter || v == VerifyDeadlines || v == FinalizeCloseout || v == CloseMatter
  }

  lemma UncheckedVerbs(w: World, p: Projection, b: Finance.Balances, c: Command)
    requires !ChecksItself(c.verb) && PassOf(w, p.evidence, c).Done?
    requires IsResolution(c.verb) ==> c.verb == ResolutionVerb(w.route)
    requires OperationOf(c).Some? ==> Finance.Takes(b, OperationOf(c).value)
    ensures Refusal(w, p, b, c) == None
  {
  }

  lemma CheckedVerbs(w: World, p: Projection, b: Finance.Balances, k: nat)
    requires k < STEPS && ChecksItself(ScriptVerb(w, k)) && Recorded(p, k)
    requires k == 17 ==> Finance.InvariantErrors(b) == []
    ensures Refusal(w, p, b, ScriptCommand(w, k)) == None
  {
    if k == 17 {
      assert CLOSEOUT + {FinanceReconciled} - p.closeConditions == {};
    }
  }

  lemma ScriptResolution(w: World, k: nat)
    requires k < STEPS && IsResolution(ScriptVerb(w, k))
    ensures ScriptVerb(w, k) == ResolutionVerb(w.route)
  {
  }

  lemma NotRefusedOn(w: World, p: Projection, b: Finance.Balances, k: nat)
    requires k < STEPS && Recorded(p, k) && PassOf(w, p.evidence, ScriptCommand(w, k)).Done?
    requires
      var op := OperationOf(ScriptCommand(w, k));
      op.Some? ==> Finance.Takes(b, op.value)
    requires k == 17 ==> Finance.InvariantErrors(b) == []
    ensures Refusal(w, p, b, ScriptCommand(w, k)) == None
  {
    if ChecksItself(ScriptVerb(w, k)) {
      CheckedVerbs(w, p, b, k);
    } else {
      if IsResolution(ScriptVerb(w, k)) {
        ScriptResolution(w, k);
      }
      UncheckedVerbs(w, p, b, ScriptCommand(w, k));
    }
  }

  lemma NotRefused(w: World, p: Projection, k: nat)
    requires k < STEPS && Recorded(p, k) && EvidenceAfter(w, p.evidence, k) && InventoryAllows(w, k + 1)
    ensures Refusal(w, p, LedgerAfter(k), ScriptCommand(w, k)) == None
  {
    PassAllowed(w, p.evidence, k);
    LedgerTakes(w, k);
    if k == 17 {
      LedgerReconciles(k);
    }
    NotRefusedOn(w, p, LedgerAfter(k), k);
  }

  lemma HoldsMove(w: World, p: Projection, b: Finance.Balances, k: nat)
    requires k < STEPS && p.authorityHolds == HoldsAfter(k)
    ensures NextProjection(w, p, b, ScriptCommand(w, k)).authorityHolds == HoldsAfter(k + 1)
  {
  }

  lemma OutcomeStays(w: World, p: Projection, b: Finance.Balances, c: Command)
    ensures p.outcome != "" || IsResolution(c.verb) ==> NextProjection(w, p, b, c).outcome != ""
  {
  }

  lemma OutcomeMoves(w: World, p: Projection, b: Finance.Balances, k: nat)
    requires k < STEPS && (11 <= k ==> p.outcome != "")
    ensures 11 <= k + 1 ==> NextProjection(w, p, b, ScriptCommand(w, k)).outcome != ""
  {
    assert k == 10 ==> IsResolution(ScriptVerb(w, k));
    OutcomeStays(w, p, b, ScriptCommand(w, k));
  }

  lemma FinalizationRecords(w: World, p: Projection, b: Finance.Balances, c: Command)
    requires c.verb == FinalizeCloseout && Finance.InvariantErrors(b) == [] && b.receivable == 0.0
    ensures CLOSEOUT + {FinanceReconciled} <= NextProjection(w, p, b, c).closeConditions
  {
  }

  lemma ConditionsStay(w: World, p: Projection, b: Finance.Balances, c: Command)
    ensures p.closeConditions <= NextProjection(w, p, b, c).closeConditions
  {
  }

  lemma ConditionsMove(w: World, p: Projection, b: Finance.Balances, k: nat)
    requires k < STEPS && (16 <= k ==> CLOSEOUT + {FinanceReconciled} <= p.closeConditions)
    requires k == 15 ==> Finance.InvariantErrors(b) == [] && b.receivable == 0.0
    ensures 16 <= k + 1 ==>
      CLOSEOUT + {FinanceReconciled} <= NextProjection(w, p, b, ScriptCommand(w, k)).closeConditions
    ensures 18 <= k + 1 ==> NextProjection(w, p, b, ScriptCommand(w, k)).closed
  {
    if k == 15 {
      FinalizationRecords(w, p, b, ScriptCommand(w, k));
    } else {
      ConditionsStay(w, p, b, ScriptCommand(w, k));
    }
  }

  lemma RecordedStep(w: World, p: Projection, k: nat)
    requires k < STEPS && Recorded(p, k)
    ensures Recorded(NextProjection(w, p, LedgerAfter(k), ScriptCommand(w, k)), k + 1)
  {
    if k == 15 {
      LedgerReconciles(k);
    }
    HoldsMove(w, p, LedgerAfter(k), k);
    OutcomeMoves(w, p, LedgerAfter(k), k);
    ConditionsMove(w, p, LedgerAfter(k), k);
  }

  /** One step of the script is accepted and leads to the next. */
  lemma ScriptStep(w: World, s: State, k: nat)
    requires k < STEPS && OnScript(w, s, k) && InventoryAllows(w, k + 1)
    ensures OutcomeOf(w, s, ScriptCommand(w, k)).Accepted?
    ensures OnScript(w, Next(w, s, ScriptCommand(w, k)), k + 1)
  {
    var c := ScriptCommand(w, k);
    Permit(w, s, k);
    NotRefused(w, s.projection, k);
    AcceptedStep(w, s, c);
    AuthorizedStep(w, s.authority, k);
    StaffInformedStep(w, s.knowledge, k);
    LawyerInformedStep(w, s.knowledge, k);
    RecordedStep(w, s.projection, k);
    LedgerTakes(w, k);
    PassAllowed(w, s.projection.evidence, k);
    EvidenceMoved(w, s.projection, s.finance, c);
  }

  /** The first `n` commands are those of the script. */
  ghost predicate Follows(w: World, commands: seq<Command>, n: nat) {
    n <= STEPS && n <= |commands| && forall k :: 0 <= k < n ==> commands[k] == ScriptCommand(w, k)
  }

  ghost predicate IsScript(w: World, commands: seq<Command>) {
    |commands| == STEPS && Follows(w, commands, STEPS)
  }

  lemma ScriptBegins(w: World, s: State)
    requires s == InitialState()
    ensures OnScript(w, s, 0)
  {
    assert InventoryIn(NO_EVIDENCE, w.evidence, Untouched);
  }

  /** The run follows the script as far as the inventory allows. */
  lemma ScriptRuns(w: World, commands: seq<Command>, k: nat)
    requires Follows(w, commands, k) && InventoryAllows(w, k)
    ensures OnScript(w, After(w, commands, k), k)
  {
    ScriptBegins(w, After(w, commands, 0));
    forall i: nat, s: State | i < k && OnScript(w, s, i)
      ensures OnScript(w, Next(w, s, commands[i]), i + 1)
    {
      ScriptStep(w, s, i);
    }
    RunInduction(w, commands, 0, k, (i: nat, s) => OnScript(w, s, i));
  }

  // ---------- which worlds can be closed ----------

  /** Some run of the world accepts a close. */
  ghost predicate CanClose(w: World) {
    exists commands :: ClosedBy(w, commands)
  }

  ghost predicate ClosedBy(w: World, commands: seq<Command>) {
    Happened(After(w, commands, |commands|).events, CloseMatter)
  }

  /** What every accepted close needs of the inventory. */
  ghost predicate InventorySuffices(w: World) {
    && DistinctArtifacts(w.evidence)
    && exists i :: 0 <= i < |w.evidence| && w.evidence[i].responsive && !w.evidence[i].privileged
  }

  lemma {:induction false} SomethingIsSelected(artifacts: seq<Artifact>, n: nat)
    requires n <= |artifacts|
    ensures SelectedIds(artifacts, n) != [] <==>
      exists i :: 0 <= i < n && artifacts[i].responsive && !artifacts[i].privileged
  {
    if n != 0 {
      SomethingIsSelected(artifacts, n - 1);
    }
  }

  lemma EventAdded(w: World, s: State, c: Command)
    requires OutcomeOf(w, s, c).Accepted?
    ensures Happened(Next(w, s, c).events, c.verb)
  {
    AcceptedStep(w, s, c);
    StillHappened(s.events, Event(|s.events| + 1, s.clock + 1, c));
  }

  lemma ScriptEnds(w: World, s: State)
    requires OnScript(w, s, STEPS)
    ensures s.projection.closed && s.finance.receivable == 10.0
  {
  }

  lemma AllowsAt(w: World, k: nat)
    requires InventorySuffices(w)
    ensures InventoryAllows(w, k)
  {
    SomethingIsSelected(w.evidence, |w.evidence|);
  }

  lemma AllowsAll(w: World)
    requires InventorySuffices(w)
    ensures InventoryAllows(w, STEPS) && InventoryAllows(w, 17)
    ensures SelectedIds(w.evidence, |w.evidence|) != []
  {
    SomethingIsSelected(w.evidence, |w.evidence|);
  }

  lemma CloseAccepted(w: World, s: State)
    requires InventoryAllows(w, STEPS) && OnScript(w, s, 17)
    ensures OutcomeOf(w, s, ScriptCommand(w, 17)).Accepted?
  {
    ScriptStep(w, s, 17);
  }

  /** The state before the last command, and the one after it. */
  ghost function Before(w: World, commands: seq<Command>): State
    requires commands != []
  {
    After(w, commands, |commands| - 1)
  }

  ghost function End(w: World, commands: seq<Command>): State {
    After(w, commands, |commands|)
  }

  /** The last command closes the matter: it is a close, it is accepted, and the close is on record. */
  ghost predicate EndsWithClose(w: World, commands: seq<Command>) {
    && commands != [] && commands[|commands| - 1].verb == CloseMatter
    && OutcomeOf(w, Before(w, commands), commands[|commands| - 1]).Accepted?
    && ClosedBy(w, commands) && End(w, commands).projection.closed
  }

  lemma AcceptedCloseEnds(w: World, commands: seq<Command>)
    requires commands != [] && commands[|commands| - 1].verb == CloseMatter
    requires OutcomeOf(w, Before(w, commands), commands[|commands| - 1]).Accepted?
    requires End(w, commands).projection.closed
    ensures EndsWithClose(w, commands)
  {
    EventAdded(w, Before(w, commands), commands[|commands| - 1]);
    AfterOneMore(w, commands, |commands| - 1);
  }

  lemma ScriptLeavesOwed(w: World, commands: seq<Command>)
    requires InventorySuffices(w) && IsScript(w, commands)
    ensures End(w, commands).projection.closed && End(w, commands).finance.receivable == 10.0
  {
    AllowsAll(w);
    ScriptRuns(w, commands, |commands|);
    ScriptEnds(w, End(w, commands));
  }

  lemma ScriptIsAccepted(w: World, commands: seq<Command>)
    requires InventorySuffices(w) && IsScript(w, commands)
    ensures commands[|commands| - 1].verb == CloseMatter
    ensures OutcomeOf(w, Before(w, commands), commands[|commands| - 1]).Accepted?
  {
    AllowsAll(w);
    ScriptRuns(w, commands, |commands| - 1);
    CloseAccepted(w, Before(w, commands));
  }

  /** The script ends with an accepted close, and with ten still owed. */
  lemma ScriptCloses(w: World, commands: seq<Command>)
    requires InventorySuffices(w) && IsScript(w, commands)
    ensures EndsWithClose(w, commands)
    ensures End(w, commands).finance.receivable == 10.0
  {
    ScriptLeavesOwed(w, commands);
    ScriptIsAccepted(w, commands);
    AcceptedCloseEnds(w, commands);
  }

  /** Accepted collections and productions tell what the inventory is like. */
  ghost predicate InventoryTold(w: World, events: seq<Event>) {
    && (Happened(events, CollectEvidence) ==> DistinctArtifacts(w.evidence))
    && (Happened(events, ProduceDiscovery) && DistinctArtifacts(w.evidence) ==>
        SelectedIds(w.evidence, |w.evidence|) != [])
  }

  lemma CollectionTells(w: World, s: State, c: Command)
    requires c.verb == CollectEvidence && OutcomeOf(w, s, c).Accepted?
    ensures DistinctArtifacts(w.evidence)
  {
    EvidenceTransition(w, s, c);
    CollectionMeetsIdsOnce(s.projection.evidence, w.evidence, |w.evidence|);
  }

  lemma ProductionTells(w: World, s: State, c: Command)
    requires c.verb == ProduceDiscovery && OutcomeOf(w, s, c).Accepted?
    requires DistinctArtifacts(w.evidence) && EvidenceFits(w, s)
    ensures SelectedIds(w.evidence, |w.evidence|) != []
  {
    EvidenceTransition(w, s, c);
    EvidenceActors(w, s, c);
    var phase :| EvidenceIn(s.projection.evidence, w.evidence, phase);
    ProductionIsAtomic(s.projection.evidence, w.evidence, phase);
  }

  lemma HappenedLast(events: seq<Event>, e: Event, v: Verb)
    requires Happened(events + [e], v) && e.command.verb != v
    ensures Happened(events, v)
  {
    var more := events + [e];
    var i :| 0 <= i < |more| && more[i].command.verb == v;
    assert events[i] == more[i];
  }

  lemma StepTells(w: World, s: State, c: Command)
    requires InventoryTold(w, s.events) && EvidenceFits(w, s)
    ensures InventoryTold(w, Next(w, s, c).events)
  {
    if OutcomeOf(w, s, c).Accepted? {
      AcceptedStep(w, s, c);
      var e := Event(|s.events| + 1, s.clock + 1, c);
      if c.verb == CollectEvidence {
        CollectionTells(w, s, c);
      } else if Happened(s.events + [e], CollectEvidence) {
        HappenedLast(s.events, e, CollectEvidence);
      }
      if c.verb == ProduceDiscovery && DistinctArtifacts(w.evidence) {
        ProductionTells(w, s, c);
      } else if c.verb != ProduceDiscovery && Happened(s.events + [e], ProduceDiscovery) {
        HappenedLast(s.events, e, ProduceDiscovery);
      }
    } else {
      OtherStep(w, s, c);
    }
  }

  lemma RunTells(w: World, commands: seq<Command>)
    ensures InventoryTold(w, After(w, commands, |commands|).events)
  {
    InitialKept(w);
    forall s: State, c | Kept(w, s) && InventoryTold(w, s.events)
      ensures Kept(w, Next(w, s, c)) && InventoryTold(w, Next(w, s, c).events)
    {
      StepKeeps(w, s, c);
      StepTells(w, s, c);
    }
    RunInduction(w, commands, 0, |commands|, (i, s: State) => Kept(w, s) && InventoryTold(w, s.events));
  }

  lemma ChainHasBoth(w: World, events: seq<Event>)
    requires InChainOrder(w, events) && Happened(events, CloseMatter)
    ensures Happened(events, CollectEvidence) && Happened(events, ProduceDiscovery)
  {
    ChainHappened(w, events, 12);
    assert Chain(w)[5] == CollectEvidence && Chain(w)[7] == ProduceDiscovery;
    assert Happened(events, Chain(w)[5]) && Happened(events, Chain(w)[7]);
  }

  /** An accepted close shows that the inventory sufficed. */
  lemma CloseNeedsInventory(w: World, commands: seq<Command>)
    requires ClosedBy(w, commands)
    ensures InventorySuffices(w)
  {
    RunsKeep(w, commands, |commands|);
    ChainHasBoth(w, After(w, commands, |commands|).events);
    RunTells(w, commands);
    SomethingIsSelected(w.evidence, |w.evidence|);
  }

  ghost predicate ClosedOwing(w: World, commands: seq<Command>) {
    EndsWithClose(w, commands) && 0.0 < End(w, commands).finance.receivable
  }

  /** Some run of the world ends closed with money still owed. */
  ghost predicate CanCloseOwing(w: World) {
    exists commands :: ClosedOwing(w, commands)
  }

  /**
    A matter can be closed iff its artifact ids are distinct and some artifact is responsive and not privileged;
    and wherever it can be closed at all, it can be closed with money still owed.
   */
  lemma MatterCanClose(w: World)
    ensures CanClose(w) <==> InventorySuffices(w)
    ensures CanCloseOwing(w) <==> InventorySuffices(w)
  {
    if InventorySuffices(w) {
      ScriptCloses(w, Script(w));
      assert ClosedOwing(w, Script(w));
    }
    if commands :| ClosedBy(w, commands) {
      CloseNeedsInventory(w, commands);
    }
  }

  // ---------- when rejections are atomic ----------

  /** In no reachable state does a rejected command leave anything behind. */
  ghost predicate RejectionsAtomic(w: World) {
    forall commands, c :: RejectsAtomically(w, After(w, commands, |commands|), c)
  }

  /** With a repeated id, the script reaches a collection that is refused after it has changed the evidence file. */
  lemma RepeatedIdBreaksAtomicity(w: World, commands: seq<Command>, n: nat)
    requires !DistinctArtifacts(w.evidence) && IsScript(w, commands) && n == 5
    ensures !RejectsAtomically(w, After(w, commands, n), commands[n])
  {
    var s, preserve, collect := After(w, commands, n - 1), ScriptCommand(w, n - 1), ScriptCommand(w, n);
    ScriptRuns(w, commands, n - 1);
    ScriptStep(w, s, n - 1);
    AfterOneMore(w, commands, n - 1);
    Permit(w, Next(w, s, preserve), n);
    CollectionAfterPreservation(w, s, preserve, collect);
  }

  lemma AfterPrefix(w: World, commands: seq<Command>, n: nat, k: nat)
    requires k <= n <= |commands|
    ensures After(w, commands[..n], k) == After(w, commands, k)
  {
    FoldOfPrefix(StepOf(w), InitialState(), commands, n, k);
  }

  /** Rejections are atomic over all runs of a world iff its artifact ids are distinct. */
  lemma AtomicityNeedsDistinctIds(w: World)
    ensures RejectionsAtomic(w) <==> DistinctArtifacts(w.evidence)
  {
    if DistinctArtifacts(w.evidence) {
      forall commands, c
        ensures RejectsAtomically(w, After(w, commands, |commands|), c)
      {
        RejectionIsAtomic(w, commands, |commands|, c);
      }
    } else {
      var commands, n: nat := Script(w), 5;
      RepeatedIdBreaksAtomicity(w, commands, n);
      AfterPrefix(w, commands, n, n);
      var start := commands[..n];
      assert !RejectsAtomically(w, After(w, start, |start|), commands[n]);
    }
  }
}
