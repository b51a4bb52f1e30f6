/** What every run of the G2 kernel keeps, whatever its commands ask for and its payloads grant. */
module G2Runs {
  import opened Collections
  import opened Wrappers
  import opened G2World
  import opened G2Evidence
  import opened G2Kernel
  import Berean
  import Finance = G2Finance

  // ---------- forced precedence ----------

  ghost predicate HappenedBefore(events: seq<Event>, v: Verb, n: nat)
    requires n <= |events|
  {
    exists i :: 0 <= i < n && events[i].command.verb == v
  }

  ghost predicate Happened(events: seq<Event>, v: Verb) {
    HappenedBefore(events, v, |events|)
  }

  /** The verbs that lead to a close, in order. */
  function Chain(w: World): (chain: seq<Verb>)
    ensures |chain| == 13 && chain[12] == CloseMatter
  {
    [ReceiveReferral, SubmitConflictResult, RecordLawyerGate, OpenMatter, IssuePreservation, CollectEvidence,
     ReviewEvidence, ProduceDiscovery, TakeDeposition, RetainExpert, ResolutionVerb(w.route),
     FinalizeCloseout, CloseMatter]
  }

  /** The authority, knowledge and conditions that gate the chain are held only if an accepted verb gave them. */
  ghost predicate RightsAreEarned(s: State) {
    && (MaySearchConflicts in Held(s.authority, ConflictsAnalyst) ==> Happened(s.events, ReceiveReferral))
    && (MayOpenMatter in Held(s.authority, ResponsibleLawyer) ==> Happened(s.events, RecordLawyerGate))
    && (MayPreserve in Held(s.authority, LitigationParalegal) ==> Happened(s.events, OpenMatter))
  }

  ghost predicate FactsAreEarned(s: State) {
    && (ConflictResult in Held(s.knowledge, ResponsibleLawyer) ==> Happened(s.events, SubmitConflictResult))
    && (PreservationIssued in Held(s.knowledge, LitigationParalegal) ==> Happened(s.events, IssuePreservation))
    && (CollectedEvidence in Held(s.knowledge, ResponsibleLawyer) ==> Happened(s.events, CollectEvidence))
    && (ReviewComplete in Held(s.knowledge, LitigationParalegal) ==> Happened(s.events, ReviewEvidence))
    && (ProducedEvidence in Held(s.knowledge, ResponsibleLawyer) ==> Happened(s.events, ProduceDiscovery))
    && (DepositionTranscript in Held(s.knowledge, ResponsibleLawyer) ==> Happened(s.events, TakeDeposition))
    && (ExpertOpinion in Held(s.knowledge, ResponsibleLawyer) ==> Happened(s.events, RetainExpert))
  }

  ghost predicate MilestonesAreEarned(w: World, s: State) {
    && (s.projection.outcome != "" ==> Happened(s.events, ResolutionVerb(w.route)))
    && (ProceduralComplete in s.projection.closeConditions ==> Happened(s.events, FinalizeCloseout))
  }

  ghost predicate Earned(w: World, s: State) {
    RightsAreEarned(s) && FactsAreEarned(s) && MilestonesAreEarned(w, s)
  }

  /** Which verb gives which right of the chain. */
  lemma RightsGiven(m: Authorities, c: Command)
    ensures MaySearchConflicts in Held(NextAuthority(m, c), ConflictsAnalyst) ==>
      MaySearchConflicts in Held(m, ConflictsAnalyst) || c.verb == ReceiveReferral
    ensures MayOpenMatter in Held(NextAuthority(m, c), ResponsibleLawyer) ==>
      MayOpenMatter in Held(m, ResponsibleLawyer) || c.verb == RecordLawyerGate
    ensures MayPreserve in Held(NextAuthority(m, c), LitigationParalegal) ==>
      MayPreserve in Held(m, LitigationParalegal) || c.verb == OpenMatter
  {
  }

  lemma LawyerFactsGiven(m: Knowledges, c: Command)
    ensures
      var before, after := Held(m, ResponsibleLawyer), Held(NextKnowledge(m, c), ResponsibleLawyer);
      && (ConflictResult in after ==> ConflictResult in before || c.verb == SubmitConflictResult)
      && (CollectedEvidence in after ==> CollectedEvidence in before || c.verb == CollectEvidence)
      && (ProducedEvidence in after ==> ProducedEvidence in before || c.verb == ProduceDiscovery)
      && (DepositionTranscript in after ==> DepositionTranscript in before || c.verb == TakeDeposition)
      && (ExpertOpinion in after ==> ExpertOpinion in before || c.verb == RetainExpert)
  {
  }

  lemma ParalegalFactsGiven(m: Knowledges, c: Command)
    ensures
      var before, after := Held(m, LitigationParalegal), Held(NextKnowledge(m, c), LitigationParalegal);
      && (PreservationIssued in after ==> PreservationIssued in before || c.verb == IssuePreservation)
      && (ReviewComplete in after ==> ReviewComplete in before || c.verb == ReviewEvidence)
  {
  }

  lemma OutcomeGiven(w: World, p: Projection, b: Finance.Balances, c: Command)
    requires Refusal(w, p, b, c).None?
    ensures NextProjection(w, p, b, c).outcome != "" ==> p.outcome != "" || c.verb == ResolutionVerb(w.route)
  {
  }

  lemma ConditionsGiven(w: World, p: Projection, b: Finance.Balances, c: Command)
    ensures ProceduralComplete in NextProjection(w, p, b, c).closeConditions ==>
      ProceduralComplete in p.closeConditions || c.verb == FinalizeCloseout
  {
  }

  lemma AcceptedNext(w: World, s: State, c: Command)
    requires OutcomeOf(w, s, c).Accepted?
    ensures Screen(w, s, c).None? && Refusal(w, s.projection, s.finance, c).None?
    ensures Next(w, s, c) ==
      Transitioned(w, s, c).(clock := s.clock + 1, events := s.events + [Event(|s.events| + 1, s.clock + 1, c)])
  {
  }

  lemma UnrefusedTransition(w: World, s: State, c: Command)
    requires Refusal(w, s.projection, s.finance, c).None?
    ensures
      var t := Transitioned(w, s, c);
      && t.authority == NextAuthority(s.authority, c)
      && t.knowledge == NextKnowledge(s.knowledge, c)
      && t.projection == NextProjection(w, s.projection, s.finance, c)
      && t.finance == (if OperationOf(c).Some? then Finance.Posted(s.finance, OperationOf(c).value) else s.finance)
  {
  }

  /** An accepted command adds its event, and what `NextAuthority` and the like say. */
  lemma AcceptedStep(w: World, s: State, c: Command)
    requires OutcomeOf(w, s, c).Accepted?
    ensures Screen(w, s, c).None? && Refusal(w, s.projection, s.finance, c).None?
    ensures
      var t := Next(w, s, c);
      && t.events == s.events + [Event(|s.events| + 1, s.clock + 1, c)]
      && t.authority == NextAuthority(s.authority, c)
      && t.knowledge == NextKnowledge(s.knowledge, c)
      && t.projection == NextProjection(w, s.projection, s.finance, c)
      && t.finance == (if OperationOf(c).Some? then Finance.Posted(s.finance, OperationOf(c).value) else s.finance)
  {
    AcceptedNext(w, s, c);
    UnrefusedTransition(w, s, c);
  }

  /** Any other outcome changes at most the clock, the denials, the oracle counter and the evidence file. */
  lemma OtherStep(w: World, s: State, c: Command)
    requires !OutcomeOf(w, s, c).Accepted?
    ensures
      var t := Next(w, s, c);
      && t.events == s.events && t.authority == s.authority && t.knowledge == s.knowledge && t.finance == s.finance
      && t.projection == s.projection.(oracleAttempts := t.projection.oracleAttempts, evidence := t.projection.evidence)
  {
  }

  lemma StillHappened(events: seq<Event>, e: Event)
    ensures forall v :: Happened(events, v) ==> Happened(events + [e], v)
    ensures Happened(events + [e], e.command.verb)
  {
    var more := events + [e];
    assert more[|events|] == e;
    forall v | Happened(events, v)
      ensures Happened(more, v)
    {
      var i :| 0 <= i < |events| && events[i].command.verb == v;
      assert more[i] == events[i];
    }
  }

  lemma StepKeepsEarned(w: World, s: State, c: Command)
    requires Earned(w, s)
    ensures Earned(w, Next(w, s, c))
  {
    if OutcomeOf(w, s, c).Accepted? {
      AcceptedKeepsEarned(w, s, c);
    } else {
      OtherStep(w, s, c);
    }
  }

  lemma AcceptedKeepsEarned(w: World, s: State, c: Command)
    requires Earned(w, s) && OutcomeOf(w, s, c).Accepted?
    ensures Earned(w, Next(w, s, c))
  {
    AcceptedStep(w, s, c);
    StillHappened(s.events, Event(|s.events| + 1, s.clock + 1, c));
    RightsGiven(s.authority, c);
    LawyerFactsGiven(s.knowledge, c);
    ParalegalFactsGiven(s.knowledge, c);
    OutcomeGiven(w, s.projection, s.finance, c);
    ConditionsGiven(w, s.projection, s.finance, c);
  }

  /** An accepted verb of the chain finds its predecessor accepted before it. */
  lemma ChainLink(w: World, s: State, c: Command, k: nat)
    requires Earned(w, s) && OutcomeOf(w, s, c).Accepted?
    requires k < 12 && c.verb == Chain(w)[k + 1]
    ensures Happened(s.events, Chain(w)[k])
  {
    AcceptedStep(w, s, c);
    GatesOfScreened(w, s, c);
    if k < 6 {
      EarlyLink(w, s, c, k);
    } else if k < 8 {
      MiddleLink(w, s, c, k);
    } else if k < 10 {
      LaterLink(w, s, c, k);
    } else {
      LateLink(w, s, c, k);
    }
  }

  /** What a screened command's actor holds. */
  lemma GatesOfScreened(w: World, s: State, c: Command)
    requires Screen(w, s, c).None?
    ensures RoleOf(c.actor) in PolicyOf(c.verb).roles
    ensures PolicyOf(c.verb).authority <= Held(s.authority, c.actor)
    ensures PolicyOf(c.verb).knowledge <= Held(s.knowledge, c.actor)
  {
    assert MissingAuthorityOf(s, c) == {} && MissingKnowledgeOf(s, c) == {};
    forall right | right in PolicyOf(c.verb).authority
      ensures right in Held(s.authority, c.actor)
    {
      assert right !in MissingAuthorityOf(s, c);
    }
    forall fact | fact in PolicyOf(c.verb).knowledge
      ensures fact in Held(s.knowledge, c.actor)
    {
      assert fact !in MissingKnowledgeOf(s, c);
    }
  }

  lemma EarlyLink(w: World, s: State, c: Command, k: nat)
    requires Earned(w, s) && k < 6 && c.verb == Chain(w)[k + 1] && c.actor in ACTORS
    requires RoleOf(c.actor) in PolicyOf(c.verb).roles
    requires PolicyOf(c.verb).authority <= Held(s.authority, c.actor)
    requires PolicyOf(c.verb).knowledge <= Held(s.knowledge, c.actor)
    ensures Happened(s.events, Chain(w)[k])
  {
  }

  lemma MiddleLink(w: World, s: State, c: Command, k: nat)
    requires Earned(w, s) && 6 <= k < 8 && c.verb == Chain(w)[k + 1] && c.actor in ACTORS
    requires RoleOf(c.actor) in PolicyOf(c.verb).roles
    requires PolicyOf(c.verb).knowledge <= Held(s.knowledge, c.actor)
    ensures Happened(s.events, Chain(w)[k])
  {
  }

  lemma LaterLink(w: World, s: State, c: Command, k: nat)
    requires Earned(w, s) && 8 <= k < 10 && c.verb == Chain(w)[k + 1] && c.actor in ACTORS
    requires RoleOf(c.actor) in PolicyOf(c.verb).roles
    requires PolicyOf(c.verb).knowledge <= Held(s.knowledge, c.actor)
    ensures Happened(s.events, Chain(w)[k])
  {
  }

  lemma LateLink(w: World, s: State, c: Command, k: nat)
    requires Earned(w, s) && 10 <= k < 12 && c.verb == Chain(w)[k + 1] && c.actor in ACTORS
    requires RoleOf(c.actor) in PolicyOf(c.verb).roles
    requires PolicyOf(c.verb).knowledge <= Held(s.knowledge, c.actor)
    requires Refusal(w, s.projection, s.finance, c).None?
    ensures Happened(s.events, Chain(w)[k])
  {
  }

  ghost predicate LinkHolds(w: World, events: seq<Event>, j: nat, k: nat)
    requires j < |events| && k < 12
  {
    events[j].command.verb == Chain(w)[k + 1] ==> HappenedBefore(events, Chain(w)[k], j)
  }

  /** Every event of a chain verb comes after an event of the verb before it in the chain. */
  ghost predicate InChainOrder(w: World, events: seq<Event>) {
    forall j, k :: 0 <= j < |events| && 0 <= k < 12 ==> LinkHolds(w, events, j, k)
  }

  lemma ChainExtends(w: World, s: State, c: Command)
    requires InChainOrder(w, s.events) && Earned(w, s)
    ensures InChainOrder(w, Next(w, s, c).events)
  {
    if OutcomeOf(w, s, c).Accepted? {
      AcceptedStep(w, s, c);
      var events, more := s.events, Next(w, s, c).events;
      forall j, k | 0 <= j < |more| && 0 <= k < 12
        ensures LinkHolds(w, more, j, k)
      {
        LinkExtends(w, s, c, more, j, k);
      }
    } else {
      OtherStep(w, s, c);
    }
  }

  lemma LinkExtends(w: World, s: State, c: Command, more: seq<Event>, j: nat, k: nat)
    requires InChainOrder(w, s.events) && Earned(w, s) && OutcomeOf(w, s, c).Accepted?
    requires |more| == |s.events| + 1 && more[..|s.events|] == s.events && more[|s.events|].command == c
    requires j < |more| && k < 12
    ensures LinkHolds(w, more, j, k)
  {
    var events := s.events;
    if more[j].command.verb == Chain(w)[k + 1] {
      if j == |events| {
        ChainLink(w, s, c, k);
      } else {
        assert LinkHolds(w, events, j, k) && events[j] == more[j];
      }
      var i :| 0 <= i < j && events[i].command.verb == Chain(w)[k];
      assert more[i] == events[i];
    }
  }

  /** The position of the first acceptance of a verb, or the number of events. */
  function FirstOf(events: seq<Event>, v: Verb, n: nat): (i: nat)
    requires n <= |events|
    ensures i <= n
    ensures i < n ==> events[i].command.verb == v
    ensures forall j :: 0 <= j < i ==> events[j].command.verb != v
  {
    if n == 0 then 0
    else
      var i := FirstOf(events, v, n - 1);
      if i < n - 1 || events[n - 1].command.verb == v then i else n
  }

  ghost predicate FirstsRise(w: World, events: seq<Event>, k: nat)
    requires k < 12
  {
    FirstOf(events, Chain(w)[k], |events|) < FirstOf(events, Chain(w)[k + 1], |events|) < |events|
  }

  /** If one verb of the chain happened, so did all before it. */
  lemma LinkHappened(w: World, events: seq<Event>, k: nat)
    requires k < 12 && InChainOrder(w, events) && Happened(events, Chain(w)[k + 1])
    ensures Happened(events, Chain(w)[k])
  {
    var j :| 0 <= j < |events| && events[j].command.verb == Chain(w)[k + 1];
    assert LinkHolds(w, events, j, k);
  }

  lemma {:induction false} ChainHappened(w: World, events: seq<Event>, k: nat)
    requires k <= 12 && InChainOrder(w, events) && Happened(events, Chain(w)[k])
    ensures forall i :: 0 <= i <= k ==> Happened(events, Chain(w)[i])
  {
    if k != 0 {
      LinkHappened(w, events, k - 1);
      ChainHappened(w, events, k - 1);
    }
  }

  lemma FirstsInOrder(w: World, events: seq<Event>, k: nat)
    requires k < 12 && InChainOrder(w, events) && Happened(events, Chain(w)[k + 1])
    ensures FirstsRise(w, events, k)
  {
    var j := FirstOf(events, Chain(w)[k + 1], |events|);
    assert j < |events|;
    assert LinkHolds(w, events, j, k);
  }

  // ---------- billing ----------

  /** The ledger operations of the first `n` events. */
  function OperationsOf(events: seq<Event>, n: nat): seq<Finance.Operation>
    requires n <= |events|
  {
    if n == 0 then []
    else
      var before, op := OperationsOf(events, n - 1), OperationOf(events[n - 1].command);
      if op.Some? then before + [op.value] else before
  }

  /** The ledger is what the accepted billing commands make of an empty one. */
  ghost predicate LedgerFits(s: State) {
    var ops := OperationsOf(s.events, |s.events|);
    s.finance == Finance.After(ops, |ops|)
  }

  lemma {:induction false} OperationsOfMore(events: seq<Event>, more: seq<Event>, n: nat)
    requires n <= |events| <= |more| && more[..|events|] == events
    ensures OperationsOf(more, n) == OperationsOf(events, n)
  {
    if n != 0 {
      OperationsOfMore(events, more, n - 1);
      assert more[n - 1] == events[n - 1];
    }
  }

  lemma {:induction false} LedgerOfMore(ops: seq<Finance.Operation>, more: seq<Finance.Operation>, n: nat)
    requires n <= |ops| <= |more| && more[..|ops|] == ops
    ensures Finance.After(more, n) == Finance.After(ops, n)
  {
    if n != 0 {
      LedgerOfMore(ops, more, n - 1);
      assert more[n - 1] == ops[n - 1];
    }
  }

  lemma OperationsGrow(events: seq<Event>, e: Event)
    ensures
      var ops, op := OperationsOf(events, |events|), OperationOf(e.command);
      OperationsOf(events + [e], |events| + 1) == if op.Some? then ops + [op.value] else ops
  {
    OperationsOfMore(events, events + [e], |events|);
  }

  lemma LedgerGrows(ops: seq<Finance.Operation>, op: Finance.Operation)
    ensures Finance.After(ops + [op], |ops| + 1) == Finance.Posted(Finance.After(ops, |ops|), op)
  {
    LedgerOfMore(ops, ops + [op], |ops|);
  }

  lemma StepKeepsLedger(w: World, s: State, c: Command)
    requires LedgerFits(s)
    ensures LedgerFits(Next(w, s, c))
  {
    if OutcomeOf(w, s, c).Accepted? {
      AcceptedStep(w, s, c);
      OperationsGrow(s.events, Event(|s.events| + 1, s.clock + 1, c));
      if OperationOf(c).Some? {
        LedgerGrows(OperationsOf(s.events, |s.events|), OperationOf(c).value);
      }
    } else {
      OtherStep(w, s, c);
    }
  }

  // ---------- evidence ----------

  ghost predicate EvidenceFits(w: World, s: State) {
    DistinctArtifacts(w.evidence) ==> exists phase :: EvidenceIn(s.projection.evidence, w.evidence, phase)
  }

  /** Only the lawyer reviews and only the paralegal produces. */
  lemma EvidenceActors(w: World, s: State, c: Command)
    requires Screen(w, s, c).None?
    ensures c.verb == ReviewEvidence ==> c.actor == ResponsibleLawyer
    ensures c.verb == ProduceDiscovery ==> c.actor == LitigationParalegal
  {
  }

  /** The phase that a successful pass leads to. */
  function PhaseOf(v: Verb): Phase
    requires IsEvidenceVerb(v)
  {
    match v
    case IssuePreservation => InPreservation
    case CollectEvidence => InCollection
    case ReviewEvidence => InReview
    case ProduceDiscovery => InProduction
  }

  /** A pass that succeeds moves the whole inventory on, and one that stops has changed nothing. */
  ghost predicate AtomicPass(w: World, f: EvidenceFile, c: Command)
    requires IsEvidenceVerb(c.verb)
  {
    var pass := PassOf(w, f, c);
    if pass.Done? then EvidenceIn(pass.file, w.evidence, PhaseOf(c.verb)) else pass.file == f
  }

  lemma PreservationPassIsAtomic(w: World, f: EvidenceFile, c: Command, phase: Phase)
    requires DistinctArtifacts(w.evidence) && EvidenceIn(f, w.evidence, phase) && c.verb == IssuePreservation
    ensures AtomicPass(w, f, c)
  {
    PreservationRestarts(f, w.evidence, phase);
  }

  lemma CollectionPassIsAtomic(w: World, f: EvidenceFile, c: Command, phase: Phase)
    requires DistinctArtifacts(w.evidence) && EvidenceIn(f, w.evidence, phase) && c.verb == CollectEvidence
    ensures AtomicPass(w, f, c)
  {
    CollectionIsAtomic(f, w.evidence, phase);
  }

  lemma ReviewPassIsAtomic(w: World, f: EvidenceFile, c: Command, phase: Phase)
    requires DistinctArtifacts(w.evidence) && EvidenceIn(f, w.evidence, phase)
    requires c.verb == ReviewEvidence && c.actor == ResponsibleLawyer
    ensures AtomicPass(w, f, c)
  {
    ReviewIsAtomic(f, w.evidence, phase);
  }

  lemma ProductionPassIsAtomic(w: World, f: EvidenceFile, c: Command, phase: Phase)
    requires DistinctArtifacts(w.evidence) && EvidenceIn(f, w.evidence, phase)
    requires c.verb == ProduceDiscovery && c.actor == LitigationParalegal
    ensures AtomicPass(w, f, c)
  {
    ProductionIsAtomic(f, w.evidence, phase);
  }

  lemma EvidencePassIsAtomic(w: World, f: EvidenceFile, c: Command, phase: Phase)
    requires DistinctArtifacts(w.evidence) && EvidenceIn(f, w.evidence, phase) && IsEvidenceVerb(c.verb)
    requires c.verb == ReviewEvidence ==> c.actor == ResponsibleLawyer
    requires c.verb == ProduceDiscovery ==> c.actor == LitigationParalegal
    ensures AtomicPass(w, f, c)
  {
    if c.verb == IssuePreservation {
      PreservationPassIsAtomic(w, f, c, phase);
    } else if c.verb == CollectEvidence {
      CollectionPassIsAtomic(w, f, c, phase);
    } else if c.verb == ReviewEvidence {
      ReviewPassIsAtomic(w, f, c, phase);
    } else {
      ProductionPassIsAtomic(w, f, c, phase);
    }
  }

  /** A pass over an inventory with distinct ids either succeeds as a whole or changes nothing. */
  lemma PassIsAtomic(w: World, s: State, c: Command, phase: Phase) returns (next: Phase)
    requires DistinctArtifacts(w.evidence) && EvidenceIn(s.projection.evidence, w.evidence, phase)
    requires Screen(w, s, c).None?
    ensures
      var pass := PassOf(w, s.projection.evidence, c);
      && EvidenceIn(pass.file, w.evidence, next)
      && (pass.Stopped? ==> pass.file == s.projection.evidence)
  {
    var f := s.projection.evidence;
    next := phase;
    if IsEvidenceVerb(c.verb) {
      EvidenceActors(w, s, c);
      EvidencePassIsAtomic(w, f, c, phase);
      if PassOf(w, f, c).Done? {
        next := PhaseOf(c.verb);
      }
    }
  }

  lemma EvidenceMoved(w: World, p: Projection, b: Finance.Balances, c: Command)
    ensures NextProjection(w, p, b, c).evidence == PassOf(w, p.evidence, c).file
  {
  }

  /** What a step does to the evidence file. */
  lemma EvidenceStep(w: World, s: State, c: Command)
    ensures Screen(w, s, c).Some? ==> Next(w, s, c).projection.evidence == s.projection.evidence
    ensures Screen(w, s, c).None? ==>
      Next(w, s, c).projection.evidence == PassOf(w, s.projection.evidence, c).file
  {
    if OutcomeOf(w, s, c).Accepted? {
      AcceptedStep(w, s, c);
      EvidenceMoved(w, s.projection, s.finance, c);
    }
  }

  lemma StepKeepsEvidence(w: World, s: State, c: Command)
    requires EvidenceFits(w, s)
    ensures EvidenceFits(w, Next(w, s, c))
  {
    EvidenceStep(w, s, c);
    if DistinctArtifacts(w.evidence) && Screen(w, s, c).None? {
      var phase :| EvidenceIn(s.projection.evidence, w.evidence, phase);
      var next := PassIsAtomic(w, s, c, phase);
    }
  }

  // ---------- deadlines ----------

  /** Event `i` calculated these deadlines, as the docketing specialist. */
  ghost predicate CalculatedAt(w: World, events: seq<Event>, deadlines: Deadlines, i: nat)
    requires i < |events|
  {
    var c := events[i].command;
    && c.verb == CalculateDeadlines && c.actor == DocketingSpecialist
    && CountedFrom(w.rules, c.payload.complaintFiledDay, deadlines)
  }

  /** Event `j` counted the same deadlines again, as the deadline reviewer. */
  ghost predicate VerifiedAt(w: World, events: seq<Event>, deadlines: Deadlines, j: nat)
    requires j < |events|
  {
    var c := events[j].command;
    && c.verb == VerifyDeadlines && c.actor == DeadlineReviewer
    && CountedFrom(w.rules, c.payload.complaintFiledDay, deadlines)
  }

  ghost predicate DualControl(w: World, events: seq<Event>, deadlines: Deadlines) {
    exists i, j :: 0 <= i < j < |events| && CalculatedAt(w, events, deadlines, i) && VerifiedAt(w, events, deadlines, j)
  }

  ghost predicate Calculated(w: World, events: seq<Event>, deadlines: Deadlines) {
    exists i :: 0 <= i < |events| && CalculatedAt(w, events, deadlines, i)
  }

  ghost predicate DeadlinesFitIn(w: World, events: seq<Event>, p: Projection) {
    && (p.deadlineProposal != map[] ==> Calculated(w, events, p.deadlineProposal))
    && (p.deadlines != map[] ==> DualControl(w, events, p.deadlines))
    && p.primaryActor in {None, Some(DocketingSpecialist)}
  }

  ghost predicate DeadlinesFit(w: World, s: State) {
    DeadlinesFitIn(w, s.events, s.projection)
  }

  lemma DeadlinesStayFit(w: World, events: seq<Event>, more: seq<Event>, deadlines: Deadlines)
    requires |events| <= |more| && more[..|events|] == events
    ensures Calculated(w, events, deadlines) ==> Calculated(w, more, deadlines)
    ensures DualControl(w, events, deadlines) ==> DualControl(w, more, deadlines)
  {
    if i :| 0 <= i < |events| && CalculatedAt(w, events, deadlines, i) {
      assert more[i] == events[i] && CalculatedAt(w, more, deadlines, i);
    }
    if i, j :| 0 <= i < j < |events| && CalculatedAt(w, events, deadlines, i) && VerifiedAt(w, events, deadlines, j) {
      assert more[i] == events[i] && CalculatedAt(w, more, deadlines, i);
      assert more[j] == events[j] && VerifiedAt(w, more, deadlines, j);
    }
  }

  lemma DeadlineActors(w: World, s: State, c: Command)
    requires Screen(w, s, c).None?
    ensures c.verb == CalculateDeadlines ==> c.actor == DocketingSpecialist
    ensures c.verb == VerifyDeadlines ==> c.actor == DeadlineReviewer
  {
  }

  /** How a transition changes the deadlines. */
  lemma DeadlinesMoved(w: World, p: Projection, b: Finance.Balances, c: Command)
    requires Refusal(w, p, b, c).None?
    ensures
      var q := NextProjection(w, p, b, c);
      match c.verb
      case CalculateDeadlines =>
        && q.deadlines == p.deadlines && q.primaryActor == Some(c.actor)
        && q.deadlineProposal == DeadlinesPrimary(w.rules, c.payload.complaintFiledDay)
      case VerifyDeadlines =>
        && q.deadlineProposal == p.deadlineProposal && q.primaryActor == p.primaryActor
        && p.deadlineProposal != map[]
        && q.deadlines == p.deadlineProposal == DeadlinesPrimary(w.rules, c.payload.complaintFiledDay)
      case _ =>
        q.deadlines == p.deadlines && q.deadlineProposal == p.deadlineProposal && q.primaryActor == p.primaryActor
  {
  }

  /** A calculation or a verification becomes the last of the events. */
  lemma DeadlinesAdvance(
      w: World, events: seq<Event>, e: Event, p: Projection, b: Finance.Balances)
    requires DeadlinesFitIn(w, events, p) && Refusal(w, p, b, e.command).None?
    requires e.command.verb == CalculateDeadlines ==> e.command.actor == DocketingSpecialist
    requires e.command.verb == VerifyDeadlines ==> e.command.actor == DeadlineReviewer
    ensures DeadlinesFitIn(w, events + [e], NextProjection(w, p, b, e.command))
  {
    var c, more, k := e.command, events + [e], |events|;
    DeadlinesMoved(w, p, b, c);
    PrimaryCounts(w.rules, c.payload.complaintFiledDay);
    DeadlinesStayFit(w, events, more, p.deadlineProposal);
    DeadlinesStayFit(w, events, more, p.deadlines);
    if c.verb == CalculateDeadlines {
      assert CalculatedAt(w, more, NextProjection(w, p, b, c).deadlineProposal, k);
    } else if c.verb == VerifyDeadlines {
      var i :| 0 <= i < k && CalculatedAt(w, events, p.deadlineProposal, i);
      assert more[i] == events[i] && CalculatedAt(w, more, p.deadlineProposal, i);
      assert VerifiedAt(w, more, p.deadlineProposal, k);
    }
  }

  lemma AcceptedKeepsDeadlines(w: World, s: State, c: Command)
    requires DeadlinesFit(w, s) && OutcomeOf(w, s, c).Accepted?
    ensures DeadlinesFit(w, Next(w, s, c))
  {
    AcceptedStep(w, s, c);
    DeadlineActors(w, s, c);
    DeadlinesAdvance(w, s.events, Event(|s.events| + 1, s.clock + 1, c), s.projection, s.finance);
  }

  lemma StepKeepsDeadlines(w: World, s: State, c: Command)
    requires DeadlinesFit(w, s)
    ensures DeadlinesFit(w, Next(w, s, c))
  {
    if OutcomeOf(w, s, c).Accepted? {
      AcceptedKeepsDeadlines(w, s, c);
    } else {
      OtherStep(w, s, c);
    }
  }

  // ---------- all runs ----------

  ghost predicate Kept(w: World, s: State) {
    Earned(w, s) && InChainOrder(w, s.events) && LedgerFits(s) && EvidenceFits(w, s) && DeadlinesFit(w, s)
  }

  lemma StepKeeps(w: World, s: State, c: Command)
    requires Kept(w, s)
    ensures Kept(w, Next(w, s, c))
  {
    StepKeepsEarned(w, s, c);
    ChainExtends(w, s, c);
    StepKeepsLedger(w, s, c);
    StepKeepsEvidence(w, s, c);
    StepKeepsDeadlines(w, s, c);
  }

  lemma InitialKept(w: World)
    ensures Kept(w, InitialState())
  {
    if DistinctArtifacts(w.evidence) {
      assert InventoryIn(NO_EVIDENCE, w.evidence, Untouched);
      assert EvidenceIn(NO_EVIDENCE, w.evidence, Untouched);
    }
  }

  function StepOf(w: World): (State, Command) -> State {
    (s, c) => Next(w, s, c)
  }

  /** The state after the first `n` commands of a run. */
  function After(w: World, commands: seq<Command>, n: nat): State
    requires n <= |commands|
  {
    Fold(StepOf(w), InitialState(), commands, n)
  }

  method RunAll(w: World, commands: seq<Command>) returns (kernel: G2WorldKernel)
    ensures kernel.w == w && kernel.Now() == After(w, commands, |commands|)
  {
    kernel := new G2WorldKernel(w);
    for n := 0 to |commands|
      invariant kernel.w == w && fresh(kernel) && fresh(kernel.finance)
      invariant kernel.Now() == After(w, commands, n)
    {
      var outcome := kernel.Submit(commands[n]);
      AfterOneMore(w, commands, n);
    }
  }

  lemma AfterOneMore(w: World, commands: seq<Command>, k: nat)
    requires k < |commands|
    ensures After(w, commands, k + 1) == Next(w, After(w, commands, k), commands[k])
  {
  }

  /** What every step keeps, or carries on to the next position of a run, holds at all later ones. */
  lemma RunInduction(w: World, commands: seq<Command>, n: nat, m: nat, kept: (nat, State) -> bool)
    requires n <= m <= |commands| && kept(n, After(w, commands, n))
    requires forall i: nat, s :: i < m && kept(i, s) ==> kept(i + 1, Next(w, s, commands[i]))
    ensures kept(m, After(w, commands, m))
  {
    FoldKeeps(StepOf(w), InitialState(), commands, n, m, kept);
  }

  lemma RunsKeep(w: World, commands: seq<Command>, n: nat)
    requires n <= |commands|
    ensures Kept(w, After(w, commands, n))
  {
    InitialKept(w);
    forall s, c | Kept(w, s)
      ensures Kept(w, Next(w, s, c))
    {
      StepKeeps(w, s, c);
    }
    RunInduction(w, commands, 0, n, (i, s) => Kept(w, s));
  }

  /**
    A matter is closed only after the whole chain: the first acceptances of its verbs come in the order of
    the chain, for every run.
   */
  lemma CloseIsForced(w: World, commands: seq<Command>)
    requires Happened(After(w, commands, |commands|).events, CloseMatter)
    ensures forall k :: 0 <= k < 12 ==> FirstsRise(w, After(w, commands, |commands|).events, k)
  {
    var events := After(w, commands, |commands|).events;
    RunsKeep(w, commands, |commands|);
    ChainHappened(w, events, 12);
    forall k | 0 <= k < 12
      ensures FirstsRise(w, events, k)
    {
      FirstsInOrder(w, events, k);
    }
  }

  /** Every accepted close happens with the three identities true and nothing paid before the last audit. */
  lemma CloseReconciles(w: World, commands: seq<Command>, n: nat)
    requires n < |commands| && commands[n].verb == CloseMatter
    requires OutcomeOf(w, After(w, commands, n), commands[n]).Accepted?
    ensures
      var s := After(w, commands, n);
      var ops := OperationsOf(s.events, |s.events|);
      && Finance.Reconciles(s.finance)
      && Finance.InvoicedSinceAudit(ops, |ops|) == 0.0
      && Finance.PaidBeforeAudit(ops, |ops|) == 0.0
      && s.finance.cash == Finance.PaymentsTaken(ops, |ops|)
  {
    var s := After(w, commands, n);
    var ops := OperationsOf(s.events, |s.events|);
    RunsKeep(w, commands, n);
    AcceptedStep(w, s, commands[n]);
    Finance.NoErrorsIffReconciles(s.finance);
    Finance.ReconcilesExactlyWhen(ops, |ops|);
    Finance.BillingIsConserved(ops, |ops|);
  }

  /**
    Whether money is still owed when a close is accepted, in terms of the billing commands before it: it is iff
    the payments fall short of what the last audit approved and the appeals since recovered.
   */
  lemma OwedAtClose(w: World, commands: seq<Command>, n: nat)
    requires n < |commands| && commands[n].verb == CloseMatter
    requires OutcomeOf(w, After(w, commands, n), commands[n]).Accepted?
    ensures
      var s := After(w, commands, n);
      var ops := OperationsOf(s.events, |s.events|);
      var due := Finance.ApprovedAtAudit(ops, |ops|) + Finance.RecoveredSinceAudit(ops, |ops|);
      && s.finance.receivable == due - Finance.PaymentsTaken(ops, |ops|)
      && (0.0 < s.finance.receivable <==> Finance.PaymentsTaken(ops, |ops|) < due)
  {
    var s := After(w, commands, n);
    var ops := OperationsOf(s.events, |s.events|);
    RunsKeep(w, commands, n);
    CloseReconciles(w, commands, n);
    Finance.ReceivableIs(ops, |ops|);
  }

  /** If the command raises, it changes nothing but the clock, the denials and the oracle counter. */
  ghost predicate RejectsAtomically(w: World, s: State, c: Command) {
    !OutcomeOf(w, s, c).Accepted? ==>
      var t := Next(w, s, c);
      t == s.(clock := t.clock, denials := t.denials,
              projection := s.projection.(oracleAttempts := t.projection.oracleAttempts))
  }

  /** With distinct artifact ids, rejections are atomic in every reachable state. */
  lemma RejectionIsAtomic(w: World, commands: seq<Command>, n: nat, c: Command)
    requires n <= |commands| && DistinctArtifacts(w.evidence)
    ensures RejectsAtomically(w, After(w, commands, n), c)
    ensures !OutcomeOf(w, After(w, commands, n), c).Accepted? ==>
      var s, t := After(w, commands, n), Next(w, After(w, commands, n), c);
      t.projection.oracleAttempts == s.projection.oracleAttempts
        + if OutcomeOf(w, s, c) == Denied(OracleBoundary) then 1 else 0
  {
    var s := After(w, commands, n);
    RunsKeep(w, commands, n);
    if !OutcomeOf(w, s, c).Accepted? {
      OtherStep(w, s, c);
      EvidenceStep(w, s, c);
      if Screen(w, s, c).None? {
        var phase :| EvidenceIn(s.projection.evidence, w.evidence, phase);
        var next := PassIsAtomic(w, s, c, phase);
        EvidenceRefusals(w, s, c);
      }
    }
  }

  /** A refused command either stopped in its pass or made none. */
  lemma EvidenceRefusals(w: World, s: State, c: Command)
    requires Refusal(w, s.projection, s.finance, c).Some?
    ensures PassOf(w, s.projection.evidence, c).Stopped?
      || PassOf(w, s.projection.evidence, c).file == s.projection.evidence
  {
  }

  /**
    In every reachable state, each custody log is what the status of its artifact implies; its days do not fall
    if the artifact was made as the simulator makes them.
   */
  lemma CustodyFollowsStatus(w: World, commands: seq<Command>, n: nat, i: nat)
    requires n <= |commands| && DistinctArtifacts(w.evidence) && i < |w.evidence|
    ensures
      var f, a := After(w, commands, n).projection.evidence, w.evidence[i];
      && LogOf(f, a.artifactId) == LogFor(a, StatusOf(f, a.artifactId))
      && (WellMade(a) ==> Berean.DaysRise(LogOf(f, a.artifactId)))
  {
    RunsKeep(w, commands, n);
    var f := After(w, commands, n).projection.evidence;
    var phase :| EvidenceIn(f, w.evidence, phase);
    assert ArtifactIn(f, w.evidence[i], phase);
    if WellMade(w.evidence[i]) {
      Berean.LogsRise(w.evidence[i], StatusIn(phase, w.evidence[i]));
    }
  }

  /** In every reachable state where something was produced, the review's conflicts are the ones that Berean detects. */
  lemma RunsAgreeWithBerean(w: World, commands: seq<Command>, n: nat)
    requires n <= |commands| && DistinctArtifacts(w.evidence)
    requires After(w, commands, n).projection.evidence.produced != []
    ensures
      var f := After(w, commands, n).projection.evidence;
      f.conflictCandidates == ConflictList(Berean.ProducedClaims(w.evidence, set id | id in f.produced, |w.evidence|))
  {
    RunsKeep(w, commands, n);
    var f := After(w, commands, n).projection.evidence;
    var phase :| EvidenceIn(f, w.evidence, phase);
    Berean.ReviewAgreesWithBerean(f, w.evidence, phase);
  }

  /** In every reachable state, the custody audit passes iff every produced artifact still counts as produced. */
  lemma RunsPassCustodyAudit(w: World, commands: seq<Command>, n: nat)
    requires n <= |commands| && AllWellMade(w.evidence)
    ensures
      var f := After(w, commands, n).projection.evidence;
      Berean.CustodyAuditPasses(f, w.evidence) <==>
        (forall i :: 0 <= i < |w.evidence| && w.evidence[i].artifactId in f.produced ==>
           StatusOf(f, w.evidence[i].artifactId) == Some(Produced))
  {
    RunsKeep(w, commands, n);
    var f := After(w, commands, n).projection.evidence;
    var phase :| EvidenceIn(f, w.evidence, phase);
    Berean.CustodyAuditIsExact(f, w.evidence, phase);
  }

  /**
    Recorded deadlines were calculated by one actor and counted again, from the same day, by another; and the
    check that the two differ never refuses anything, because the roles already keep them apart.
   */
  lemma DeadlinesAreDualControlled(w: World, commands: seq<Command>, n: nat, c: Command)
    requires n <= |commands|
    ensures
      var s := After(w, commands, n);
      s.projection.deadlines != map[] ==> DualControl(w, s.events, s.projection.deadlines)
    ensures OutcomeOf(w, After(w, commands, n), c) != Refused(SameDeadlineActor)
  {
    var s := After(w, commands, n);
    RunsKeep(w, commands, n);
    if Screen(w, s, c).None? {
      DeadlineActors(w, s, c);
      if Refusal(w, s.projection, s.finance, c) == Some(SameDeadlineActor) {
        OnlyVerifiersClash(w, s.projection, s.finance, c);
      }
    }
  }

  lemma OnlyVerifiersClash(w: World, p: Projection, b: Finance.Balances, c: Command)
    requires Refusal(w, p, b, c) == Some(SameDeadlineActor)
    ensures c.verb == VerifyDeadlines && p.primaryActor == Some(c.actor)
  {
  }

  /**
    Right after an accepted preservation, a collection that passes the gate is accepted iff the artifact ids are
    distinct, and one that is refused has changed the evidence file all the same.
   */
  lemma CollectionAfterPreservation(w: World, s: State, preserve: Command, collect: Command)
    requires preserve.verb == IssuePreservation && OutcomeOf(w, s, preserve).Accepted?
    requires collect.verb == CollectEvidence && Screen(w, Next(w, s, preserve), collect).None?
    ensures
      var t := Next(w, s, preserve);
      && (OutcomeOf(w, t, collect).Accepted? <==> DistinctArtifacts(w.evidence))
      && (!OutcomeOf(w, t, collect).Accepted? ==> Next(w, t, collect).projection.evidence != t.projection.evidence)
  {
    var t := Next(w, s, preserve);
    EvidenceStep(w, s, preserve);
    CollectionNeedsDistinctIds(s.projection.evidence, w.evidence);
    EvidenceStep(w, t, collect);
    EvidenceTransition(w, t, collect);
  }
}
