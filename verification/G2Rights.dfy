/**
  Who holds which right and which knowledge in any reachable state of the G2 world, who can do what, and what must
  have happened before (VERB_POLICIES and the grants of g2.py).
 */
module G2Rights {
  import opened Wrappers
  import opened G2World
  import opened G2Kernel
  import opened G2Runs
  import opened G2Closure
  import opened G2Repeats

  // ---------- authority ----------

  /** A lawyer's gate decision of the run granted the authority. */
  ghost predicate GateGranted(events: seq<Event>, t: Authority) {
    exists i :: 0 <= i < |events| && events[i].command.verb == RecordLawyerGate && events[i].command.payload.grants == t
  }

  /** What the opening of the matter gives to whom. */
  ghost function OpeningGrants(a: Actor): set<Authority> {
    match a
    case ResponsibleLawyer => {MayDoLegalWork, MayRetainExpert, MayResolve, MayCloseMatter, MayRecordTime}
    case LitigationParalegal => {MayPreserve, MayCollect, MayProduce, MayRecordTime}
    case DocketingSpecialist => {MayProposeDeadlines}
    case DeadlineReviewer => {MayVerifyDeadlines}
    case BillingSpecialist => {MayBill}
    case _ => {}
  }

  /** What an accepted command gives to whom. */
  ghost function Grants(c: Command, a: Actor): set<Authority> {
    match c.verb
    case ReceiveReferral => if a == ConflictsAnalyst then {MaySearchConflicts} else {}
    case SubmitConflictResult => if a == ResponsibleLawyer then {MayDetermineConflict} else {}
    case RecordLawyerGate => if a == ResponsibleLawyer then {c.payload.grants} else {}
    case OpenMatter => OpeningGrants(a)
    case _ => {}
  }

  /** The authority that the history of a matter explains. */
  ghost predicate Entitled(events: seq<Event>, a: Actor, t: Authority) {
    || (a == IntakeCoordinator && t == MayReceiveReferral)
    || (a == ClaimHandler && t == MayAuditCarrier)
    || (a == ConflictsAnalyst && t == MaySearchConflicts && Happened(events, ReceiveReferral))
    || (a == ResponsibleLawyer && t == MayDetermineConflict && Happened(events, SubmitConflictResult))
    || (a == ResponsibleLawyer && GateGranted(events, t))
    || (t in OpeningGrants(a) && Happened(events, OpenMatter))
  }

  ghost predicate AuthorityExplained(s: State) {
    forall a, t :: t in Held(s.authority, a) <==> Entitled(s.events, a, t)
  }

  lemma OpeningGrantsAre(m: Authorities, c: Command, a: Actor)
    requires c.verb == OpenMatter
    ensures Held(NextAuthority(m, c), a) == Held(m, a) + OpeningGrants(a)
  {
  }

  lemma GrantsAre(m: Authorities, c: Command, a: Actor)
    ensures Held(NextAuthority(m, c), a) == Held(m, a) + Grants(c, a)
  {
    if c.verb == OpenMatter {
      OpeningGrantsAre(m, c, a);
    }
  }

  lemma GateGrantedOrNow(events: seq<Event>, e: Event, t: Authority)
    ensures GateGranted(events + [e], t) <==>
      GateGranted(events, t) || (e.command.verb == RecordLawyerGate && e.command.payload.grants == t)
  {
    var more := events + [e];
    assert more[|events|] == e;
    if i :| 0 <= i < |events| && events[i].command.verb == RecordLawyerGate && events[i].command.payload.grants == t {
      assert more[i] == events[i];
    }
    if i :| 0 <= i < |more| && more[i].command.verb == RecordLawyerGate && more[i].command.payload.grants == t {
      assert i < |events| ==> more[i] == events[i];
    }
  }

  lemma EntitledOrNow(events: seq<Event>, e: Event, a: Actor, t: Authority)
    ensures Entitled(events + [e], a, t) <==> Entitled(events, a, t) || t in Grants(e.command, a)
  {
    HappenedOrNow(events, e, ReceiveReferral);
    HappenedOrNow(events, e, SubmitConflictResult);
    HappenedOrNow(events, e, OpenMatter);
    GateGrantedOrNow(events, e, t);
  }

  lemma StepExplainsAuthority(w: World, s: State, c: Command)
    requires AuthorityExplained(s)
    ensures AuthorityExplained(Next(w, s, c))
  {
    if OutcomeOf(w, s, c).Accepted? {
      AcceptedStep(w, s, c);
      forall a, t
        ensures t in Held(NextAuthority(s.authority, c), a) <==>
          Entitled(s.events + [Event(|s.events| + 1, s.clock + 1, c)], a, t)
      {
        GrantsAre(s.authority, c, a);
        EntitledOrNow(s.events, Event(|s.events| + 1, s.clock + 1, c), a, t);
      }
    } else {
      OtherStep(w, s, c);
    }
  }

  lemma InitialAuthorityExplained()
    ensures AuthorityExplained(InitialState())
  {
  }

  /** In every reachable state an actor holds an authority iff the history of the matter entitles the actor to it. */
  lemma HeldIffEntitled(w: World, commands: seq<Command>, n: nat, a: Actor, t: Authority)
    requires n <= |commands|
    ensures t in Held(After(w, commands, n).authority, a) <==> Entitled(After(w, commands, n).events, a, t)
  {
    InitialAuthorityExplained();
    forall s, c | AuthorityExplained(s)
      ensures AuthorityExplained(Next(w, s, c))
    {
      StepExplainsAuthority(w, s, c);
    }
    RunInduction(w, commands, 0, n, (i, s) => AuthorityExplained(s));
  }

  // ---------- knowledge ----------

  /** What the opening of the matter tells to whom. */
  ghost function OpeningTells(a: Actor): set<Knowledge> {
    match a
    case ResponsibleLawyer => {CoveragePosture, Guidelines, InitialRecord}
    case LitigationParalegal => {InitialRecord, EvidenceInventoryMetadata}
    case DocketingSpecialist => {InitialRecord, RulePackKnown}
    case DeadlineReviewer => {InitialRecord, RulePackKnown}
    case BillingSpecialist => {Guidelines, InitialRecord}
    case _ => {}
  }

  /** What an accepted verb tells the lawyer. */
  ghost function LawyerLearns(v: Verb): set<Knowledge> {
    match v
    case ReceiveReferral => {ReferralSummary}
    case SubmitConflictResult => {ConflictResult, PartyNames}
    case VerifyDeadlines => {VerifiedDeadlines}
    case CollectEvidence => {CollectedEvidence}
    case ReviewEvidence => {ReviewComplete}
    case ProduceDiscovery => {ProducedEvidence}
    case TakeDeposition => {DepositionTranscript}
    case RetainExpert => {ExpertOpinion}
    case _ => {}
  }

  /** What an accepted verb tells the paralegal. */
  ghost function ParalegalLearns(v: Verb): set<Knowledge> {
    match v
    case IssuePreservation => {PreservationIssued}
    case CollectEvidence => {CollectedEvidence}
    case ReviewEvidence => {ReviewComplete}
    case _ => {}
  }

  /** What an accepted verb tells to whom. */
  ghost function Tells(v: Verb, a: Actor): set<Knowledge> {
    if v == OpenMatter then OpeningTells(a)
    else
      match a
      case ResponsibleLawyer => LawyerLearns(v)
      case LitigationParalegal => ParalegalLearns(v)
      case ConflictsAnalyst => if v == ReceiveReferral then {PartyNames} else {}
      case DeadlineReviewer => if v == CalculateDeadlines then {DeadlineProposal} else {}
      case _ => {}
  }

  /** What an actor knows from the start. */
  ghost predicate KnownAtStart(a: Actor, t: Knowledge) {
    || (a == IntakeCoordinator && t == ReferralSummary)
    || (a == ResponsibleLawyer && t == ReferralSummary)
    || (a == ClaimHandler && t in {CoveragePosture, Guidelines})
    || (a == HrWitness && t.OtherKnowledge? && t.name in {"hr_note", "policy", "employee_report", "hr_email"})
    || (a == ManagerWitness && t.OtherKnowledge? && t.name in {"manager_email", "attendance", "manager_calendar"})
  }

  /** An accepted verb of the run told it. */
  ghost predicate Told(events: seq<Event>, a: Actor, t: Knowledge) {
    exists v :: Happened(events, v) && t in Tells(v, a)
  }

  ghost predicate KnowledgeExplained(s: State) {
    forall a, t :: t in Held(s.knowledge, a) <==> KnownAtStart(a, t) || Told(s.events, a, t)
  }

  lemma OpeningTellsAre(m: Knowledges, c: Command, a: Actor)
    requires c.verb == OpenMatter
    ensures Held(NextKnowledge(m, c), a) == Held(m, a) + OpeningTells(a)
  {
  }

  lemma TellsAre(m: Knowledges, c: Command, a: Actor)
    ensures Held(NextKnowledge(m, c), a) == Held(m, a) + Tells(c.verb, a)
  {
    if c.verb == OpenMatter {
      OpeningTellsAre(m, c, a);
    }
  }

  lemma ToldOrNow(events: seq<Event>, e: Event, a: Actor, t: Knowledge)
    ensures Told(events + [e], a, t) <==> Told(events, a, t) || t in Tells(e.command.verb, a)
  {
    forall v
      ensures Happened(events + [e], v) <==> Happened(events, v) || e.command.verb == v
    {
      HappenedOrNow(events, e, v);
    }
  }

  lemma StepExplainsKnowledge(w: World, s: State, c: Command)
    requires KnowledgeExplained(s)
    ensures KnowledgeExplained(Next(w, s, c))
  {
    if OutcomeOf(w, s, c).Accepted? {
      AcceptedStep(w, s, c);
      forall a, t
        ensures t in Held(NextKnowledge(s.knowledge, c), a) <==>
          KnownAtStart(a, t) || Told(s.events + [Event(|s.events| + 1, s.clock + 1, c)], a, t)
      {
        TellsAre(s.knowledge, c, a);
        ToldOrNow(s.events, Event(|s.events| + 1, s.clock + 1, c), a, t);
      }
    } else {
      OtherStep(w, s, c);
    }
  }

  lemma InitialKnowledgeExplained()
    ensures KnowledgeExplained(InitialState())
  {
  }

  /** In every reachable state an actor knows exactly what it knew at the start and what accepted verbs told it. */
  lemma KnownIffTold(w: World, commands: seq<Command>, n: nat, a: Actor, t: Knowledge)
    requires n <= |commands|
    ensures t in Held(After(w, commands, n).knowledge, a) <==>
      KnownAtStart(a, t) || Told(After(w, commands, n).events, a, t)
  {
    InitialKnowledgeExplained();
    forall s, c | KnowledgeExplained(s)
      ensures KnowledgeExplained(Next(w, s, c))
    {
      StepExplainsKnowledge(w, s, c);
    }
    RunInduction(w, commands, 0, n, (i, s) => KnowledgeExplained(s));
  }

  // ---------- who does what ----------

  /** The actors that a verb is reserved for. */
  ghost function Doers(v: Verb): set<Actor> {
    match v
    case ReceiveReferral => {IntakeCoordinator}
    case SubmitConflictResult => {ConflictsAnalyst}
    case CalculateDeadlines => {DocketingSpecialist}
    case VerifyDeadlines => {DeadlineReviewer}
    case IssuePreservation => {LitigationParalegal}
    case CollectEvidence => {LitigationParalegal}
    case ProduceDiscovery => {LitigationParalegal}
    case RecordTime => {ResponsibleLawyer, LitigationParalegal}
    case SubmitInvoice => {BillingSpecialist}
    case AppealReduction => {BillingSpecialist}
    case ApplyPayment => {BillingSpecialist}
    case CarrierAudit => {ClaimHandler}
    case ReadOracle => {}
    case OtherVerb(_) => {}
    case _ => {ResponsibleLawyer}
  }

  /** What the doer of a verb must hold. */
  ghost function NeededAuthority(v: Verb): set<Authority> {
    match v
    case ReceiveReferral => {MayReceiveReferral}
    case SubmitConflictResult => {MaySearchConflicts}
    case RecordLawyerGate => {MayDetermineConflict}
    case OpenMatter => {MayOpenMatter}
    case CalculateDeadlines => {MayProposeDeadlines}
    case VerifyDeadlines => {MayVerifyDeadlines}
    case IssuePreservation => {MayPreserve}
    case CollectEvidence => {MayCollect}
    case ReviewEvidence => {MayDoLegalWork}
    case ProduceDiscovery => {MayProduce}
    case TakeDeposition => {MayDoLegalWork}
    case RetainExpert => {MayRetainExpert}
    case RecordTime => {MayRecordTime}
    case CarrierAudit => {MayAuditCarrier}
    case SubmitInvoice => {MayBill}
    case AppealReduction => {MayBill}
    case ApplyPayment => {MayBill}
    case FinalizeCloseout => {MayCloseMatter}
    case CloseMatter => {MayCloseMatter}
    case ReadOracle => {MayDoLegalWork}
    case OtherVerb(_) => {}
    case _ => {MayResolve}
  }

  /** What the doer of a verb must know. */
  ghost function NeededKnowledge(v: Verb): set<Knowledge> {
    match v
    case ReceiveReferral => {ReferralSummary}
    case SubmitConflictResult => {PartyNames}
    case RecordLawyerGate => {ConflictResult}
    case OpenMatter => {ReferralSummary}
    case CalculateDeadlines => {RulePackKnown}
    case VerifyDeadlines => {RulePackKnown, DeadlineProposal}
    case IssuePreservation => {EvidenceInventoryMetadata}
    case CollectEvidence => {PreservationIssued}
    case ReviewEvidence => {CollectedEvidence}
    case ProduceDiscovery => {ReviewComplete}
    case TakeDeposition => {ProducedEvidence}
    case RetainExpert => {DepositionTranscript}
    case RecordTime => {InitialRecord}
    case CarrierAudit => {Guidelines}
    case SubmitInvoice => {Guidelines}
    case AppealReduction => {Guidelines}
    case ApplyPayment => {Guidelines}
    case ReadOracle => {InitialRecord}
    case OtherVerb(_) => {}
    case _ => {ExpertOpinion}
  }

  lemma PolicyDoers(v: Verb, a: Actor)
    requires !v.OtherVerb? && v != ReadOracle && a in ACTORS
    ensures RoleOf(a) in PolicyOf(v).roles <==> a in Doers(v)
  {
  }

  lemma PolicyNeeds(v: Verb)
    requires !v.OtherVerb?
    ensures PolicyOf(v).authority == NeededAuthority(v) && PolicyOf(v).knowledge == NeededKnowledge(v)
  {
  }

  /**
    Which commands pass the gate in a reachable state, in terms of the history of the matter: the right actor, in its
    role, on this matter, entitled to the authority of the verb and told what the verb presupposes, and both what the
    command itself asks for.
   */
  lemma PassesGateExactlyWhen(w: World, commands: seq<Command>, n: nat, c: Command)
    requires n <= |commands|
    ensures
      var s := After(w, commands, n);
      Screen(w, s, c).None? <==>
        && c.matterId == w.matterId && c.actor in Doers(c.verb) && c.role == RoleOf(c.actor)
        && (forall t :: t in NeededAuthority(c.verb) + c.requiresAuthority ==> Entitled(s.events, c.actor, t))
        && (forall t :: t in NeededKnowledge(c.verb) + c.requiresKnowledge ==>
              KnownAtStart(c.actor, t) || Told(s.events, c.actor, t))
  {
    var s := After(w, commands, n);
    forall t
      ensures t in Held(s.authority, c.actor) <==> Entitled(s.events, c.actor, t)
    {
      HeldIffEntitled(w, commands, n, c.actor, t);
    }
    forall t
      ensures t in Held(s.knowledge, c.actor) <==> KnownAtStart(c.actor, t) || Told(s.events, c.actor, t)
    {
      KnownIffTold(w, commands, n, c.actor, t);
    }
    GateOpens(w, s, c);
  }

  /** The gate in terms of what is held. */
  lemma GateOpens(w: World, s: State, c: Command)
    ensures Screen(w, s, c).None? <==>
      && c.matterId == w.matterId && c.actor in Doers(c.verb) && c.role == RoleOf(c.actor)
      && NeededAuthority(c.verb) + c.requiresAuthority <= Held(s.authority, c.actor)
      && NeededKnowledge(c.verb) + c.requiresKnowledge <= Held(s.knowledge, c.actor)
  {
    if c.actor in ACTORS && !c.verb.OtherVerb? && c.verb != ReadOracle {
      PolicyDoers(c.verb, c.actor);
      PolicyNeeds(c.verb);
      MissingMeans(PolicyOf(c.verb).authority, c.requiresAuthority, Held(s.authority, c.actor));
      MissingMeans(PolicyOf(c.verb).knowledge, c.requiresKnowledge, Held(s.knowledge, c.actor));
    } else {
      DoersAreActors(c.verb);
    }
  }

  lemma MissingMeans<T>(needed: set<T>, asked: set<T>, held: set<T>)
    ensures needed + asked - held == {} <==> needed <= held && asked <= held
  {
    if needed + asked - held == {} {
      forall t | t in needed || t in asked
        ensures t in held
      {
        assert t !in held ==> t in needed + asked - held;
      }
    }
  }

  lemma DoersAreActors(v: Verb)
    ensures Doers(v) <= ACTORS && (v.OtherVerb? || v == ReadOracle ==> Doers(v) == {})
  {
  }

  /** Which denial a command meets first. */
  lemma DenialReasons(w: World, s: State, c: Command)
    ensures Screen(w, s, c) == Some(MatterBoundary) <==> c.matterId != w.matterId
    ensures c.matterId == w.matterId ==> (Screen(w, s, c) == Some(UnknownActor) <==> c.actor.Stranger?)
    ensures c.matterId == w.matterId && !c.actor.Stranger? ==>
      (Screen(w, s, c) == Some(UnsupportedVerb) <==> c.verb.OtherVerb?)
    ensures c.matterId == w.matterId && !c.actor.Stranger? && !c.verb.OtherVerb? ==>
      (Screen(w, s, c) == Some(RoleMismatch) <==> c.role != RoleOf(c.actor))
    ensures c.matterId == w.matterId && !c.actor.Stranger? && !c.verb.OtherVerb? && c.role == RoleOf(c.actor) ==>
      && (Screen(w, s, c) == Some(VerbRoleForbidden) <==>
            if c.verb == ReadOracle then c.actor != ResponsibleLawyer else c.actor !in Doers(c.verb))
      && (Screen(w, s, c) == Some(OracleBoundary) <==> c.verb == ReadOracle && c.actor == ResponsibleLawyer)
      && (c.actor in Doers(c.verb) ==> MissingRights(s, c, Screen(w, s, c)))
  {
    if c.actor in ACTORS && !c.verb.OtherVerb? {
      PolicyNeeds(c.verb);
      if c.verb != ReadOracle {
        PolicyDoers(c.verb, c.actor);
      }
    }
  }

  /** Authority is looked at first; the denial lists all that is missing. */
  ghost predicate MissingRights(s: State, c: Command, denial: Option<DenialReason>) {
    var authority := NeededAuthority(c.verb) + c.requiresAuthority - Held(s.authority, c.actor);
    var knowledge := NeededKnowledge(c.verb) + c.requiresKnowledge - Held(s.knowledge, c.actor);
    denial ==
      if authority != {} then Some(MissingAuthority(authority))
      else if knowledge != {} then Some(MissingKnowledge(knowledge))
      else None
  }
}
