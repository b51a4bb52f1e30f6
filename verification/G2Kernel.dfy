/** The authority-gated state machine of the G2 world (`G2WorldKernel` of g2.py). */
module G2Kernel {
  import opened Wrappers
  import opened G2World
  import opened G2Evidence
  import opened Strings
  import Finance = G2Finance

  const CONSENT := "affected_client_consent"

  /** A well-formed payload: every key that the transition of the verb reads is there. */
  datatype Payload = Payload(
    gate: string,
    grants: Authority,
    complaintFiledDay: int,
    amount: real,
    taskCode: string,
    narrative: string,
    reduction: real,
    recovered: real,
    cash: real)

  datatype Command = Command(
    commandId: string,
    verb: Verb,
    actor: Actor,
    role: Role,
    matterId: string,
    payload: Payload,
    requiresAuthority: set<Authority>,
    requiresKnowledge: set<Knowledge>)

  datatype Condition =
    | ProceduralComplete | FinalReportDelivered | RetentionScheduled | ConflictHistoryUpdated | FinanceReconciled

  const CLOSEOUT: set<Condition> :=
    {ProceduralComplete, FinalReportDelivered, RetentionScheduled, ConflictHistoryUpdated}

  datatype TimeEntry = TimeEntry(timekeeper: Actor, taskCode: string, narrative: string, amount: real)

  datatype Projection = Projection(
    status: string,
    deadlines: Deadlines,
    deadlineProposal: Deadlines,
    primaryActor: Option<Actor>,
    secondaryActor: Option<Actor>,
    deadlineVerifier: Option<Actor>,
    authorityHolds: set<string>,
    oracleAttempts: nat,
    evidence: EvidenceFile,
    depositionTokens: Option<seq<string>>,
    expertSources: Option<seq<string>>,
    milestones: seq<string>,
    outcome: string,
    timeEntries: seq<TimeEntry>,
    closeConditions: set<Condition>,
    closed: bool)

  const NEW_MATTER := Projection(
    "new", map[], map[], None, None, None, {}, 0, NO_EVIDENCE, None, None, [], "", [], {}, false)

  datatype Event = Event(number: nat, simulatedAt: int, command: Command)

  datatype DenialReason =
    | MatterBoundary | UnknownActor | UnsupportedVerb | RoleMismatch | VerbRoleForbidden | OracleBoundary
    | MissingAuthority(authority: set<Authority>) | MissingKnowledge(knowledge: set<Knowledge>)

  datatype Denial = Denial(command: Command, reason: DenialReason)

  datatype GateReason =
    | GateNotPending | UnresolvedHolds | NoDeadlineProposal | DeadlineMismatch | SameDeadlineActor
    | EvidenceRefused(error: EvidenceError) | RouteMismatch | FinanceRefused | ResolutionMissing
    | CloseConditionsMissing(missing: set<Condition>) | FinanceUnreconciled

  datatype State = State(
    clock: int,
    projection: Projection,
    finance: Finance.Balances,
    authority: Authorities,
    knowledge: Knowledges,
    events: seq<Event>,
    denials: seq<Denial>)

  datatype Outcome = Accepted(event: Event) | Denied(reason: DenialReason) | Refused(gate: GateReason)

  function InitialAuthorities(): (m: Authorities) {
    map a | a in ACTORS :: InitialAuthority(a)
  }

  function InitialKnowledges(): (m: Knowledges) {
    map a | a in ACTORS :: InitialKnowledge(a)
  }

  function InitialState(): State {
    State(0, NEW_MATTER, Finance.NOTHING_BILLED, InitialAuthorities(), InitialKnowledges(), [], [])
  }

  // ---------- the gate ----------

  function MissingAuthorityOf(s: State, c: Command): set<Authority>
    requires !c.verb.OtherVerb?
  {
    PolicyOf(c.verb).authority + c.requiresAuthority - Held(s.authority, c.actor)
  }

  function MissingKnowledgeOf(s: State, c: Command): set<Knowledge>
    requires !c.verb.OtherVerb?
  {
    PolicyOf(c.verb).knowledge + c.requiresKnowledge - Held(s.knowledge, c.actor)
  }

  /** Why a command is denied before any transition, if it is. */
  function Screen(w: World, s: State, c: Command): (r: Option<DenialReason>)
    ensures r.None? ==> c.actor in ACTORS && !c.verb.OtherVerb? && c.verb != ReadOracle
  {
    if c.matterId != w.matterId then Some(MatterBoundary)
    else if c.actor !in ACTORS then Some(UnknownActor)
    else if c.verb.OtherVerb? then Some(UnsupportedVerb)
    else if RoleOf(c.actor) != c.role then Some(RoleMismatch)
    else if RoleOf(c.actor) !in PolicyOf(c.verb).roles then Some(VerbRoleForbidden)
    else if c.verb == ReadOracle then Some(OracleBoundary)
    else if MissingAuthorityOf(s, c) != {} then Some(MissingAuthority(MissingAuthorityOf(s, c)))
    else if MissingKnowledgeOf(s, c) != {} then Some(MissingKnowledge(MissingKnowledgeOf(s, c)))
    else None
  }

  // ---------- transitions ----------

  function Granted(m: Authorities, a: Actor, tokens: set<Authority>): Authorities {
    m[a := Held(m, a) + tokens]
  }

  function Told(m: Knowledges, a: Actor, tokens: set<Knowledge>): Knowledges {
    m[a := Held(m, a) + tokens]
  }

  const LAWYER_OPENING: set<Authority> := {MayDoLegalWork, MayRetainExpert, MayResolve, MayCloseMatter, MayRecordTime}
  const PARALEGAL_OPENING: set<Authority> := {MayPreserve, MayCollect, MayProduce, MayRecordTime}

  function NextAuthority(m: Authorities, c: Command): Authorities {
    match c.verb
    case ReceiveReferral => Granted(m, ConflictsAnalyst, {MaySearchConflicts})
    case SubmitConflictResult => Granted(m, ResponsibleLawyer, {MayDetermineConflict})
    case RecordLawyerGate => Granted(m, ResponsibleLawyer, {c.payload.grants})
    case OpenMatter =>
      var started := Granted(Granted(m, ResponsibleLawyer, LAWYER_OPENING), LitigationParalegal, PARALEGAL_OPENING);
      var docketed := Granted(Granted(started, DocketingSpecialist, {MayProposeDeadlines}),
                             DeadlineReviewer, {MayVerifyDeadlines});
      Granted(docketed, BillingSpecialist, {MayBill})
    case _ => m
  }

  function NextKnowledge(m: Knowledges, c: Command): Knowledges {
    match c.verb
    case ReceiveReferral => Told(Told(m, ConflictsAnalyst, {PartyNames}), ResponsibleLawyer, {ReferralSummary})
    case SubmitConflictResult => Told(m, ResponsibleLawyer, {ConflictResult, PartyNames})
    case OpenMatter =>
      var started := Told(Told(m, ResponsibleLawyer, {CoveragePosture, Guidelines, InitialRecord}),
                         LitigationParalegal, {InitialRecord, EvidenceInventoryMetadata});
      var docketed := Told(Told(started, DocketingSpecialist, {InitialRecord, RulePackKnown}),
                           DeadlineReviewer, {InitialRecord, RulePackKnown});
      Told(docketed, BillingSpecialist, {Guidelines, InitialRecord})
    case CalculateDeadlines => Told(m, DeadlineReviewer, {DeadlineProposal})
    case VerifyDeadlines => Told(m, ResponsibleLawyer, {VerifiedDeadlines})
    case IssuePreservation => Told(m, LitigationParalegal, {PreservationIssued})
    case CollectEvidence =>
      Told(Told(m, ResponsibleLawyer, {CollectedEvidence}), LitigationParalegal, {CollectedEvidence})
    case ReviewEvidence => Told(Told(m, LitigationParalegal, {ReviewComplete}), ResponsibleLawyer, {ReviewComplete})
    case ProduceDiscovery => Told(m, ResponsibleLawyer, {ProducedEvidence})
    case TakeDeposition => Told(m, ResponsibleLawyer, {DepositionTranscript})
    case RetainExpert => Told(m, ResponsibleLawyer, {ExpertOpinion})
    case _ => m
  }

  /** The ledger operation that a billing verb asks for. */
  function OperationOf(c: Command): Option<Finance.Operation> {
    match c.verb
    case RecordTime => Some(Finance.Record(c.payload.amount))
    case SubmitInvoice => Some(Finance.Submit)
    case CarrierAudit => Some(Finance.Audit(c.payload.reduction))
    case AppealReduction => Some(Finance.Appeal(c.payload.recovered))
    case ApplyPayment => Some(Finance.Payment(c.payload.cash))
    case _ => None
  }

  /** The pass over the inventory that an evidence verb makes. */
  function PassOf(w: World, f: EvidenceFile, c: Command): Pass {
    match c.verb
    case IssuePreservation => Done(PreservedUpTo(f, w.evidence, |w.evidence|))
    case CollectEvidence => CollectedUpTo(f, w.evidence, |w.evidence|)
    case ReviewEvidence => ReviewPass(f, w.evidence, c.actor)
    case ProduceDiscovery => ProductionPass(f, w.evidence, c.actor)
    case _ => Done(f)
  }

  predicate IsResolution(v: Verb) {
    v == SettleCase || v == MediateToImpasse || v == ResolveDispositive || v == TryAndAppeal
  }

  function RefusedDeadlines(w: World, p: Projection, c: Command): Option<GateReason> {
    if p.deadlineProposal == map[] then Some(NoDeadlineProposal)
    else if DeadlinesPrimary(w.rules, c.payload.complaintFiledDay) != p.deadlineProposal then Some(DeadlineMismatch)
    else if p.primaryActor == Some(c.actor) then Some(SameDeadlineActor)
    else None
  }

  function RefusedClose(p: Projection, b: Finance.Balances): Option<GateReason> {
    var missing := CLOSEOUT + {FinanceReconciled} - p.closeConditions;
    if missing != {} then Some(CloseConditionsMissing(missing))
    else if Finance.InvariantErrors(b) != [] then Some(FinanceUnreconciled)
    else None
  }

  /** Why a screened command is refused by its transition, if it is. */
  function Refusal(w: World, p: Projection, b: Finance.Balances, c: Command): Option<GateReason> {
    match c.verb
    case RecordLawyerGate => if c.payload.gate !in p.authorityHolds then Some(GateNotPending) else None
    case OpenMatter => if p.authorityHolds != {} then Some(UnresolvedHolds) else None
    case VerifyDeadlines => RefusedDeadlines(w, p, c)
    case FinalizeCloseout => if p.outcome == "" then Some(ResolutionMissing) else None
    case CloseMatter => RefusedClose(p, b)
    case _ =>
      var pass := PassOf(w, p.evidence, c);
      if pass.Stopped? then Some(EvidenceRefused(pass.error))
      else if IsResolution(c.verb) && c.verb != ResolutionVerb(w.route) then Some(RouteMismatch)
      else if OperationOf(c).Some? && !Finance.Takes(b, OperationOf(c).value) then Some(FinanceRefused)
      else None
  }

  function MilestonesOf(v: Verb): seq<string> {
    match v
    case SettleCase => ["demand_evaluated", "authority_obtained", "synthetic_release_executed"]
    case MediateToImpasse => ["mediation_statement", "session_completed", "impasse_recorded"]
    case ResolveDispositive => ["motion_filed", "opposition_modeled", "order_entered"]
    case TryAndAppeal => ["pretrial_completed", "trial_modeled", "judgment_entered", "appeal_modeled"]
    case _ => []
  }

  function ResolvedStatus(r: Route): string {
    match r
    case EarlySettlement => "resolved_early_settlement"
    case MediationImpasse => "resolved_mediation_impasse"
    case Dispositive => "resolved_dispositive"
    case TrialAppeal => "resolved_trial_appeal"
  }

  /** The produced artifacts that the expert may use, in order of production. */
  function ExpertSources(produced: seq<string>, authorized: seq<string>, n: nat): seq<string>
    requires n <= |produced|
  {
    if n == 0 then []
    else if produced[n - 1] in authorized then ExpertSources(produced, authorized, n - 1) + [produced[n - 1]]
    else ExpertSources(produced, authorized, n - 1)
  }

  /** The projection after a transition that is not refused. */
  function NextProjection(w: World, p: Projection, b: Finance.Balances, c: Command): Projection {
    match c.verb
    case ReceiveReferral => p.(status := "referral_received")
    case SubmitConflictResult => p.(authorityHolds := p.authorityHolds + {CONSENT})
    case RecordLawyerGate => p.(authorityHolds := p.authorityHolds - {c.payload.gate})
    case OpenMatter => p.(status := "matter_opened")
    case CalculateDeadlines =>
      p.(deadlineProposal := DeadlinesPrimary(w.rules, c.payload.complaintFiledDay),
         primaryActor := Some(c.actor), secondaryActor := None)
    case VerifyDeadlines =>
      p.(deadlines := p.deadlineProposal, secondaryActor := Some(c.actor), deadlineVerifier := Some(c.actor))
    case TakeDeposition => p.(depositionTokens := Some(w.witnessFrontier))
    case RetainExpert =>
      p.(expertSources := Some(ExpertSources(p.evidence.produced, w.expertAuthorized, |p.evidence.produced|)))
    case RecordTime =>
      p.(timeEntries := p.timeEntries + [TimeEntry(c.actor, c.payload.taskCode, c.payload.narrative, c.payload.amount)])
    case FinalizeCloseout =>
      var reconciled := Finance.InvariantErrors(b) == [] && b.receivable == 0.0;
      var closeout := p.closeConditions + CLOSEOUT;
      p.(closeConditions := if reconciled then closeout + {FinanceReconciled} else closeout)
    case CloseMatter => p.(closed := true, status := "closed")
    case _ =>
      if IsResolution(c.verb) then
        p.(milestones := MilestonesOf(c.verb), outcome := OutcomeFor(w.posture), status := ResolvedStatus(w.route))
      else
        p.(evidence := PassOf(w, p.evidence, c).file)
  }

  /** The state after a transition. A refused one may leave part of a pass over the inventory behind. */
  function Transitioned(w: World, s: State, c: Command): State {
    if Refusal(w, s.projection, s.finance, c).Some? then
      s.(projection := s.projection.(evidence := PassOf(w, s.projection.evidence, c).file))
    else
      s.(projection := NextProjection(w, s.projection, s.finance, c),
         finance := if OperationOf(c).Some? then Finance.Posted(s.finance, OperationOf(c).value) else s.finance,
         authority := NextAuthority(s.authority, c),
         knowledge := NextKnowledge(s.knowledge, c))
  }

  function OutcomeOf(w: World, s: State, c: Command): Outcome {
    var denial := Screen(w, s, c);
    if denial.Some? then Denied(denial.value)
    else
      var refusal := Refusal(w, s.projection, s.finance, c);
      if refusal.Some? then Refused(refusal.value)
      else Accepted(Event(|s.events| + 1, s.clock + 1, c))
  }

  function Next(w: World, s: State, c: Command): State {
    match OutcomeOf(w, s, c)
    case Denied(reason) =>
      var attempts := s.projection.oracleAttempts + if reason == OracleBoundary then 1 else 0;
      s.(denials := s.denials + [Denial(c, reason)], projection := s.projection.(oracleAttempts := attempts))
    case Refused(_) => Transitioned(w, s, c).(clock := s.clock + 1)
    case Accepted(event) => Transitioned(w, s, c).(clock := s.clock + 1, events := s.events + [event])
  }

  /** Transitions neither read the clock nor set it. */
  lemma TransitionsIgnoreClock(w: World, s: State, c: Command, clock: int)
    ensures Transitioned(w, s.(clock := clock), c) == Transitioned(w, s, c).(clock := clock)
  {
  }

  predicate IsEvidenceVerb(v: Verb) {
    v == IssuePreservation || v == CollectEvidence || v == ReviewEvidence || v == ProduceDiscovery
  }

  predicate IsBillingVerb(v: Verb) {
    v == RecordTime || v == SubmitInvoice || v == CarrierAudit || v == AppealReduction || v == ApplyPayment
  }

  lemma EvidenceTransition(w: World, s: State, c: Command)
    requires IsEvidenceVerb(c.verb)
    ensures
      var pass := PassOf(w, s.projection.evidence, c);
      && Refusal(w, s.projection, s.finance, c) == (if pass.Stopped? then Some(EvidenceRefused(pass.error)) else None)
      && Transitioned(w, s, c) == s.(
           projection := s.projection.(evidence := pass.file),
           knowledge := if pass.Stopped? then s.knowledge else NextKnowledge(s.knowledge, c))
  {
  }

  lemma OpeningTransition(w: World, s: State, c: Command)
    requires c.verb == OpenMatter
    ensures
      if s.projection.authorityHolds != {} then
        Refusal(w, s.projection, s.finance, c) == Some(UnresolvedHolds) && Transitioned(w, s, c) == s
      else
        && Refusal(w, s.projection, s.finance, c) == None
        && Transitioned(w, s, c) == s.(
             projection := s.projection.(status := "matter_opened"),
             authority := NextAuthority(s.authority, c), knowledge := NextKnowledge(s.knowledge, c))
  {
  }

  lemma BillingTransition(w: World, s: State, c: Command)
    requires IsBillingVerb(c.verb)
    ensures
      var op := OperationOf(c).value;
      var taken := Finance.Takes(s.finance, op);
      && Refusal(w, s.projection, s.finance, c) == (if taken then None else Some(FinanceRefused))
      && Transitioned(w, s, c) == s.(
           projection := if taken then NextProjection(w, s.projection, s.finance, c) else s.projection,
           finance := Finance.Posted(s.finance, op))
  {
  }

  // ---------- the kernel ----------

  class G2WorldKernel {
    const w: World
    const finance: Finance.FinanceLedger
    var clock: int
    var projection: Projection
    var authority: Authorities
    var knowledge: Knowledges
    var events: seq<Event>
    var denials: seq<Denial>

    constructor (w: World)
      ensures this.w == w && Now() == InitialState() && fresh(finance)
    {
      this.w := w;
      finance := new Finance.FinanceLedger();
      clock, projection, events, denials := 0, NEW_MATTER, [], [];
      authority := InitialAuthorities();
      knowledge := InitialKnowledges();
    }

    ghost function Now(): State
      reads this, finance
    {
      State(clock, projection, finance.State(), authority, knowledge, events, denials)
    }

    method Grant(a: Actor, rights: set<Authority>)
      modifies this`authority
      ensures authority == Granted(old(authority), a, rights)
    {
      authority := authority[a := Held(authority, a) + rights];
    }

    method Tell(a: Actor, facts: set<Knowledge>)
      modifies this`knowledge
      ensures knowledge == Told(old(knowledge), a, facts)
    {
      knowledge := knowledge[a := Held(knowledge, a) + facts];
    }

    method Deny(c: Command, reason: DenialReason)
      modifies this
      ensures Now() == old(Now()).(denials := old(denials) + [Denial(c, reason)])
    {
      denials := denials + [Denial(c, reason)];
    }

    // ----- the evidence verbs -----

    method Preserve()
      modifies this`projection
      ensures projection == old(projection).(
        evidence := PreservedUpTo(old(projection).evidence, w.evidence, |w.evidence|))
    {
      for n := 0 to |w.evidence|
        invariant projection == old(projection).(
          evidence := PreservedUpTo(old(projection).evidence, w.evidence, n))
      {
        var a, f := w.evidence[n], projection.evidence;
        var created := a.custody[..1];
        projection := projection.(evidence := f.(
          status := f.status[a.artifactId := Preserved], custody := f.custody[a.artifactId := created]));
      }
    }

    method Collect() returns (error: Option<EvidenceError>)
      modifies this`projection
      ensures
        var pass := CollectedUpTo(old(projection).evidence, w.evidence, |w.evidence|);
        && projection == old(projection).(evidence := pass.file)
        && error == if pass.Stopped? then Some(pass.error) else None
    {
      error := None;
      for n := 0 to |w.evidence|
        invariant
          var pass := CollectedUpTo(old(projection).evidence, w.evidence, n);
          && projection == old(projection).(evidence := pass.file)
          && error == if pass.Stopped? then Some(pass.error) else None
      {
        if error.None? {
          var a, f := w.evidence[n], projection.evidence;
          var id := a.artifactId;
          if StatusOf(f, id) != Some(Preserved) {
            error := Some(NotPreserved(id));
          } else {
            var log := LogOf(f, id) + a.custody[1..];
            projection := projection.(evidence := f.(
              status := f.status[id := Collected], custody := f.custody[id := log]));
          }
        }
      }
    }

    method ReviewAll(reviewer: Actor) returns (error: Option<EvidenceError>, table: ClaimTable)
      modifies this`projection
      ensures
        var pass := ReviewedUpTo(old(projection).evidence, w.evidence, reviewer, |w.evidence|);
        && projection == old(projection).(evidence := pass.file)
        && error == if pass.Stopped? then Some(pass.error) else None
      ensures
        var claims := SelectedClaims(w.evidence, |w.evidence|);
        error.None? ==> table == Tabulate(claims, |claims|)
    {
      error, table := None, ClaimTable([], map[]);
      ghost var claims := [];
      for n := 0 to |w.evidence|
        invariant
          var pass := ReviewedUpTo(old(projection).evidence, w.evidence, reviewer, n);
          && projection == old(projection).(evidence := pass.file)
          && error == if pass.Stopped? then Some(pass.error) else None
        invariant error.None? ==> claims == SelectedClaims(w.evidence, n)
        invariant table == Tabulate(claims, |claims|)
      {
        if error.None? {
          var a := w.evidence[n];
          error := ReviewOne(a, reviewer);
          if error.None? && Selected(a) {
            table := AddClaims(table, claims, a.claims);
            claims := claims + a.claims;
          }
        }
      }
    }

    method Review(reviewer: Actor) returns (error: Option<EvidenceError>)
      modifies this`projection
      ensures
        var pass := ReviewPass(old(projection).evidence, w.evidence, reviewer);
        && projection == old(projection).(evidence := pass.file)
        && error == if pass.Stopped? then Some(pass.error) else None
    {
      var table;
      error, table := ReviewAll(reviewer);
      if error.None? {
        var candidates := Sort(Contested(table, |table.facts|));
        projection := projection.(evidence := projection.evidence.(conflictCandidates := candidates));
      }
    }

    method ReviewOne(a: Artifact, reviewer: Actor) returns (error: Option<EvidenceError>)
      modifies this`projection
      ensures
        var f, id := old(projection).evidence, a.artifactId;
        if StatusOf(f, id) != Some(Collected) then error == Some(NotCollected(id)) && projection == old(projection)
        else
          && error == None
          && projection == old(projection).(evidence :=
            if Selected(a) then Marked(f, id, Reviewed, LogOf(f, id) + [ReviewStep(a, reviewer)])
            else f.(status := f.status[id := WithheldNonresponsive]))
    {
      var f, id := projection.evidence, a.artifactId;
      if StatusOf(f, id) != Some(Collected) {
        return Some(NotCollected(id));
      }
      if a.responsive && !a.privileged {
        f := f.(status := f.status[id := Reviewed],
                custody := f.custody[id := LogOf(f, id) + [CustodyStep("reviewed", reviewer, 51, FirstHash(a))]]);
      } else {
        f := f.(status := f.status[id := WithheldNonresponsive]);
      }
      projection := projection.(evidence := f);
      return None;
    }

    method SelectReviewed() returns (selected: seq<string>)
      ensures selected == ReviewedIds(projection.evidence, w.evidence, |w.evidence|)
    {
      selected := [];
      for n := 0 to |w.evidence|
        invariant selected == ReviewedIds(projection.evidence, w.evidence, n)
      {
        if StatusOf(projection.evidence, w.evidence[n].artifactId) == Some(Reviewed) {
          selected := selected + [w.evidence[n].artifactId];
        }
      }
    }

    method ProduceAll(selected: seq<string>, producer: Actor)
      modifies this`projection
      ensures projection == old(projection).(
        evidence := ProducedUpTo(old(projection).evidence, w.evidence, selected, producer, |selected|))
    {
      for n := 0 to |selected|
        invariant projection == old(projection).(
          evidence := ProducedUpTo(old(projection).evidence, w.evidence, selected, producer, n))
      {
        var id, f := selected[n], projection.evidence;
        var found := FindArtifact(w.evidence, id, |w.evidence|);
        if found.Some? {
          var step := CustodyStep("produced", producer, 52, FirstHash(found.value));
          projection := projection.(evidence := f.(
            status := f.status[id := Produced],
            custody := f.custody[id := LogOf(f, id) + [step]],
            produced := f.produced + [id]));
        }
      }
    }

    method Produce(producer: Actor) returns (error: Option<EvidenceError>)
      modifies this`projection
      ensures
        var pass := ProductionPass(old(projection).evidence, w.evidence, producer);
        && projection == old(projection).(evidence := pass.file)
        && error == if pass.Stopped? then Some(pass.error) else None
    {
      var selected := SelectReviewed();
      if selected == [] {
        return Some(ProductionEmpty);
      }
      ProduceAll(selected, producer);
      return None;
    }

    /** One pass over the inventory, for the evidence verbs. */
    method MakePass(c: Command) returns (error: Option<EvidenceError>)
      requires IsEvidenceVerb(c.verb)
      modifies this`projection
      ensures
        var pass := PassOf(w, old(projection).evidence, c);
        && projection == old(projection).(evidence := pass.file)
        && error == if pass.Stopped? then Some(pass.error) else None
    {
      error := None;
      match c.verb {
        case IssuePreservation => Preserve();
        case CollectEvidence => error := Collect();
        case ReviewEvidence => error := Review(c.actor);
        case ProduceDiscovery => error := Produce(c.actor);
      }
    }

    method TellOfEvidence(c: Command)
      requires IsEvidenceVerb(c.verb)
      modifies this`knowledge
      ensures knowledge == NextKnowledge(old(knowledge), c)
    {
      match c.verb {
        case IssuePreservation =>
          Tell(LitigationParalegal, {PreservationIssued});
        case CollectEvidence =>
          Tell(ResponsibleLawyer, {CollectedEvidence});
          Tell(LitigationParalegal, {CollectedEvidence});
        case ReviewEvidence =>
          Tell(LitigationParalegal, {ReviewComplete});
          Tell(ResponsibleLawyer, {ReviewComplete});
        case ProduceDiscovery =>
          Tell(ResponsibleLawyer, {ProducedEvidence});
      }
    }

    method EvidenceVerb(c: Command) returns (refusal: Option<GateReason>)
      requires IsEvidenceVerb(c.verb)
      modifies this`projection, this`knowledge
      ensures refusal == Refusal(w, old(projection), finance.State(), c)
      ensures Now() == Transitioned(w, old(Now()), c)
    {
      EvidenceTransition(w, Now(), c);
      var error := MakePass(c);
      if error.Some? {
        return Some(EvidenceRefused(error.value));
      }
      TellOfEvidence(c);
      return None;
    }

    // ----- the other verbs -----

    method Receive(c: Command) returns (refusal: Option<GateReason>)
      requires c.verb == ReceiveReferral
      modifies this`projection, this`authority, this`knowledge
      ensures refusal == Refusal(w, old(projection), finance.State(), c)
      ensures Now() == Transitioned(w, old(Now()), c)
    {
      projection := projection.(status := "referral_received");
      Grant(ConflictsAnalyst, {MaySearchConflicts});
      Tell(ConflictsAnalyst, {PartyNames});
      Tell(ResponsibleLawyer, {ReferralSummary});
      return None;
    }

    method SubmitConflicts(c: Command) returns (refusal: Option<GateReason>)
      requires c.verb == SubmitConflictResult
      modifies this`projection, this`authority, this`knowledge
      ensures refusal == Refusal(w, old(projection), finance.State(), c)
      ensures Now() == Transitioned(w, old(Now()), c)
    {
      projection := projection.(authorityHolds := projection.authorityHolds + {CONSENT});
      Grant(ResponsibleLawyer, {MayDetermineConflict});
      Tell(ResponsibleLawyer, {ConflictResult, PartyNames});
      return None;
    }

    method RecordGate(c: Command) returns (refusal: Option<GateReason>)
      requires c.verb == RecordLawyerGate
      modifies this`projection, this`authority
      ensures refusal == Refusal(w, old(projection), finance.State(), c)
      ensures Now() == Transitioned(w, old(Now()), c)
    {
      var gate := c.payload.gate;
      if gate !in projection.authorityHolds {
        return Some(GateNotPending);
      }
      projection := projection.(authorityHolds := projection.authorityHolds - {gate});
      Grant(ResponsibleLawyer, {c.payload.grants});
      return None;
    }

    method Open(c: Command) returns (refusal: Option<GateReason>)
      requires c.verb == OpenMatter
      modifies this`projection, this`authority, this`knowledge
      ensures refusal == (if old(projection).authorityHolds != {} then Some(UnresolvedHolds) else None)
      ensures refusal.Some? ==> Now() == old(Now())
      ensures refusal.None? ==>
        && projection == old(projection).(status := "matter_opened")
        && authority == NextAuthority(old(authority), c)
        && knowledge == NextKnowledge(old(knowledge), c)
    {
      if projection.authorityHolds != {} {
        return Some(UnresolvedHolds);
      }
      projection := projection.(status := "matter_opened");
      OpenToStaff(c);
      return None;
    }

    method OpenToStaff(ghost c: Command)
      requires c.verb == OpenMatter
      modifies this`authority, this`knowledge
      ensures authority == NextAuthority(old(authority), c) && knowledge == NextKnowledge(old(knowledge), c)
    {
      GrantToStaff(c);
      TellStaff(c);
    }

    method GrantToStaff(ghost c: Command)
      requires c.verb == OpenMatter
      modifies this`authority
      ensures authority == NextAuthority(old(authority), c)
    {
      Grant(ResponsibleLawyer, {MayDoLegalWork, MayRetainExpert, MayResolve, MayCloseMatter, MayRecordTime});
      Grant(LitigationParalegal, {MayPreserve, MayCollect, MayProduce, MayRecordTime});
      Grant(DocketingSpecialist, {MayProposeDeadlines});
      Grant(DeadlineReviewer, {MayVerifyDeadlines});
      Grant(BillingSpecialist, {MayBill});
    }

    method TellStaff(ghost c: Command)
      requires c.verb == OpenMatter
      modifies this`knowledge
      ensures knowledge == NextKnowledge(old(knowledge), c)
    {
      Tell(ResponsibleLawyer, {CoveragePosture, Guidelines, InitialRecord});
      Tell(LitigationParalegal, {InitialRecord, EvidenceInventoryMetadata});
      Tell(DocketingSpecialist, {InitialRecord, RulePackKnown});
      Tell(DeadlineReviewer, {InitialRecord, RulePackKnown});
      Tell(BillingSpecialist, {Guidelines, InitialRecord});
    }

    method Calculate(c: Command) returns (refusal: Option<GateReason>)
      requires c.verb == CalculateDeadlines
      modifies this`projection, this`knowledge
      ensures refusal == Refusal(w, old(projection), finance.State(), c)
      ensures Now() == Transitioned(w, old(Now()), c)
    {
      var proposal := DeadlinesPrimary(w.rules, c.payload.complaintFiledDay);
      projection := projection.(
        deadlineProposal := proposal, primaryActor := Some(c.actor), secondaryActor := None);
      Tell(DeadlineReviewer, {DeadlineProposal});
      return None;
    }

    method Verify(c: Command) returns (refusal: Option<GateReason>)
      requires c.verb == VerifyDeadlines
      modifies this`projection, this`knowledge
      ensures refusal == Refusal(w, old(projection), finance.State(), c)
      ensures Now() == Transitioned(w, old(Now()), c)
    {
      if projection.deadlineProposal == map[] {
        return Some(NoDeadlineProposal);
      }
      var independent := DeadlinesSecondary(w.rules, c.payload.complaintFiledDay);
      if independent != projection.deadlineProposal {
        return Some(DeadlineMismatch);
      }
      if projection.primaryActor == Some(c.actor) {
        return Some(SameDeadlineActor);
      }
      projection := projection.(
        deadlines := independent, secondaryActor := Some(c.actor), deadlineVerifier := Some(c.actor));
      Tell(ResponsibleLawyer, {VerifiedDeadlines});
      return None;
    }

    method RecordVerb(c: Command) returns (refusal: Option<GateReason>)
      requires c.verb == TakeDeposition || c.verb == RetainExpert
      modifies this`projection, this`knowledge
      ensures refusal == Refusal(w, old(projection), finance.State(), c)
      ensures Now() == Transitioned(w, old(Now()), c)
    {
      if c.verb == TakeDeposition {
        projection := projection.(depositionTokens := Some(w.witnessFrontier));
        Tell(ResponsibleLawyer, {DepositionTranscript});
      } else {
        var sources := SelectSources();
        projection := projection.(expertSources := Some(sources));
        Tell(ResponsibleLawyer, {ExpertOpinion});
      }
      return None;
    }

    method Resolve(c: Command) returns (refusal: Option<GateReason>)
      requires IsResolution(c.verb)
      modifies this`projection
      ensures refusal == Refusal(w, old(projection), finance.State(), c)
      ensures Now() == Transitioned(w, old(Now()), c)
    {
      if c.verb != ResolutionVerb(w.route) {
        return Some(RouteMismatch);
      }
      projection := projection.(
        milestones := MilestonesOf(c.verb), outcome := OutcomeFor(w.posture), status := ResolvedStatus(w.route));
      return None;
    }

    method SelectSources() returns (sources: seq<string>)
      ensures sources == ExpertSources(projection.evidence.produced, w.expertAuthorized, |projection.evidence.produced|)
    {
      sources := [];
      var produced := projection.evidence.produced;
      for n := 0 to |produced|
        invariant sources == ExpertSources(produced, w.expertAuthorized, n)
      {
        if produced[n] in w.expertAuthorized {
          sources := sources + [produced[n]];
        }
      }
    }

    method BillingVerb(c: Command) returns (refusal: Option<GateReason>)
      requires IsBillingVerb(c.verb)
      modifies this`projection, finance
      ensures refusal == Refusal(w, old(projection), old(finance.State()), c)
      ensures Now() == Transitioned(w, old(Now()), c)
    {
      BillingTransition(w, Now(), c);
      var taken;
      match c.verb {
        case RecordTime =>
          taken := finance.RecordTime(c.payload.amount);
          if taken {
            var entry := TimeEntry(c.actor, c.payload.taskCode, c.payload.narrative, c.payload.amount);
            projection := projection.(timeEntries := projection.timeEntries + [entry]);
          }
        case SubmitInvoice =>
          var amount;
          taken, amount := finance.SubmitInvoice();
        case CarrierAudit =>
          taken := finance.CarrierAudit(c.payload.reduction);
        case AppealReduction =>
          taken := finance.AppealReduction(c.payload.recovered);
        case ApplyPayment =>
          taken := finance.ApplyPayment(c.payload.cash);
      }
      return if taken then None else Some(FinanceRefused);
    }

    method Finalize(c: Command) returns (refusal: Option<GateReason>)
      requires c.verb == FinalizeCloseout
      modifies this`projection
      ensures refusal == Refusal(w, old(projection), finance.State(), c)
      ensures Now() == Transitioned(w, old(Now()), c)
    {
      if projection.outcome == "" {
        return Some(ResolutionMissing);
      }
      var conditions := projection.closeConditions + CLOSEOUT;
      if Finance.InvariantErrors(finance.State()) == [] && finance.receivable == 0.0 {
        conditions := conditions + {FinanceReconciled};
      }
      projection := projection.(closeConditions := conditions);
      return None;
    }

    method Close(c: Command) returns (refusal: Option<GateReason>)
      requires c.verb == CloseMatter
      modifies this`projection
      ensures refusal == Refusal(w, old(projection), finance.State(), c)
      ensures Now() == Transitioned(w, old(Now()), c)
    {
      var missing := CLOSEOUT + {FinanceReconciled} - projection.closeConditions;
      if missing != {} {
        return Some(CloseConditionsMissing(missing));
      }
      if Finance.InvariantErrors(finance.State()) != [] {
        return Some(FinanceUnreconciled);
      }
      projection := projection.(closed := true, status := "closed");
      return None;
    }

    /** `_transition` */
    method Transition(c: Command) returns (refusal: Option<GateReason>)
      requires c.verb != ReadOracle && !c.verb.OtherVerb?
      modifies this`projection, this`authority, this`knowledge, finance
      ensures refusal == Refusal(w, old(projection), old(finance.State()), c)
      ensures Now() == Transitioned(w, old(Now()), c)
    {
      if IsEvidenceVerb(c.verb) {
        refusal := EvidenceVerb(c);
      } else if IsBillingVerb(c.verb) {
        refusal := BillingVerb(c);
      } else if c.verb == FinalizeCloseout {
        refusal := Finalize(c);
      } else if c.verb == CloseMatter {
        refusal := Close(c);
      } else if c.verb == CalculateDeadlines {
        refusal := Calculate(c);
      } else if c.verb == VerifyDeadlines {
        refusal := Verify(c);
      } else if c.verb == TakeDeposition || c.verb == RetainExpert {
        refusal := RecordVerb(c);
      } else if IsResolution(c.verb) {
        refusal := Resolve(c);
      } else if c.verb == RecordLawyerGate {
        refusal := RecordGate(c);
      } else if c.verb == OpenMatter {
        OpeningTransition(w, Now(), c);
        refusal := Open(c);
      } else if c.verb == SubmitConflictResult {
        refusal := SubmitConflicts(c);
      } else {
        refusal := Receive(c);
      }
    }

    /** The checks of `submit` that deny. */
    method Gate(c: Command) returns (denial: Option<DenialReason>)
      ensures denial == Screen(w, Now(), c)
    {
      if c.matterId != w.matterId {
        return Some(MatterBoundary);
      }
      if c.actor !in ACTORS {
        return Some(UnknownActor);
      }
      if c.verb.OtherVerb? {
        return Some(UnsupportedVerb);
      }
      var role, policy := RoleOf(c.actor), PolicyOf(c.verb);
      if role != c.role {
        return Some(RoleMismatch);
      }
      if role !in policy.roles {
        return Some(VerbRoleForbidden);
      }
      if c.verb == ReadOracle {
        return Some(OracleBoundary);
      }
      var missingAuthority := policy.authority + c.requiresAuthority - Held(authority, c.actor);
      var missingKnowledge := policy.knowledge + c.requiresKnowledge - Held(knowledge, c.actor);
      if missingAuthority != {} {
        return Some(MissingAuthority(missingAuthority));
      }
      if missingKnowledge != {} {
        return Some(MissingKnowledge(missingKnowledge));
      }
      return None;
    }

    method Proceed(c: Command) returns (outcome: Outcome)
      requires Screen(w, Now(), c).None?
      modifies this, finance
      ensures outcome == OutcomeOf(w, old(Now()), c)
      ensures Now() == Next(w, old(Now()), c)
    {
      TransitionsIgnoreClock(w, Now(), c, clock + 1);
      clock := clock + 1;
      var refusal := Transition(c);
      if refusal.Some? {
        return Refused(refusal.value);
      }
      var event := Event(|events| + 1, clock, c);
      events := events + [event];
      return Accepted(event);
    }

    /** `submit`; every outcome but an acceptance is a raised `GateError`. */
    method Submit(c: Command) returns (outcome: Outcome)
      modifies this, finance
      ensures outcome == OutcomeOf(w, old(Now()), c)
      ensures Now() == Next(w, old(Now()), c)
    {
      var denial := Gate(c);
      if denial.None? {
        outcome := Proceed(c);
      } else {
        if denial.value == OracleBoundary {
          projection := projection.(oracleAttempts := projection.oracleAttempts + 1);
        }
        Deny(c, denial.value);
        return Denied(denial.value);
      }
    }
  }
}
