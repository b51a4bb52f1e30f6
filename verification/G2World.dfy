/** The actors, verb policies and case material of the G2 world (world.py, rules.py and the tables of g2.py). */
module G2World {
  datatype Actor =
    | IntakeCoordinator | ConflictsAnalyst | ResponsibleLawyer | LitigationParalegal | DocketingSpecialist
    | DeadlineReviewer | HrWitness | ManagerWitness | ClaimHandler | BillingSpecialist | IndependentExpert
    | Stranger(actorId: string)

  datatype Role =
    | Intake | Conflicts | Lawyer | Paralegal | Docketing | DeadlineReview | Witness | Manager
    | Carrier | Billing | Expert | OtherRole(roleId: string)

  datatype Authority =
    | MayReceiveReferral | MaySearchConflicts | MayDetermineConflict | MayOpenMatter | MayProposeDeadlines
    | MayVerifyDeadlines | MayPreserve | MayCollect | MayDoLegalWork | MayProduce | MayRetainExpert
    | MayResolve | MayRecordTime | MayBill | MayAuditCarrier | MayCloseMatter | OtherAuthority(name: string)

  datatype Knowledge =
    | ReferralSummary | PartyNames | ConflictResult | RulePackKnown | DeadlineProposal | EvidenceInventoryMetadata
    | PreservationIssued | CollectedEvidence | ReviewComplete | ProducedEvidence | DepositionTranscript
    | ExpertOpinion | InitialRecord | Guidelines | CoveragePosture | VerifiedDeadlines | OtherKnowledge(name: string)

  datatype Verb =
    | ReceiveReferral | SubmitConflictResult | RecordLawyerGate | OpenMatter | CalculateDeadlines | VerifyDeadlines
    | IssuePreservation | CollectEvidence | ReviewEvidence | ProduceDiscovery | TakeDeposition | RetainExpert
    | SettleCase | MediateToImpasse | ResolveDispositive | TryAndAppeal | RecordTime | SubmitInvoice
    | CarrierAudit | AppealReduction | ApplyPayment | FinalizeCloseout | CloseMatter | ReadOracle
    | OtherVerb(name: string)

  datatype Route = EarlySettlement | MediationImpasse | Dispositive | TrialAppeal

  datatype Posture = DefenseFavorable | ClaimantFavorable | Balanced

  type Authorities = map<Actor, set<Authority>>

  type Knowledges = map<Actor, set<Knowledge>>

  /** What an actor holds; the kernel's tables have an entry for every actor. */
  function Held<T>(m: map<Actor, set<T>>, a: Actor): set<T> {
    if a in m then m[a] else {}
  }

  const ACTORS: set<Actor> := {
    IntakeCoordinator, ConflictsAnalyst, ResponsibleLawyer, LitigationParalegal, DocketingSpecialist,
    DeadlineReviewer, HrWitness, ManagerWitness, ClaimHandler, BillingSpecialist, IndependentExpert }

  function RoleOf(a: Actor): Role
    requires a in ACTORS
  {
    match a
    case IntakeCoordinator => Intake
    case ConflictsAnalyst => Conflicts
    case ResponsibleLawyer => Lawyer
    case LitigationParalegal => Paralegal
    case DocketingSpecialist => Docketing
    case DeadlineReviewer => DeadlineReview
    case HrWitness => Witness
    case ManagerWitness => Manager
    case ClaimHandler => Carrier
    case BillingSpecialist => Billing
    case IndependentExpert => Expert
  }

  function InitialAuthority(a: Actor): set<Authority> {
    match a
    case IntakeCoordinator => {MayReceiveReferral}
    case ClaimHandler => {MayAuditCarrier}
    case _ => {}
  }

  function InitialKnowledge(a: Actor): set<Knowledge> {
    match a
    case IntakeCoordinator => {ReferralSummary}
    case ResponsibleLawyer => {ReferralSummary}
    case HrWitness =>
      {OtherKnowledge("hr_note"), OtherKnowledge("policy"),
       OtherKnowledge("employee_report"), OtherKnowledge("hr_email")}
    case ManagerWitness =>
      {OtherKnowledge("manager_email"), OtherKnowledge("attendance"), OtherKnowledge("manager_calendar")}
    case ClaimHandler => {CoveragePosture, Guidelines}
    case _ => {}
  }

  datatype VerbPolicy = VerbPolicy(roles: set<Role>, authority: set<Authority>, knowledge: set<Knowledge>)

  /** `VERB_POLICIES` */
  function PolicyOf(v: Verb): VerbPolicy
    requires !v.OtherVerb?
  {
    match v
    case ReceiveReferral => VerbPolicy({Intake}, {MayReceiveReferral}, {ReferralSummary})
    case SubmitConflictResult => VerbPolicy({Conflicts}, {MaySearchConflicts}, {PartyNames})
    case RecordLawyerGate => VerbPolicy({Lawyer}, {MayDetermineConflict}, {ConflictResult})
    case OpenMatter => VerbPolicy({Lawyer}, {MayOpenMatter}, {ReferralSummary})
    case CalculateDeadlines => VerbPolicy({Docketing}, {MayProposeDeadlines}, {RulePackKnown})
    case VerifyDeadlines => VerbPolicy({DeadlineReview}, {MayVerifyDeadlines}, {RulePackKnown, DeadlineProposal})
    case IssuePreservation => VerbPolicy({Paralegal}, {MayPreserve}, {EvidenceInventoryMetadata})
    case CollectEvidence => VerbPolicy({Paralegal}, {MayCollect}, {PreservationIssued})
    case ReviewEvidence => VerbPolicy({Lawyer}, {MayDoLegalWork}, {CollectedEvidence})
    case ProduceDiscovery => VerbPolicy({Paralegal}, {MayProduce}, {ReviewComplete})
    case TakeDeposition => VerbPolicy({Lawyer}, {MayDoLegalWork}, {ProducedEvidence})
    case RetainExpert => VerbPolicy({Lawyer}, {MayRetainExpert}, {DepositionTranscript})
    case SettleCase => VerbPolicy({Lawyer}, {MayResolve}, {ExpertOpinion})
    case MediateToImpasse => VerbPolicy({Lawyer}, {MayResolve}, {ExpertOpinion})
    case ResolveDispositive => VerbPolicy({Lawyer}, {MayResolve}, {ExpertOpinion})
    case TryAndAppeal => VerbPolicy({Lawyer}, {MayResolve}, {ExpertOpinion})
    case RecordTime => VerbPolicy({Lawyer, Paralegal}, {MayRecordTime}, {InitialRecord})
    case SubmitInvoice => VerbPolicy({Billing}, {MayBill}, {Guidelines})
    case CarrierAudit => VerbPolicy({Carrier}, {MayAuditCarrier}, {Guidelines})
    case AppealReduction => VerbPolicy({Billing}, {MayBill}, {Guidelines})
    case ApplyPayment => VerbPolicy({Billing}, {MayBill}, {Guidelines})
    case FinalizeCloseout => VerbPolicy({Lawyer}, {MayCloseMatter}, {ExpertOpinion})
    case CloseMatter => VerbPolicy({Lawyer}, {MayCloseMatter}, {ExpertOpinion})
    case ReadOracle => VerbPolicy({Lawyer}, {MayDoLegalWork}, {InitialRecord})
  }

  /** The resolution verb of a route. */
  function ResolutionVerb(r: Route): Verb {
    match r
    case EarlySettlement => SettleCase
    case MediationImpasse => MediateToImpasse
    case Dispositive => ResolveDispositive
    case TrialAppeal => TryAndAppeal
  }

  function OutcomeFor(p: Posture): string {
    match p
    case DefenseFavorable => "defense_favorable"
    case ClaimantFavorable => "claimant_favorable"
    case Balanced => "mixed_compromise"
  }

  // ---------- deadlines ----------

  datatype RulePack = RulePack(responseDays: int, disclosureDays: int, discoveryCutoffDays: int)

  type Deadlines = map<string, int>

  /** The three deadlines, each its own number of days after the filing. */
  predicate CountedFrom(rules: RulePack, filedDay: int, deadlines: Deadlines) {
    && deadlines.Keys == {"response_due", "initial_disclosures_due", "discovery_cutoff"}
    && deadlines["response_due"] == filedDay + rules.responseDays
    && deadlines["initial_disclosures_due"] == filedDay + rules.disclosureDays
    && deadlines["discovery_cutoff"] == filedDay + rules.discoveryCutoffDays
  }

  function DeadlinesPrimary(rules: RulePack, filedDay: int): Deadlines {
    map[
      "response_due" := filedDay + rules.responseDays,
      "initial_disclosures_due" := filedDay + rules.disclosureDays,
      "discovery_cutoff" := filedDay + rules.discoveryCutoffDays]
  }

  /** The second calculator meets the first, whatever the rules and the day. */
  method DeadlinesSecondary(rules: RulePack, filedDay: int) returns (derived: Deadlines)
    ensures derived == DeadlinesPrimary(rules, filedDay) && CountedFrom(rules, filedDay, derived)
  {
    var offsets := [
      ("discovery_cutoff", rules.discoveryCutoffDays),
      ("response_due", rules.responseDays),
      ("initial_disclosures_due", rules.disclosureDays)];
    derived := map[];
    for i := 0 to |offsets|
      invariant i == 0 ==> derived == map[]
      invariant i == 1 ==> derived == map[offsets[0].0 := filedDay + offsets[0].1]
      invariant i == 2 ==>
        derived == map[offsets[0].0 := filedDay + offsets[0].1, offsets[1].0 := filedDay + offsets[1].1]
      invariant i == 3 ==> derived == DeadlinesPrimary(rules, filedDay)
    {
      derived := derived[offsets[i].0 := filedDay + offsets[i].1];
    }
    PrimaryCounts(rules, filedDay);
  }

  lemma PrimaryCounts(rules: RulePack, filedDay: int)
    ensures CountedFrom(rules, filedDay, DeadlinesPrimary(rules, filedDay))
  {
  }

  /** Two calculations agree iff they count from the same day. */
  lemma CalculationsAgree(rules: RulePack, day: int, otherDay: int)
    ensures DeadlinesPrimary(rules, day) == DeadlinesPrimary(rules, otherDay) <==> day == otherDay
  {
    assert DeadlinesPrimary(rules, day)["response_due"] == day + rules.responseDays;
  }

  // ---------- evidence ----------

  datatype Claim = Claim(factId: string, value: string)

  datatype CustodyStep = CustodyStep(action: string, actor: Actor, day: int, objectHash: string)

  datatype ArtifactRecord = ArtifactRecord(
    artifactId: string,
    contentHash: string,
    responsive: bool,
    privileged: bool,
    claims: seq<Claim>,
    custody: seq<CustodyStep>)

  /** An artifact comes with at least the step that created it. */
  type Artifact = a: ArtifactRecord | a.custody != []
    witness ArtifactRecord("", "", false, false, [], [CustodyStep("", ResponsibleLawyer, 0, "")])

  datatype World = World(
    matterId: string,
    route: Route,
    rules: RulePack,
    evidence: seq<Artifact>,
    posture: Posture,
    witnessFrontier: seq<string>,
    expertAuthorized: seq<string>)

  /** The custody that `_artifact` gives an artifact made by `author` on `createdDay`. */
  function InitialCustody(author: Actor, createdDay: int, hash: string): seq<CustodyStep> {
    [CustodyStep("created", author, createdDay, hash),
     CustodyStep("collected", LitigationParalegal, 50, hash),
     CustodyStep("hashed", LitigationParalegal, 50, hash)]
  }

  /** The artifact was made by `_artifact`, on day 50 at the latest. */
  predicate WellMade(a: Artifact) {
    && |a.custody| == 3
    && a.custody[0].day <= 50
    && a.custody == InitialCustody(a.custody[0].actor, a.custody[0].day, a.contentHash)
  }

  predicate DistinctArtifacts(artifacts: seq<Artifact>) {
    forall i, j :: 0 <= i < j < |artifacts| ==> artifacts[i].artifactId != artifacts[j].artifactId
  }

  predicate AllWellMade(artifacts: seq<Artifact>) {
    DistinctArtifacts(artifacts) && forall i :: 0 <= i < |artifacts| ==> WellMade(artifacts[i])
  }
}
