/** What repeating an accepted command can do: a second preservation, and a second audit of the invoices. */
module G2Repeats {
  import opened Wrappers
  import opened G2World
  import opened G2Evidence
  import opened G2Kernel
  import opened G2Runs
  import opened G2Closure
  import Berean
  import Finance = G2Finance

  // ---------- preservation after production ----------

  /** Event `j` is a preservation after a production, and no production follows. */
  ghost predicate ReopenedAt(events: seq<Event>, j: nat)
    requires j < |events|
  {
    && events[j].command.verb == IssuePreservation
    && HappenedBefore(events, ProduceDiscovery, j)
    && forall k :: j < k < |events| ==> events[k].command.verb != ProduceDiscovery
  }

  /** A preservation was accepted after the last accepted production. */
  ghost predicate Reopened(events: seq<Event>) {
    exists j :: 0 <= j < |events| && ReopenedAt(events, j)
  }

  lemma ProductionEnds(events: seq<Event>, e: Event)
    requires e.command.verb == ProduceDiscovery
    ensures !Reopened(events + [e])
  {
    assert (events + [e])[|events|] == e;
  }

  lemma PreservationReopens(events: seq<Event>, e: Event)
    requires e.command.verb == IssuePreservation && Happened(events, ProduceDiscovery)
    ensures Reopened(events + [e])
  {
    var more := events + [e];
    var i :| 0 <= i < |events| && events[i].command.verb == ProduceDiscovery;
    assert more[i] == events[i] && more[|events|] == e;
    assert ReopenedAt(more, |events|);
  }

  lemma StaysReopened(events: seq<Event>, e: Event)
    requires e.command.verb != ProduceDiscovery && e.command.verb != IssuePreservation
    ensures Reopened(events + [e]) <==> Reopened(events)
  {
    var more := events + [e];
    if j :| 0 <= j < |events| && ReopenedAt(events, j) {
      var i :| 0 <= i < j && events[i].command.verb == ProduceDiscovery;
      assert more[i] == events[i] && more[j] == events[j];
      assert ReopenedAt(more, j);
    }
    if j :| 0 <= j < |more| && ReopenedAt(more, j) {
      var i :| 0 <= i < j && more[i].command.verb == ProduceDiscovery;
      assert more[|events|] == e && more[i] == events[i] && more[j] == events[j];
      forall k | j < k < |events|
        ensures events[k].command.verb != ProduceDiscovery
      {
        assert more[k] == events[k];
      }
      assert ReopenedAt(events, j);
    }
  }

  /** The file against the events: what was produced, and whether the inventory still is in the phase of production. */
  ghost predicate StandsIn(w: World, f: EvidenceFile, events: seq<Event>, phase: Phase) {
    && EvidenceIn(f, w.evidence, phase)
    && (f.produced != [] <==> Happened(events, ProduceDiscovery))
    && (f.produced != [] ==> (phase == InProduction <==> !Reopened(events)))
  }

  ghost predicate Stands(w: World, f: EvidenceFile, events: seq<Event>) {
    exists phase :: StandsIn(w, f, events, phase)
  }

  lemma ProducedMeansSelected(f: EvidenceFile, artifacts: seq<Artifact>, phase: Phase)
    requires EvidenceIn(f, artifacts, phase) && f.produced != []
    ensures artifacts != []
  {
    assert SelectedIds(artifacts, 0) == [];
    assert f.produced[0] in SelectedIds(artifacts, |artifacts|);
  }

  lemma HappenedOrNow(events: seq<Event>, e: Event, v: Verb)
    ensures Happened(events + [e], v) <==> Happened(events, v) || e.command.verb == v
  {
    StillHappened(events, e);
    if Happened(events + [e], v) && e.command.verb != v {
      HappenedLast(events, e, v);
    }
  }

  lemma PreservationStands(w: World, f: EvidenceFile, events: seq<Event>, e: Event, phase: Phase)
    requires DistinctArtifacts(w.evidence) && StandsIn(w, f, events, phase) && e.command.verb == IssuePreservation
    ensures StandsIn(w, PassOf(w, f, e.command).file, events + [e], InPreservation)
  {
    HappenedOrNow(events, e, ProduceDiscovery);
    PreservationRestarts(f, w.evidence, phase);
    PreservationProducesNothing(f, w.evidence, |w.evidence|);
    if f.produced != [] {
      PreservationReopens(events, e);
    }
  }

  lemma CollectionStands(w: World, f: EvidenceFile, events: seq<Event>, e: Event, phase: Phase)
    requires DistinctArtifacts(w.evidence) && StandsIn(w, f, events, phase) && e.command.verb == CollectEvidence
    requires PassOf(w, f, e.command).Done?
    ensures StandsIn(w, PassOf(w, f, e.command).file, events + [e], InCollection)
  {
    HappenedOrNow(events, e, ProduceDiscovery);
    CollectionIsAtomic(f, w.evidence, phase);
    CollectionProducesNothing(f, w.evidence, |w.evidence|);
    if f.produced != [] {
      ProducedMeansSelected(f, w.evidence, phase);
    }
    StaysReopened(events, e);
  }

  lemma ReviewStands(w: World, f: EvidenceFile, events: seq<Event>, e: Event, phase: Phase)
    requires DistinctArtifacts(w.evidence) && StandsIn(w, f, events, phase)
    requires e.command.verb == ReviewEvidence && e.command.actor == ResponsibleLawyer
    requires PassOf(w, f, e.command).Done?
    ensures StandsIn(w, PassOf(w, f, e.command).file, events + [e], InReview)
  {
    HappenedOrNow(events, e, ProduceDiscovery);
    ReviewIsAtomic(f, w.evidence, phase);
    ReviewProducesNothing(f, w.evidence, e.command.actor, |w.evidence|);
    if f.produced != [] {
      ProducedMeansSelected(f, w.evidence, phase);
    }
    StaysReopened(events, e);
  }

  lemma ProductionStands(w: World, f: EvidenceFile, events: seq<Event>, e: Event, phase: Phase)
    requires DistinctArtifacts(w.evidence) && StandsIn(w, f, events, phase)
    requires e.command.verb == ProduceDiscovery && e.command.actor == LitigationParalegal
    requires PassOf(w, f, e.command).Done?
    ensures StandsIn(w, PassOf(w, f, e.command).file, events + [e], InProduction)
  {
    HappenedOrNow(events, e, ProduceDiscovery);
    ProductionIsAtomic(f, w.evidence, phase);
    ProductionEnds(events, e);
  }

  lemma OthersStand(w: World, f: EvidenceFile, events: seq<Event>, e: Event, phase: Phase)
    requires StandsIn(w, f, events, phase) && !IsEvidenceVerb(e.command.verb)
    ensures StandsIn(w, PassOf(w, f, e.command).file, events + [e], phase)
  {
    OtherVerbsMakeNoPass(w, f, e.command);
    HappenedOrNow(events, e, ProduceDiscovery);
    StaysReopened(events, e);
  }

  lemma AcceptedStands(w: World, s: State, c: Command, e: Event)
    requires DistinctArtifacts(w.evidence) && Stands(w, s.projection.evidence, s.events) && e.command == c
    requires Screen(w, s, c).None? && PassOf(w, s.projection.evidence, c).Done?
    ensures Stands(w, PassOf(w, s.projection.evidence, c).file, s.events + [e])
  {
    var f := s.projection.evidence;
    var phase :| StandsIn(w, f, s.events, phase);
    EvidenceActors(w, s, c);
    if c.verb == IssuePreservation {
      PreservationStands(w, f, s.events, e, phase);
    } else if c.verb == CollectEvidence {
      CollectionStands(w, f, s.events, e, phase);
    } else if c.verb == ReviewEvidence {
      ReviewStands(w, f, s.events, e, phase);
    } else if c.verb == ProduceDiscovery {
      ProductionStands(w, f, s.events, e, phase);
    } else {
      OthersStand(w, f, s.events, e, phase);
    }
  }

  lemma AcceptedPass(w: World, s: State, c: Command)
    requires OutcomeOf(w, s, c).Accepted?
    ensures Screen(w, s, c).None? && PassOf(w, s.projection.evidence, c).Done?
  {
    AcceptedStep(w, s, c);
    if IsEvidenceVerb(c.verb) {
      EvidenceTransition(w, s, c);
    } else {
      OtherVerbsMakeNoPass(w, s.projection.evidence, c);
    }
  }

  lemma RejectedKeepsEvidence(w: World, s: State, c: Command)
    requires DistinctArtifacts(w.evidence) && EvidenceFits(w, s) && !OutcomeOf(w, s, c).Accepted?
    ensures Next(w, s, c).projection.evidence == s.projection.evidence && Next(w, s, c).events == s.events
  {
    OtherStep(w, s, c);
    EvidenceStep(w, s, c);
    if Screen(w, s, c).None? {
      var phase :| EvidenceIn(s.projection.evidence, w.evidence, phase);
      var next := PassIsAtomic(w, s, c, phase);
      EvidenceRefusals(w, s, c);
    }
  }

  lemma StepStands(w: World, s: State, c: Command)
    requires DistinctArtifacts(w.evidence) && EvidenceFits(w, s) && Stands(w, s.projection.evidence, s.events)
    ensures Stands(w, Next(w, s, c).projection.evidence, Next(w, s, c).events)
  {
    if OutcomeOf(w, s, c).Accepted? {
      AcceptedPass(w, s, c);
      AcceptedStep(w, s, c);
      EvidenceMoved(w, s.projection, s.finance, c);
      AcceptedStands(w, s, c, Event(|s.events| + 1, s.clock + 1, c));
    } else {
      RejectedKeepsEvidence(w, s, c);
    }
  }

  lemma NothingStands(w: World, s: State)
    requires s == InitialState()
    ensures Stands(w, s.projection.evidence, s.events)
  {
    assert InventoryIn(NO_EVIDENCE, w.evidence, Untouched);
    assert StandsIn(w, s.projection.evidence, s.events, Untouched);
  }

  lemma RunStands(w: World, commands: seq<Command>, n: nat)
    requires n <= |commands| && DistinctArtifacts(w.evidence)
    ensures Stands(w, After(w, commands, n).projection.evidence, After(w, commands, n).events)
  {
    InitialKept(w);
    NothingStands(w, InitialState());
    forall s: State, c | Kept(w, s) && Stands(w, s.projection.evidence, s.events)
      ensures Kept(w, Next(w, s, c)) && Stands(w, Next(w, s, c).projection.evidence, Next(w, s, c).events)
    {
      StepKeeps(w, s, c);
      StepStands(w, s, c);
    }
    RunInduction(
      w, commands, 0, n, (i, s: State) => Kept(w, s) && Stands(w, s.projection.evidence, s.events));
  }

  /** The custody audit fails in a reachable state iff a preservation was accepted after the last production. */
  lemma CustodyAuditFollowsEvents(w: World, commands: seq<Command>, n: nat)
    requires n <= |commands| && AllWellMade(w.evidence)
    ensures
      var s := After(w, commands, n);
      Berean.CustodyAuditPasses(s.projection.evidence, w.evidence) <==> !Reopened(s.events)
  {
    var s := After(w, commands, n);
    RunStands(w, commands, n);
    var phase :| StandsIn(w, s.projection.evidence, s.events, phase);
    Berean.AuditPassesInPhase(s.projection.evidence, w.evidence, phase);
    if Reopened(s.events) {
      var j :| 0 <= j < |s.events| && ReopenedAt(s.events, j);
    }
  }

  // ---------- repeating a command of the script ----------

  lemma RightsRemain(s: State, j: nat, k: nat)
    requires j <= k
    requires Authorized(s.authority, k) && StaffInformed(s.knowledge, k) && LawyerInformed(s.knowledge, k)
    ensures Authorized(s.authority, j) && StaffInformed(s.knowledge, j) && LawyerInformed(s.knowledge, j)
  {
  }

  lemma PreservationPasses(w: World, s: State, c: Command, k: nat)
    requires k == 4 && c == ScriptCommand(w, k)
    ensures Refusal(w, s.projection, s.finance, c) == None
  {
    PassAt(w, s.projection.evidence, k);
    UncheckedVerbs(w, s.projection, s.finance, c);
  }

  lemma AuditPasses(w: World, s: State, c: Command, k: nat)
    requires k == 13 && c == ScriptCommand(w, k) && s.finance == LedgerAfter(15)
    ensures Refusal(w, s.projection, s.finance, c) == None
    ensures OperationOf(c) == Some(Finance.Audit(20.0))
  {
    NoPass(w, s.projection.evidence, k);
    UncheckedVerbs(w, s.projection, s.finance, c);
  }

  lemma ScriptProduces(w: World, commands: seq<Command>, n: nat)
    requires n == 8 && Follows(w, commands, n) && InventorySuffices(w)
    ensures Happened(After(w, commands, n).events, ProduceDiscovery)
  {
    var s := After(w, commands, n - 1);
    AllowsAt(w, n);
    ScriptRuns(w, commands, n - 1);
    ScriptStep(w, s, n - 1);
    EventAdded(w, s, ScriptCommand(w, n - 1));
    AfterOneMore(w, commands, n - 1);
  }

  lemma PreservationIsAccepted(w: World, s: State, k: nat)
    requires k == 4 && OnScript(w, s, 8)
    ensures OutcomeOf(w, s, ScriptCommand(w, k)).Accepted?
  {
    RightsRemain(s, k, 8);
    EarlyPermit(w, s, k);
    PreservationPasses(w, s, ScriptCommand(w, k), k);
  }

  /**
    Production, and then preservation once more: it is accepted, and turns a passing custody audit into a failing
    one.
   */
  lemma PreservationFailsAudit(w: World, commands: seq<Command>, n: nat, k: nat)
    requires n == 8 && k == 4 && InventorySuffices(w) && AllWellMade(w.evidence)
    requires n < |commands| && Follows(w, commands, n) && commands[n] == ScriptCommand(w, k)
    ensures OutcomeOf(w, After(w, commands, n), commands[n]).Accepted?
    ensures Berean.CustodyAuditPasses(After(w, commands, n).projection.evidence, w.evidence)
    ensures !Berean.CustodyAuditPasses(After(w, commands, n + 1).projection.evidence, w.evidence)
  {
    var s, c := After(w, commands, n), commands[n];
    AllowsAt(w, n);
    ScriptRuns(w, commands, n);
    ScriptProduces(w, commands, n);
    PreservationIsAccepted(w, s, k);
    Berean.AuditPassesInPhase(s.projection.evidence, w.evidence, InProduction);
    AcceptedStep(w, s, c);
    AfterOneMore(w, commands, n);
    PreservationReopens(s.events, Event(|s.events| + 1, s.clock + 1, c));
    CustodyAuditFollowsEvents(w, commands, n + 1);
  }

  // ---------- an audit of invoices after a payment ----------

  lemma StepStaysOverdrawn(w: World, s: State, c: Command)
    requires Finance.Overdrawn(s.finance)
    ensures Finance.Overdrawn(Next(w, s, c).finance)
    ensures c.verb == CloseMatter ==> !OutcomeOf(w, s, c).Accepted?
  {
    Finance.OverdrawnForGood(s.finance, Finance.Operation.Submit);
    if OutcomeOf(w, s, c).Accepted? {
      AcceptedStep(w, s, c);
      if OperationOf(c).Some? {
        Finance.OverdrawnForGood(s.finance, OperationOf(c).value);
      }
    } else {
      OtherStep(w, s, c);
    }
  }

  lemma OverdrawnStays(w: World, commands: seq<Command>, n: nat, m: nat)
    requires n <= m <= |commands| && Finance.Overdrawn(After(w, commands, n).finance)
    ensures Finance.Overdrawn(After(w, commands, m).finance)
  {
    forall s: State, c | Finance.Overdrawn(s.finance)
      ensures Finance.Overdrawn(Next(w, s, c).finance)
    {
      StepStaysOverdrawn(w, s, c);
    }
    RunInduction(w, commands, n, m, (i, s: State) => Finance.Overdrawn(s.finance));
  }

  /** Once the ledger is overdrawn, no later close is accepted, whatever comes in between. */
  lemma OverdrawnNeverCloses(w: World, commands: seq<Command>, n: nat, m: nat)
    requires n <= m < |commands| && Finance.Overdrawn(After(w, commands, n).finance)
    requires commands[m].verb == CloseMatter
    ensures !OutcomeOf(w, After(w, commands, m), commands[m]).Accepted?
  {
    OverdrawnStays(w, commands, n, m);
    StepStaysOverdrawn(w, After(w, commands, m), commands[m]);
  }

  /** In a reachable state the ledger is overdrawn iff an audit was accepted after a payment of something. */
  lemma OverdrawnExactlyWhen(w: World, commands: seq<Command>, n: nat)
    requires n <= |commands|
    ensures
      var s := After(w, commands, n);
      var ops := OperationsOf(s.events, |s.events|);
      Finance.Overdrawn(s.finance) <==> 0.0 < Finance.PaidBeforeAudit(ops, |ops|)
  {
    var s := After(w, commands, n);
    var ops := OperationsOf(s.events, |s.events|);
    RunsKeep(w, commands, n);
    Finance.OverdrawnExactlyWhen(ops, |ops|);
  }

  lemma ScriptIsClosedBy(w: World)
    requires InventorySuffices(w)
    ensures ClosedBy(w, Script(w))
  {
    ScriptCloses(w, Script(w));
  }

  lemma RestOfScript(w: World, commands: seq<Command>, n: nat) returns (rest: seq<Command>)
    requires Follows(w, commands, n)
    ensures commands[..n] + rest == Script(w)
  {
    rest := Script(w)[n..];
  }

  ghost predicate CanStillClose(w: World, commands: seq<Command>) {
    exists rest :: ClosedBy(w, commands + rest)
  }

  lemma CouldClose(w: World, commands: seq<Command>, n: nat)
    requires InventorySuffices(w) && Follows(w, commands, n)
    ensures CanStillClose(w, commands[..n])
  {
    var rest := RestOfScript(w, commands, n);
    ScriptIsClosedBy(w);
  }

  lemma AuditIsAccepted(w: World, s: State, k: nat)
    requires k == 13 && OnScript(w, s, 15)
    ensures OutcomeOf(w, s, ScriptCommand(w, k)).Accepted? && Finance.Overdrawn(Next(w, s, ScriptCommand(w, k)).finance)
  {
    var c := ScriptCommand(w, k);
    RightsRemain(s, k, 15);
    LatePermit(w, s, k);
    AuditPasses(w, s, c, k);
    AcceptedStep(w, s, c);
  }

  /**
    A paid invoice audited once more: the audit is accepted, and from then on the matter cannot be closed, though
    other commands in its place would have closed it.
   */
  lemma SecondAuditRulesOutClose(w: World, commands: seq<Command>, n: nat, k: nat, m: nat)
    requires n == 15 && k == 13 && InventorySuffices(w)
    requires n < m < |commands| && Follows(w, commands, n) && commands[n] == ScriptCommand(w, k)
    requires commands[m].verb == CloseMatter
    ensures CanStillClose(w, commands[..n])
    ensures OutcomeOf(w, After(w, commands, n), commands[n]).Accepted?
    ensures !OutcomeOf(w, After(w, commands, m), commands[m]).Accepted?
  {
    CouldClose(w, commands, n);
    AllowsAt(w, n);
    ScriptRuns(w, commands, n);
    AuditIsAccepted(w, After(w, commands, n), k);
    AfterOneMore(w, commands, n);
    OverdrawnNeverCloses(w, commands, n + 1, m);
  }
}
