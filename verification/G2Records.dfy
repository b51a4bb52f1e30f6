/** What the records of a matter say in any reachable state of the G2 world, over the fields of its events (g2.py). */
module G2Records {
  import opened Wrappers
  import opened G2World
  import opened G2Evidence
  import opened G2Kernel
  import opened G2Runs
  import opened G2Closure
  import opened G2Repeats
  import Berean
  import Finance = G2Finance

  // ---------- deadlines ----------

  /** An accepted calculation proposes the three deadlines of its day. */
  lemma CalculationProposes(w: World, s: State, c: Command)
    requires c.verb == CalculateDeadlines && OutcomeOf(w, s, c).Accepted?
    ensures
      var d := Next(w, s, c).projection.deadlineProposal;
      && d.Keys == {"response_due", "initial_disclosures_due", "discovery_cutoff"}
      && d["response_due"] == c.payload.complaintFiledDay + w.rules.responseDays
      && d["initial_disclosures_due"] == c.payload.complaintFiledDay + w.rules.disclosureDays
      && d["discovery_cutoff"] == c.payload.complaintFiledDay + w.rules.discoveryCutoffDays
    ensures Next(w, s, c).projection.deadlines == s.projection.deadlines
  {
    AcceptedStep(w, s, c);
    DeadlinesMoved(w, s.projection, s.finance, c);
    PrimaryCounts(w.rules, c.payload.complaintFiledDay);
  }

  /** An accepted verification records them, counted from its own day. */
  lemma VerificationRecords(w: World, s: State, c: Command)
    requires c.verb == VerifyDeadlines && OutcomeOf(w, s, c).Accepted?
    ensures
      var d := Next(w, s, c).projection.deadlines;
      && d.Keys == {"response_due", "initial_disclosures_due", "discovery_cutoff"}
      && d["response_due"] == c.payload.complaintFiledDay + w.rules.responseDays
      && d["initial_disclosures_due"] == c.payload.complaintFiledDay + w.rules.disclosureDays
      && d["discovery_cutoff"] == c.payload.complaintFiledDay + w.rules.discoveryCutoffDays
    ensures Next(w, s, c).projection.deadlineProposal ==
      s.projection.deadlineProposal == Next(w, s, c).projection.deadlines
  {
    AcceptedStep(w, s, c);
    DeadlinesMoved(w, s.projection, s.finance, c);
    PrimaryCounts(w.rules, c.payload.complaintFiledDay);
  }

  /** No other command touches them. */
  lemma OthersKeepDeadlines(w: World, s: State, c: Command)
    requires !(c.verb in {CalculateDeadlines, VerifyDeadlines} && OutcomeOf(w, s, c).Accepted?)
    ensures Next(w, s, c).projection.deadlines == s.projection.deadlines
    ensures Next(w, s, c).projection.deadlineProposal == s.projection.deadlineProposal
  {
    if OutcomeOf(w, s, c).Accepted? {
      AcceptedStep(w, s, c);
      DeadlinesMoved(w, s.projection, s.finance, c);
    } else {
      OtherStep(w, s, c);
    }
  }

  /** Event `j` is the last verification of the run. */
  ghost predicate LastVerification(events: seq<Event>, j: nat) {
    && j < |events| && events[j].command.verb == VerifyDeadlines
    && forall k :: j < k < |events| ==> events[k].command.verb != VerifyDeadlines
  }

  /** Event `i` is the last calculation of the run. */
  ghost predicate LastCalculation(events: seq<Event>, i: nat) {
    && i < |events| && events[i].command.verb == CalculateDeadlines
    && forall k :: i < k < |events| ==> events[k].command.verb != CalculateDeadlines
  }

  /** The deadlines on record are those of the last verification. */
  ghost predicate VerifiedIn(w: World, events: seq<Event>, deadlines: Deadlines) {
    && (Happened(events, VerifyDeadlines) <==> deadlines != map[])
    && forall j: nat :: LastVerification(events, j) ==>
         CountedFrom(w.rules, events[j].command.payload.complaintFiledDay, deadlines)
  }

  /** The proposed deadlines are those of the last calculation. */
  ghost predicate CalculatedIn(w: World, events: seq<Event>, proposal: Deadlines) {
    && (Happened(events, CalculateDeadlines) <==> proposal != map[])
    && forall i: nat :: LastCalculation(events, i) ==>
         CountedFrom(w.rules, events[i].command.payload.complaintFiledDay, proposal)
  }

  ghost predicate DeadlinesOnRecord(w: World, s: State) {
    VerifiedIn(w, s.events, s.projection.deadlines) && CalculatedIn(w, s.events, s.projection.deadlineProposal)
  }

  lemma LastOneMore(events: seq<Event>, e: Event, j: nat)
    ensures LastVerification(events + [e], j) <==>
      if e.command.verb == VerifyDeadlines then j == |events| else LastVerification(events, j)
    ensures LastCalculation(events + [e], j) <==>
      if e.command.verb == CalculateDeadlines then j == |events| else LastCalculation(events, j)
  {
    var more := events + [e];
    assert more[|events|] == e && forall k :: 0 <= k < |events| ==> more[k] == events[k];
  }

  lemma VerifiedNext(w: World, events: seq<Event>, e: Event, before: Deadlines, after: Deadlines)
    requires VerifiedIn(w, events, before)
    requires
      if e.command.verb == VerifyDeadlines then CountedFrom(w.rules, e.command.payload.complaintFiledDay, after)
      else after == before
    ensures VerifiedIn(w, events + [e], after)
  {
    var more := events + [e];
    HappenedOrNow(events, e, VerifyDeadlines);
    forall j: nat | LastVerification(more, j)
      ensures CountedFrom(w.rules, more[j].command.payload.complaintFiledDay, after)
    {
      LastOneMore(events, e, j);
      assert more[|events|] == e;
    }
    assert e.command.verb == VerifyDeadlines ==> "response_due" in after;
  }

  lemma CalculatedNext(w: World, events: seq<Event>, e: Event, before: Deadlines, after: Deadlines)
    requires CalculatedIn(w, events, before)
    requires
      if e.command.verb == CalculateDeadlines then CountedFrom(w.rules, e.command.payload.complaintFiledDay, after)
      else after == before
    ensures CalculatedIn(w, events + [e], after)
  {
    var more := events + [e];
    HappenedOrNow(events, e, CalculateDeadlines);
    forall i: nat | LastCalculation(more, i)
      ensures CountedFrom(w.rules, more[i].command.payload.complaintFiledDay, after)
    {
      LastOneMore(events, e, i);
      assert more[|events|] == e;
    }
    assert e.command.verb == CalculateDeadlines ==> "response_due" in after;
  }

  /** How an accepted command changes the deadlines, in one sentence. */
  lemma AcceptedDeadlines(w: World, s: State, c: Command, p: Projection)
    requires OutcomeOf(w, s, c).Accepted? && p == Next(w, s, c).projection
    ensures
      if c.verb == VerifyDeadlines then CountedFrom(w.rules, c.payload.complaintFiledDay, p.deadlines)
      else p.deadlines == s.projection.deadlines
    ensures
      if c.verb == CalculateDeadlines then CountedFrom(w.rules, c.payload.complaintFiledDay, p.deadlineProposal)
      else p.deadlineProposal == s.projection.deadlineProposal
  {
    AcceptedStep(w, s, c);
    DeadlinesMoved(w, s.projection, s.finance, c);
    PrimaryCounts(w.rules, c.payload.complaintFiledDay);
  }

  lemma StepRecordsDeadlines(w: World, s: State, c: Command)
    requires DeadlinesOnRecord(w, s)
    ensures DeadlinesOnRecord(w, Next(w, s, c))
  {
    if OutcomeOf(w, s, c).Accepted? {
      var t, e := Next(w, s, c), Event(|s.events| + 1, s.clock + 1, c);
      AcceptedStep(w, s, c);
      AcceptedDeadlines(w, s, c, t.projection);
      VerifiedNext(w, s.events, e, s.projection.deadlines, t.projection.deadlines);
      CalculatedNext(w, s.events, e, s.projection.deadlineProposal, t.projection.deadlineProposal);
    } else {
      OtherStep(w, s, c);
    }
  }

  lemma NoDeadlinesYet(w: World)
    ensures DeadlinesOnRecord(w, InitialState())
  {
  }

  lemma RunRecordsDeadlines(w: World, commands: seq<Command>, n: nat)
    requires n <= |commands|
    ensures DeadlinesOnRecord(w, After(w, commands, n))
  {
    NoDeadlinesYet(w);
    forall s, c | DeadlinesOnRecord(w, s)
      ensures DeadlinesOnRecord(w, Next(w, s, c))
    {
      StepRecordsDeadlines(w, s, c);
    }
    RunInduction(w, commands, 0, n, (i, s) => DeadlinesOnRecord(w, s));
  }

  /**
    In every reachable state with recorded deadlines there was a last verification, and they are its filing day and
    the days of the rule pack, each its own.
   */
  lemma RecordedDeadlines(w: World, commands: seq<Command>, n: nat, j: nat)
    requires n <= |commands| && LastVerification(After(w, commands, n).events, j)
    ensures
      var s := After(w, commands, n);
      var d, c := s.projection.deadlines, s.events[j].command;
      && d.Keys == {"response_due", "initial_disclosures_due", "discovery_cutoff"}
      && d["response_due"] == c.payload.complaintFiledDay + w.rules.responseDays
      && d["initial_disclosures_due"] == c.payload.complaintFiledDay + w.rules.disclosureDays
      && d["discovery_cutoff"] == c.payload.complaintFiledDay + w.rules.discoveryCutoffDays
  {
    RunRecordsDeadlines(w, commands, n);
  }

  /**
    A verification that passes the gate is accepted iff it counts from the day of the last calculation; there must
    have been one.
   */
  lemma VerificationAcceptedWhen(w: World, commands: seq<Command>, n: nat, c: Command)
    requires n <= |commands| && c.verb == VerifyDeadlines && Screen(w, After(w, commands, n), c).None?
    ensures
      var s := After(w, commands, n);
      OutcomeOf(w, s, c).Accepted? <==>
        exists i: nat :: LastCalculation(s.events, i)
          && s.events[i].command.payload.complaintFiledDay == c.payload.complaintFiledDay
  {
    var s := After(w, commands, n);
    RunRecordsDeadlines(w, commands, n);
    DeadlinesAreDualControlled(w, commands, n, c);
    PrimaryCounts(w.rules, c.payload.complaintFiledDay);
    CalculationsAgree(w.rules, 0, c.payload.complaintFiledDay);
    if Happened(s.events, CalculateDeadlines) {
      var i := FindLastCalculation(s.events, |s.events|);
      CountsAgree(w.rules, s.events[i].command.payload.complaintFiledDay, s.projection.deadlineProposal,
                  c.payload.complaintFiledDay);
    }
    VerificationRefusals(w, s, c);
  }

  lemma VerificationRefusals(w: World, s: State, c: Command)
    requires c.verb == VerifyDeadlines && Screen(w, s, c).None? && OutcomeOf(w, s, c) != Refused(SameDeadlineActor)
    ensures OutcomeOf(w, s, c).Accepted? <==>
      s.projection.deadlineProposal != map[]
      && DeadlinesPrimary(w.rules, c.payload.complaintFiledDay) == s.projection.deadlineProposal
  {
  }

  lemma CountsAgree(rules: RulePack, day: int, deadlines: Deadlines, other: int)
    requires CountedFrom(rules, day, deadlines)
    ensures DeadlinesPrimary(rules, other) == deadlines <==> day == other
  {
    var again := DeadlinesPrimary(rules, other);
    PrimaryCounts(rules, other);
    if day == other {
      assert again.Keys == deadlines.Keys;
    }
  }

  lemma {:induction false} FindLastCalculation(events: seq<Event>, n: nat) returns (i: nat)
    requires n <= |events| && HappenedBefore(events, CalculateDeadlines, n)
    requires forall k :: n <= k < |events| ==> events[k].command.verb != CalculateDeadlines
    ensures LastCalculation(events, i)
  {
    if events[n - 1].command.verb == CalculateDeadlines {
      i := n - 1;
    } else {
      i := FindLastCalculation(events, n - 1);
    }
  }

  // ---------- clock, numbers and denials ----------

  /** Events are numbered from one, at rising times up to the clock; every command moved the clock or was denied. */
  ghost predicate WellNumbered(s: State, n: nat) {
    && (forall i :: 0 <= i < |s.events| ==> s.events[i].number == i + 1 && s.events[i].simulatedAt <= s.clock)
    && (forall i, j :: 0 <= i < j < |s.events| ==> s.events[i].simulatedAt < s.events[j].simulatedAt)
    && s.clock + |s.denials| == n
  }

  lemma CountsOneMore(w: World, s: State, c: Command, t: State)
    requires t == Next(w, s, c)
    ensures
      match OutcomeOf(w, s, c)
      case Accepted(event) =>
        t.events == s.events + [event] && t.clock == s.clock + 1 && t.denials == s.denials
        && event == Event(|s.events| + 1, s.clock + 1, c)
      case Refused(_) => t.events == s.events && t.clock == s.clock + 1 && t.denials == s.denials
      case Denied(reason) =>
        t.events == s.events && t.clock == s.clock && t.denials == s.denials + [Denial(c, reason)]
  {
  }

  lemma StepNumbers(w: World, s: State, c: Command, n: nat)
    requires WellNumbered(s, n)
    ensures WellNumbered(Next(w, s, c), n + 1)
  {
    CountsOneMore(w, s, c, Next(w, s, c));
  }

  lemma NothingNumbered()
    ensures WellNumbered(InitialState(), 0)
  {
  }

  lemma EventsAreNumbered(w: World, commands: seq<Command>, n: nat)
    requires n <= |commands|
    ensures WellNumbered(After(w, commands, n), n)
  {
    NothingNumbered();
    forall i: nat, s, c | WellNumbered(s, i)
      ensures WellNumbered(Next(w, s, c), i + 1)
    {
      StepNumbers(w, s, c, i);
    }
    RunInduction(w, commands, 0, n, (i: nat, s) => WellNumbered(s, i));
  }

  /** The sealed oracle is never read: such a command is denied, whoever sends it in whatever state. */
  lemma OracleIsNeverRead(w: World, s: State, c: Command)
    requires c.verb == ReadOracle
    ensures OutcomeOf(w, s, c).Denied?
    ensures Next(w, s, c).projection ==
      s.projection.(oracleAttempts := s.projection.oracleAttempts +
        if c.matterId == w.matterId && c.actor == ResponsibleLawyer && c.role == Lawyer then 1 else 0)
  {
  }

  // ---------- the outcome of the matter ----------

  /** What a resolution records for its route. */
  ghost predicate ResolvedBy(w: World, p: Projection) {
    && (w.posture == DefenseFavorable ==> p.outcome == "defense_favorable")
    && (w.posture == ClaimantFavorable ==> p.outcome == "claimant_favorable")
    && (w.posture == Balanced ==> p.outcome == "mixed_compromise")
    && match w.route
       case EarlySettlement =>
         p.milestones == ["demand_evaluated", "authority_obtained", "synthetic_release_executed"]
       case MediationImpasse => p.milestones == ["mediation_statement", "session_completed", "impasse_recorded"]
       case Dispositive => p.milestones == ["motion_filed", "opposition_modeled", "order_entered"]
       case TrialAppeal =>
         p.milestones == ["pretrial_completed", "trial_modeled", "judgment_entered", "appeal_modeled"]
  }

  /** The verb that resolves a matter on its route. */
  ghost function OwnResolution(r: Route): Verb {
    if r == EarlySettlement then SettleCase
    else if r == MediationImpasse then MediateToImpasse
    else if r == Dispositive then ResolveDispositive
    else TryAndAppeal
  }

  /** The outcome is that of the posture iff the route's own resolution was accepted, and no other one ever was. */
  ghost predicate OutcomeOnRecord(w: World, events: seq<Event>, p: Projection) {
    && (if Happened(events, OwnResolution(w.route)) then ResolvedBy(w, p) else p.outcome == "" && p.milestones == [])
    && forall v :: IsResolution(v) && Happened(events, v) ==> v == OwnResolution(w.route)
  }

  lemma OnlyOwnResolution(w: World, p: Projection, b: Finance.Balances, c: Command)
    requires Refusal(w, p, b, c).None? && IsResolution(c.verb)
    ensures c.verb == OwnResolution(w.route)
  {
  }

  lemma OwnResolutionResolves(w: World, p: Projection)
    requires p.milestones == MilestonesOf(OwnResolution(w.route)) && p.outcome == OutcomeFor(w.posture)
    ensures ResolvedBy(w, p)
  {
  }

  lemma ResolutionRecords(w: World, p: Projection, b: Finance.Balances, c: Command)
    ensures
      var q := NextProjection(w, p, b, c);
      if IsResolution(c.verb) then q.milestones == MilestonesOf(c.verb) && q.outcome == OutcomeFor(w.posture)
      else q.outcome == p.outcome && q.milestones == p.milestones
  {
  }

  lemma ResolutionMoves(w: World, p: Projection, b: Finance.Balances, c: Command, q: Projection)
    requires Refusal(w, p, b, c).None? && q == NextProjection(w, p, b, c)
    ensures
      if IsResolution(c.verb) then c.verb == OwnResolution(w.route) && ResolvedBy(w, q)
      else q.outcome == p.outcome && q.milestones == p.milestones
  {
    ResolutionRecords(w, p, b, c);
    if IsResolution(c.verb) {
      OnlyOwnResolution(w, p, b, c);
      OwnResolutionResolves(w, q);
    }
  }

  lemma OutcomeRecordedNext(w: World, events: seq<Event>, e: Event, p: Projection, q: Projection)
    requires OutcomeOnRecord(w, events, p)
    requires
      if IsResolution(e.command.verb) then e.command.verb == OwnResolution(w.route) && ResolvedBy(w, q)
      else q.outcome == p.outcome && q.milestones == p.milestones
    ensures OutcomeOnRecord(w, events + [e], q)
  {
    forall v
      ensures Happened(events + [e], v) <==> Happened(events, v) || e.command.verb == v
    {
      HappenedOrNow(events, e, v);
    }
  }

  lemma StepRecordsOutcome(w: World, s: State, c: Command)
    requires OutcomeOnRecord(w, s.events, s.projection)
    ensures OutcomeOnRecord(w, Next(w, s, c).events, Next(w, s, c).projection)
  {
    if OutcomeOf(w, s, c).Accepted? {
      AcceptedStep(w, s, c);
      ResolutionMoves(w, s.projection, s.finance, c, Next(w, s, c).projection);
      OutcomeRecordedNext(
        w, s.events, Event(|s.events| + 1, s.clock + 1, c), s.projection, Next(w, s, c).projection);
    } else {
      OtherStep(w, s, c);
    }
  }

  /** In every reachable state the recorded outcome and milestones are those of posture and route, once resolved. */
  lemma OutcomeIsThatOfThePosture(w: World, commands: seq<Command>, n: nat)
    requires n <= |commands|
    ensures OutcomeOnRecord(w, After(w, commands, n).events, After(w, commands, n).projection)
  {
    forall s: State, c | OutcomeOnRecord(w, s.events, s.projection)
      ensures OutcomeOnRecord(w, Next(w, s, c).events, Next(w, s, c).projection)
    {
      StepRecordsOutcome(w, s, c);
    }
    RunInduction(w, commands, 0, n, (i, s: State) => OutcomeOnRecord(w, s.events, s.projection));
  }

  /** The status of the matter after an accepted command. */
  lemma StatusFollowsVerb(w: World, s: State, c: Command)
    requires OutcomeOf(w, s, c).Accepted?
    ensures Next(w, s, c).projection.status ==
      if c.verb == ReceiveReferral then "referral_received"
      else if c.verb == OpenMatter then "matter_opened"
      else if c.verb == SettleCase then "resolved_early_settlement"
      else if c.verb == MediateToImpasse then "resolved_mediation_impasse"
      else if c.verb == ResolveDispositive then "resolved_dispositive"
      else if c.verb == TryAndAppeal then "resolved_trial_appeal"
      else if c.verb == CloseMatter then "closed"
      else s.projection.status
  {
    AcceptedStep(w, s, c);
    if IsResolution(c.verb) {
      ResolutionStatus(w, s.projection, s.finance, c);
    } else {
      OtherStatus(w, s.projection, s.finance, c);
    }
  }

  lemma ResolutionStatus(w: World, p: Projection, b: Finance.Balances, c: Command)
    requires Refusal(w, p, b, c).None? && IsResolution(c.verb)
    ensures NextProjection(w, p, b, c).status ==
      if c.verb == SettleCase then "resolved_early_settlement"
      else if c.verb == MediateToImpasse then "resolved_mediation_impasse"
      else if c.verb == ResolveDispositive then "resolved_dispositive"
      else "resolved_trial_appeal"
  {
    OnlyOwnResolution(w, p, b, c);
  }

  lemma OtherStatus(w: World, p: Projection, b: Finance.Balances, c: Command)
    requires !IsResolution(c.verb)
    ensures NextProjection(w, p, b, c).status ==
      if c.verb == ReceiveReferral then "referral_received"
      else if c.verb == OpenMatter then "matter_opened"
      else if c.verb == CloseMatter then "closed"
      else p.status
  {
  }

  // ---------- what else is on record ----------

  /** The entries of the time sheet that the recording commands among the first `n` events ask for. */
  ghost function TimeSheet(events: seq<Event>, n: nat): seq<TimeEntry>
    requires n <= |events|
  {
    if n == 0 then []
    else
      var c := events[n - 1].command;
      if c.verb == RecordTime then
        TimeSheet(events, n - 1) + [TimeEntry(c.actor, c.payload.taskCode, c.payload.narrative, c.payload.amount)]
      else TimeSheet(events, n - 1)
  }

  ghost function TotalTime(entries: seq<TimeEntry>): real {
    if entries == [] then 0.0 else TotalTime(entries[..|entries| - 1]) + entries[|entries| - 1].amount
  }

  lemma {:induction false} TimeSheetOfPrefix(events: seq<Event>, e: Event, n: nat)
    requires n <= |events|
    ensures TimeSheet(events + [e], n) == TimeSheet(events, n)
  {
    if n != 0 {
      TimeSheetOfPrefix(events, e, n - 1);
    }
  }

  /** The time sheet lists the recorded work in order, and its total is the work in the ledger. */
  ghost predicate TimeOnRecord(s: State) {
    && s.projection.timeEntries == TimeSheet(s.events, |s.events|)
    && TotalTime(s.projection.timeEntries) == s.finance.work
  }

  lemma TimeMoves(w: World, p: Projection, b: Finance.Balances, c: Command)
    ensures
      var entry := TimeEntry(c.actor, c.payload.taskCode, c.payload.narrative, c.payload.amount);
      NextProjection(w, p, b, c).timeEntries == p.timeEntries + if c.verb == RecordTime then [entry] else []
  {
  }

  lemma WorkMoves(w: World, p: Projection, b: Finance.Balances, c: Command)
    requires Refusal(w, p, b, c).None?
    ensures
      var after := if OperationOf(c).Some? then Finance.Posted(b, OperationOf(c).value) else b;
      after.work == b.work + if c.verb == RecordTime then c.payload.amount else 0.0
  {
  }

  lemma SheetGrows(events: seq<Event>, e: Event, entries: seq<TimeEntry>)
    requires entries == TimeSheet(events, |events|)
    ensures
      var c := e.command;
      TimeSheet(events + [e], |events| + 1) == entries
        + if c.verb == RecordTime then [TimeEntry(c.actor, c.payload.taskCode, c.payload.narrative, c.payload.amount)]
          else []
  {
    TimeSheetOfPrefix(events, e, |events|);
    assert (events + [e])[|events|] == e;
  }

  lemma AcceptedTimeEntries(w: World, s: State, c: Command, entries: seq<TimeEntry>)
    requires OutcomeOf(w, s, c).Accepted? && entries == Next(w, s, c).projection.timeEntries
    ensures entries == s.projection.timeEntries + if c.verb == RecordTime then
      [TimeEntry(c.actor, c.payload.taskCode, c.payload.narrative, c.payload.amount)] else []
  {
    AcceptedStep(w, s, c);
    TimeMoves(w, s.projection, s.finance, c);
  }

  lemma AcceptedWork(w: World, s: State, c: Command, work: real)
    requires OutcomeOf(w, s, c).Accepted? && work == Next(w, s, c).finance.work
    ensures work == s.finance.work + if c.verb == RecordTime then c.payload.amount else 0.0
  {
    AcceptedStep(w, s, c);
    WorkMoves(w, s.projection, s.finance, c);
  }

  lemma TotalGrows(entries: seq<TimeEntry>, entry: TimeEntry)
    ensures TotalTime(entries + [entry]) == TotalTime(entries) + entry.amount
  {
    assert (entries + [entry])[..|entries|] == entries;
  }

  lemma TimeRecordedNext(
      events: seq<Event>, e: Event, entries: seq<TimeEntry>, work: real, longer: seq<TimeEntry>, more: real)
    requires entries == TimeSheet(events, |events|) && TotalTime(entries) == work
    requires
      var c := e.command;
      var entry := TimeEntry(c.actor, c.payload.taskCode, c.payload.narrative, c.payload.amount);
      if c.verb == RecordTime then longer == entries + [entry] && more == work + entry.amount
      else longer == entries && more == work
    ensures longer == TimeSheet(events + [e], |events| + 1) && TotalTime(longer) == more
  {
    var c := e.command;
    SheetGrows(events, e, entries);
    TotalGrows(entries, TimeEntry(c.actor, c.payload.taskCode, c.payload.narrative, c.payload.amount));
  }

  lemma StepRecordsTime(w: World, s: State, c: Command, t: State)
    requires TimeOnRecord(s) && t == Next(w, s, c)
    ensures TimeOnRecord(t)
  {
    var accepted := OutcomeOf(w, s, c).Accepted?;
    CountsOneMore(w, s, c, t);
    if accepted {
      AcceptedTimeEntries(w, s, c, t.projection.timeEntries);
      AcceptedWork(w, s, c, t.finance.work);
      TimeRecordedNext(
        s.events, Event(|s.events| + 1, s.clock + 1, c), s.projection.timeEntries, s.finance.work,
        t.projection.timeEntries, t.finance.work);
    } else {
      OtherStep(w, s, c);
    }
  }

  lemma NoTimeYet()
    ensures TimeOnRecord(InitialState())
  {
  }

  /** In every reachable state the time sheet is that of the recording commands, and adds up to the ledger's work. */
  lemma TimeSheetMatchesLedger(w: World, commands: seq<Command>, n: nat)
    requires n <= |commands|
    ensures TimeOnRecord(After(w, commands, n))
  {
    NoTimeYet();
    forall s, c | TimeOnRecord(s)
      ensures TimeOnRecord(Next(w, s, c))
    {
      StepRecordsTime(w, s, c, Next(w, s, c));
    }
    RunInduction(w, commands, 0, n, (i, s) => TimeOnRecord(s));
  }

  /** A conflict was submitted, and no gate decision was recorded since. */
  ghost predicate ConsentPending(events: seq<Event>) {
    exists j: nat :: j < |events| && PendingSince(events, j)
  }

  ghost predicate PendingSince(events: seq<Event>, j: nat)
    requires j < |events|
  {
    && events[j].command.verb == SubmitConflictResult
    && forall k :: j < k < |events| ==> events[k].command.verb != RecordLawyerGate
  }

  lemma PendingOneMore(events: seq<Event>, e: Event)
    ensures ConsentPending(events + [e]) <==>
      if e.command.verb == SubmitConflictResult then true
      else if e.command.verb == RecordLawyerGate then false
      else ConsentPending(events)
  {
    var more := events + [e];
    assert more[|events|] == e && forall k :: 0 <= k < |events| ==> more[k] == events[k];
    if e.command.verb == SubmitConflictResult {
      assert PendingSince(more, |events|);
    } else if j: nat :| j < |events| && PendingSince(events, j) {
      assert e.command.verb != RecordLawyerGate ==> PendingSince(more, j);
    }
    if j: nat :| j < |more| && PendingSince(more, j) && j < |events| {
      assert PendingSince(events, j);
    }
  }

  /** Holds, deposition, closing conditions and the closed flag are what the events say. */
  ghost predicate FlagsOnRecord(w: World, events: seq<Event>, p: Projection) {
    && p.authorityHolds == (if ConsentPending(events) then {"affected_client_consent"} else {})
    && p.depositionTokens == (if Happened(events, TakeDeposition) then Some(w.witnessFrontier) else None)
    && (p.expertSources.Some? <==> Happened(events, RetainExpert))
    && (Happened(events, FinalizeCloseout) <==> ProceduralComplete in p.closeConditions)
    && (Happened(events, FinalizeCloseout) <==>
          {ProceduralComplete, FinalReportDelivered, RetentionScheduled, ConflictHistoryUpdated} <= p.closeConditions)
    && (p.closed <==> Happened(events, CloseMatter))
  }

  lemma HoldsMoved(w: World, p: Projection, b: Finance.Balances, c: Command)
    requires Refusal(w, p, b, c).None? && p.authorityHolds <= {"affected_client_consent"}
    ensures NextProjection(w, p, b, c).authorityHolds ==
      if c.verb == SubmitConflictResult then {"affected_client_consent"}
      else if c.verb == RecordLawyerGate then {}
      else p.authorityHolds
  {
  }

  lemma DepositionMoved(w: World, p: Projection, b: Finance.Balances, c: Command)
    ensures NextProjection(w, p, b, c).depositionTokens
         == if c.verb == TakeDeposition then Some(w.witnessFrontier) else p.depositionTokens
  {
  }

  lemma ExpertMoved(w: World, p: Projection, b: Finance.Balances, c: Command)
    ensures NextProjection(w, p, b, c).expertSources ==
      if c.verb == RetainExpert then Some(ExpertSources(p.evidence.produced, w.expertAuthorized, |p.evidence.produced|))
      else p.expertSources
  {
  }

  lemma ClosedMoved(w: World, p: Projection, b: Finance.Balances, c: Command)
    ensures NextProjection(w, p, b, c).closed <==> p.closed || c.verb == CloseMatter
  {
  }

  lemma CloseoutMoved(w: World, p: Projection, b: Finance.Balances, c: Command)
    ensures
      var q := NextProjection(w, p, b, c);
      if c.verb == FinalizeCloseout then
        {ProceduralComplete, FinalReportDelivered, RetentionScheduled, ConflictHistoryUpdated} <= q.closeConditions
      else q.closeConditions == p.closeConditions
  {
  }

  lemma FlagsRecordedNext(
      w: World, events: seq<Event>, e: Event, p: Projection, b: Finance.Balances, q: Projection)
    requires FlagsOnRecord(w, events, p) && Refusal(w, p, b, e.command).None? && q == NextProjection(w, p, b, e.command)
    ensures FlagsOnRecord(w, events + [e], q)
  {
    PendingOneMore(events, e);
    HappenedOrNow(events, e, TakeDeposition);
    HappenedOrNow(events, e, RetainExpert);
    HappenedOrNow(events, e, FinalizeCloseout);
    HappenedOrNow(events, e, CloseMatter);
    HoldsMoved(w, p, b, e.command);
    DepositionMoved(w, p, b, e.command);
    ExpertMoved(w, p, b, e.command);
    ClosedMoved(w, p, b, e.command);
    CloseoutMoved(w, p, b, e.command);
  }

  lemma StepRecordsFlags(w: World, s: State, c: Command)
    requires FlagsOnRecord(w, s.events, s.projection)
    ensures FlagsOnRecord(w, Next(w, s, c).events, Next(w, s, c).projection)
  {
    if OutcomeOf(w, s, c).Accepted? {
      AcceptedStep(w, s, c);
      FlagsRecordedNext(
        w, s.events, Event(|s.events| + 1, s.clock + 1, c), s.projection, s.finance, Next(w, s, c).projection);
    } else {
      OtherStep(w, s, c);
    }
  }

  lemma NoFlagsYet(w: World)
    ensures FlagsOnRecord(w, [], NEW_MATTER)
  {
  }

  /** In every reachable state the flags of the matter are what its events say. */
  lemma FlagsFollowEvents(w: World, commands: seq<Command>, n: nat)
    requires n <= |commands|
    ensures FlagsOnRecord(w, After(w, commands, n).events, After(w, commands, n).projection)
  {
    NoFlagsYet(w);
    forall s: State, c | FlagsOnRecord(w, s.events, s.projection)
      ensures FlagsOnRecord(w, Next(w, s, c).events, Next(w, s, c).projection)
    {
      StepRecordsFlags(w, s, c);
    }
    RunInduction(w, commands, 0, n, (i, s: State) => FlagsOnRecord(w, s.events, s.projection));
  }

  /** The expert is given the produced artifacts that the world authorizes, in order of production, and no others. */
  lemma {:induction false} ExpertSeesAuthorized(produced: seq<string>, authorized: seq<string>, n: nat, id: string)
    requires n <= |produced|
    ensures id in ExpertSources(produced, authorized, n) <==> id in produced[..n] && id in authorized
  {
    if n != 0 {
      ExpertSeesAuthorized(produced, authorized, n - 1, id);
      assert produced[..n] == produced[..n - 1] + [produced[n - 1]];
    }
  }

  // ---------- the evidence, artifact by artifact ----------

  /** The custody log of an artifact with a given status. */
  ghost predicate LogSays(a: Artifact, s: Option<Status>, log: seq<CustodyStep>) {
    var hash := a.custody[0].objectHash;
    var reviewed := CustodyStep("reviewed", ResponsibleLawyer, 51, hash);
    var produced := CustodyStep("produced", LitigationParalegal, 52, hash);
    match s
    case None => log == []
    case Some(Preserved) => log == [a.custody[0]]
    case Some(Collected) => log == a.custody
    case Some(WithheldNonresponsive) => log == a.custody
    case Some(Reviewed) => log == a.custody + [reviewed]
    case Some(Produced) => log == a.custody + [reviewed, produced]
  }

  /**
    What the evidence file says of an artifact in every reachable state with distinct ids: its log is that of its
    status, and only a responsive artifact that is not privileged is ever reviewed or produced.
   */
  lemma EvidenceOnRecord(w: World, commands: seq<Command>, n: nat, i: nat)
    requires n <= |commands| && DistinctArtifacts(w.evidence) && i < |w.evidence|
    ensures
      var f, a := After(w, commands, n).projection.evidence, w.evidence[i];
      var s := StatusOf(f, a.artifactId);
      && LogSays(a, s, LogOf(f, a.artifactId))
      && (s in {Some(Reviewed), Some(Produced)} ==> a.responsive && !a.privileged)
      && (s == Some(WithheldNonresponsive) ==> !a.responsive || a.privileged)
  {
    CustodyFollowsStatus(w, commands, n, i);
    RunsKeep(w, commands, n);
    var f := After(w, commands, n).projection.evidence;
    var phase :| EvidenceIn(f, w.evidence, phase);
    assert ArtifactIn(f, w.evidence[i], phase);
  }

  /** The artifact with the id is responsive and not privileged. */
  ghost predicate MayBeProduced(a: Artifact, id: string) {
    a.artifactId == id && a.responsive && !a.privileged
  }

  /**
    What was produced is what is responsive and not privileged: nothing before the first production, all of it
    after.
   */
  lemma NothingPrivilegedIsProduced(w: World, commands: seq<Command>, n: nat, id: string)
    requires n <= |commands| && DistinctArtifacts(w.evidence)
    ensures
      var s := After(w, commands, n);
      id in s.projection.evidence.produced <==>
        Happened(s.events, ProduceDiscovery) && (exists i :: 0 <= i < |w.evidence| && MayBeProduced(w.evidence[i], id))
  {
    var s := After(w, commands, n);
    var f := s.projection.evidence;
    RunStands(w, commands, n);
    var phase :| StandsIn(w, f, s.events, phase);
    if id in SelectedIds(w.evidence, |w.evidence|) {
      var i := Berean.ListedIsSelected(w.evidence, |w.evidence|, id);
    }
    if i :| 0 <= i < |w.evidence| && MayBeProduced(w.evidence[i], id) {
      Berean.SelectedIsListed(w.evidence, |w.evidence|, i);
    }
  }

  /**
    Finalizing the closeout finds the finances reconciled iff the three identities hold and nothing is owed; no other
    command does.
   */
  lemma ReconciledExactlyWhen(w: World, s: State, c: Command)
    requires OutcomeOf(w, s, c).Accepted?
    ensures
      var b := s.finance;
      FinanceReconciled in Next(w, s, c).projection.closeConditions <==>
        || FinanceReconciled in s.projection.closeConditions
        || (c.verb == FinalizeCloseout && b.receivable == 0.0
            && b.work == b.wip + b.submitted && b.submitted == b.approved + b.reduced
            && b.approved == b.receivable + b.cash + b.writeOff)
  {
    AcceptedStep(w, s, c);
    Finance.NoErrorsIffReconciles(s.finance);
    ReconciliationMoves(w, s.projection, s.finance, c);
  }

  lemma ReconciliationMoves(w: World, p: Projection, b: Finance.Balances, c: Command)
    ensures FinanceReconciled in NextProjection(w, p, b, c).closeConditions <==>
      || FinanceReconciled in p.closeConditions
      || (c.verb == FinalizeCloseout && Finance.InvariantErrors(b) == [] && b.receivable == 0.0)
  {
  }

  // ---------- which commands are accepted ----------

  lemma GateRefusals(w: World, s: State, c: Command)
    requires Screen(w, s, c).None? && !IsEvidenceVerb(c.verb) && c.verb != VerifyDeadlines
    ensures OutcomeOf(w, s, c).Accepted? <==>
      && (c.verb == RecordLawyerGate ==> c.payload.gate in s.projection.authorityHolds)
      && (c.verb == OpenMatter ==> s.projection.authorityHolds == {})
      && (c.verb == FinalizeCloseout ==> s.projection.outcome != "")
      && (c.verb == CloseMatter ==> RefusedClose(s.projection, s.finance) == None)
      && (IsResolution(c.verb) ==> c.verb == ResolutionVerb(w.route))
      && (OperationOf(c).Some? ==> Finance.Takes(s.finance, OperationOf(c).value))
  {
    OtherVerbsMakeNoPass(w, s.projection.evidence, c);
  }

  lemma CloseRefusals(p: Projection, b: Finance.Balances)
    ensures RefusedClose(p, b) == None <==>
      && {ProceduralComplete, FinalReportDelivered, RetentionScheduled, ConflictHistoryUpdated, FinanceReconciled}
         <= p.closeConditions
      && Finance.InvariantErrors(b) == []
  {
    var needed := {
      ProceduralComplete, FinalReportDelivered, RetentionScheduled, ConflictHistoryUpdated, FinanceReconciled};
    assert CLOSEOUT + {FinanceReconciled} == needed;
    assert needed - p.closeConditions == {} <==> needed <= p.closeConditions;
  }

  /** What the history must say for a command that is neither billing nor evidence. */
  ghost predicate HistoryAllows(w: World, s: State, ops: seq<Finance.Operation>, c: Command) {
    && (c.verb == RecordLawyerGate ==> ConsentPending(s.events) && c.payload.gate == "affected_client_consent")
    && (c.verb == OpenMatter ==> !ConsentPending(s.events))
    && (c.verb == FinalizeCloseout ==> Happened(s.events, OwnResolution(w.route)))
    && (c.verb == CloseMatter ==>
          && Happened(s.events, FinalizeCloseout) && FinanceReconciled in s.projection.closeConditions
          && Finance.InvoicedSinceAudit(ops, |ops|) == 0.0 && Finance.PaidBeforeAudit(ops, |ops|) == 0.0)
    && (IsResolution(c.verb) ==> c.verb == OwnResolution(w.route))
  }

  /** Which amounts the billing commands may ask for. */
  ghost predicate AmountAllowed(b: Finance.Balances, c: Command) {
    && (c.verb == RecordTime ==> 0.0 < c.payload.amount)
    && (c.verb == SubmitInvoice ==> 0.0 < b.wip)
    && (c.verb == CarrierAudit ==> 0.0 <= c.payload.reduction <= b.submitted)
    && (c.verb == AppealReduction ==> 0.0 < c.payload.recovered <= b.reduced)
    && (c.verb == ApplyPayment ==> 0.0 <= c.payload.cash <= b.receivable)
  }

  lemma HoldsTell(w: World, events: seq<Event>, p: Projection, gate: string)
    requires FlagsOnRecord(w, events, p)
    ensures gate in p.authorityHolds <==> ConsentPending(events) && gate == "affected_client_consent"
    ensures p.authorityHolds == {} <==> !ConsentPending(events)
  {
  }

  lemma CloseTells(w: World, s: State)
    requires FlagsOnRecord(w, s.events, s.projection)
    ensures RefusedClose(s.projection, s.finance) == None <==>
      && Happened(s.events, FinalizeCloseout) && FinanceReconciled in s.projection.closeConditions
      && Finance.InvariantErrors(s.finance) == []
  {
    CloseRefusals(s.projection, s.finance);
  }

  lemma HistoryRefusals(w: World, s: State, ops: seq<Finance.Operation>, c: Command)
    requires FlagsOnRecord(w, s.events, s.projection) && OutcomeOnRecord(w, s.events, s.projection)
    requires Finance.InvariantErrors(s.finance) == [] <==>
      Finance.InvoicedSinceAudit(ops, |ops|) == 0.0 && Finance.PaidBeforeAudit(ops, |ops|) == 0.0
    ensures HistoryAllows(w, s, ops, c) <==>
      && (c.verb == RecordLawyerGate ==> c.payload.gate in s.projection.authorityHolds)
      && (c.verb == OpenMatter ==> s.projection.authorityHolds == {})
      && (c.verb == FinalizeCloseout ==> s.projection.outcome != "")
      && (c.verb == CloseMatter ==> RefusedClose(s.projection, s.finance) == None)
      && (IsResolution(c.verb) ==> c.verb == ResolutionVerb(w.route))
  {
    HoldsTell(w, s.events, s.projection, c.payload.gate);
    CloseTells(w, s);
    OutcomeMeansResolved(w, s);
  }

  /**
    Which commands that pass the gate are accepted in a reachable state, in terms of its history; the evidence verbs
    and the verification of deadlines apart.
   */
  lemma AcceptedExactlyWhen(w: World, commands: seq<Command>, n: nat, c: Command)
    requires n <= |commands| && Screen(w, After(w, commands, n), c).None?
    requires !IsEvidenceVerb(c.verb) && c.verb != VerifyDeadlines
    ensures
      var s := After(w, commands, n);
      OutcomeOf(w, s, c).Accepted? <==>
        HistoryAllows(w, s, OperationsOf(s.events, |s.events|), c) && AmountAllowed(s.finance, c)
  {
    var s := After(w, commands, n);
    var ops := OperationsOf(s.events, |s.events|);
    FlagsFollowEvents(w, commands, n);
    OutcomeIsThatOfThePosture(w, commands, n);
    RunsKeep(w, commands, n);
    Finance.ReconcilesExactlyWhen(ops, |ops|);
    HistoryRefusals(w, s, ops, c);
    BillingRefusals(s.finance, c);
    GateRefusals(w, s, c);
  }

  lemma OutcomeMeansResolved(w: World, s: State)
    requires OutcomeOnRecord(w, s.events, s.projection)
    ensures s.projection.outcome != "" <==> Happened(s.events, OwnResolution(w.route))
    ensures OwnResolution(w.route) == ResolutionVerb(w.route)
  {
  }

  lemma BillingRefusals(b: Finance.Balances, c: Command)
    ensures (OperationOf(c).Some? ==> Finance.Takes(b, OperationOf(c).value)) <==> AmountAllowed(b, c)
  {
  }
}
