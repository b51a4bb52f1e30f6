/**
  What the commit store answers and records, over the fields of proposals, rows and decisions
  (sqlite_commit_adapter.py).
 */
module CommitAnswers {
  import opened Wrappers
  import opened CommitStore
  import opened CommitAudit

  // ---------- what is refused as malformed ----------

  /** A proposal is refused as invalid exactly for one of these reasons, whatever the store holds. */
  lemma InvalidExactlyWhen(h: Digests, log: Log, p: Proposal, fault: Option<FaultPoint>)
    ensures CommitOutcome(h, log, p, fault) == ProposalInvalid <==>
      || p.coreRevision != "design-c-commit-protocol-g0c-v1"
      || p.proposalId == "" || p.idempotencyKey == "" || p.eventType == ""
      || |p.commandCommitment| != 64 || |p.expectedParentHash| != 64
      || |p.dependencyHash| != 64 || |p.resultCommitment| != 64
      || p.containsPayload || p.externalEffectRequested || p.canonicalWriteRequested
  {
  }

  /** Every recorded proposal was clean, and extended the head of its time. */
  lemma {:induction false} RecordedWereClean(h: Digests, ops: seq<Operation>, n: nat, i: nat)
    requires n <= |ops| && i < |LogAfter(h, ops, n).entries|
    ensures
      var entries := LogAfter(h, ops, n).entries;
      var p := entries[i];
      && p.proposalId != "" && p.idempotencyKey != "" && p.eventType != ""
      && |p.commandCommitment| == |p.dependencyHash| == |p.resultCommitment| == 64
      && !p.containsPayload && !p.externalEffectRequested && !p.canonicalWriteRequested
      && p.expectedParentHash == HeadAfter(h, entries, i)
  {
    var before, entries := LogAfter(h, ops, n - 1).entries, LogAfter(h, ops, n).entries;
    if i < |before| {
      RecordedWereClean(h, ops, n - 1, i);
    }
    LogOnlyGrows(h, ops, n - 1, n);
    HeadAfterExtends(h, before, entries, if i < |before| then i else |before|);
  }

  // ---------- what the rows say ----------

  /** The columns of the event row of entry `i`. */
  lemma EventColumns(h: Digests, s: Store, log: Log, i: nat)
    requires Represents(h, s, log) && i < |log.entries|
    ensures i < |s.events|
    ensures
      var row, p := s.events[i], log.entries[i];
      && row.payload.sequence == i + 1
      && row.payload.parent == (if i == 0 then h.genesis else s.events[i - 1].eventHash)
      && row.payload.command == p.commandCommitment && row.payload.dependency == p.dependencyHash
      && row.payload.eventType == p.eventType && row.payload.result == p.resultCommitment
      && row.payload.proposal == h.proposal(p)
      && row.eventHash == h.event(row.payload) && row.eventId == h.eventId(row.eventHash)
    ensures s.head == s.events[|s.events| - 1].eventHash
  {
    assert s.events[i] == EventRowAt(h, log.entries, i);
    assert 0 < i ==> s.events[i - 1] == EventRowAt(h, log.entries, i - 1);
    assert s.events[|s.events| - 1] == EventRowAt(h, log.entries, |s.events| - 1);
  }

  /** The columns of its command and outbox rows. */
  lemma CommandAndOutboxColumns(h: Digests, s: Store, log: Log, i: nat)
    requires Represents(h, s, log) && i < |log.entries|
    ensures i < |s.events| && i < |s.commands| && i < |s.outbox|
    ensures
      var c, o, p, e := s.commands[i], s.outbox[i], log.entries[i], s.events[i];
      && c.idempotencyKey == p.idempotencyKey && c.proposalHash == h.proposal(p)
      && c.commandCommitment == p.commandCommitment && c.dependencyHash == p.dependencyHash
      && c.eventSequence == o.eventSequence == i + 1 && c.eventHash == o.eventHash == e.eventHash
      && c.outboxId == o.outboxId == h.outboxId(e.eventHash)
      && o.acknowledged == log.acks[i] && o.deliveryAttempts == (if log.acks[i] then 1 else 0)
  {
    assert s.events[i] == EventRowAt(h, log.entries, i) && s.commands[i] == CommandRowAt(h, log.entries, i);
    assert s.outbox[i] == OutboxRowAt(h, log, i);
  }

  // ---------- what a reused key is answered ----------

  /** The two proposals agree on everything that the store compares for a reused key. */
  ghost predicate Repeats(h: Digests, earlier: Proposal, p: Proposal) {
    && h.proposal(earlier) == h.proposal(p)
    && earlier.commandCommitment == p.commandCommitment
    && earlier.dependencyHash == p.dependencyHash
  }

  /** What the store answers when the key is owned by entry `i`, and that it records nothing. */
  lemma ReusedKeyAnswer(h: Digests, s: Store, log: Log, p: Proposal, fault: Option<FaultPoint>, i: nat)
    requires Represents(h, s, log) && i < |s.commands| && s.commands[i].idempotencyKey == p.idempotencyKey
    requires CommitOutcome(h, log, p, fault).Decided?
    ensures
      var d, row := CommitOutcome(h, log, p, fault).decision, s.commands[i];
      && d.proposalHash == h.proposal(p) && d.headHash == s.head
      && if row.proposalHash == h.proposal(p) && row.commandCommitment == p.commandCommitment
           && row.dependencyHash == p.dependencyHash
         then
           && d.disposition == DuplicateReplay && d.duplicate && d.rejectionCode == ""
           && d.eventSequence == Some(row.eventSequence) && d.eventHash == row.eventHash && d.outboxId == row.outboxId
         else
           && d.disposition == RejectedIdempotencyConflict && !d.duplicate
           && d.rejectionCode == "idempotency_key_reused_with_changed_input"
           && d.eventSequence == None && d.eventHash == "" && d.outboxId == ""
    ensures Committed(h, log, p, fault) == log
  {
    assert s.commands[i] == CommandRowAt(h, log.entries, i);
    assert OwnerOf(log.entries, p.idempotencyKey) == Some(i);
  }

  /** A key with changed input is a conflict at every later point of a run, and is not recorded. */
  lemma ChangedInputIsConflict(h: Digests, ops: seq<Operation>, j: nat, a: Decision, k: nat)
    requires j < k < |ops| && ops[j].Commit? && NamesEvent(h, ops, j, ops[j].proposal.idempotencyKey, a)
    requires DecisionOf(h, ops, k).Some? && ops[k].proposal.idempotencyKey == ops[j].proposal.idempotencyKey
    requires !Repeats(h, ops[j].proposal, ops[k].proposal)
    ensures
      var d := DecisionOf(h, ops, k).value;
      && d.disposition == RejectedIdempotencyConflict
      && d.rejectionCode == "idempotency_key_reused_with_changed_input"
      && d.eventSequence == None && d.eventHash == "" && d.outboxId == ""
    ensures LogAfter(h, ops, k + 1) == LogAfter(h, ops, k)
  {
    var i := NamedRepeats(h, ops, j, a, k);
    RunKeepsLogValid(h, ops, k);
    assert OwnerOf(LogAfter(h, ops, k).entries, ops[k].proposal.idempotencyKey) == Some(i);
  }

  lemma NamedEntry(h: Digests, log: Log, p: Proposal, fault: Option<FaultPoint>)
    requires CommitOutcome(h, log, p, fault).Decided?
    requires CommitOutcome(h, log, p, fault).decision.disposition in {Accepted, DuplicateReplay}
    ensures
      var d, entries := CommitOutcome(h, log, p, fault).decision, Committed(h, log, p, fault).entries;
      && d.eventSequence.Some? && 1 <= d.eventSequence.value <= |entries|
      && Repeats(h, entries[d.eventSequence.value - 1], p)
  {
  }

  /** What a decision names agrees with the proposal that it answered. */
  lemma NamedRepeats(h: Digests, ops: seq<Operation>, j: nat, a: Decision, k: nat) returns (i: nat)
    requires j < k <= |ops| && ops[j].Commit? && NamesEvent(h, ops, j, ops[j].proposal.idempotencyKey, a)
    ensures
      var entries := LogAfter(h, ops, k).entries;
      && Names(h, entries, ops[j].proposal.idempotencyKey, a, i)
      && Repeats(h, entries[i], ops[j].proposal)
  {
    i := DecisionNamesOwner(h, ops, j, k);
    NamedEntry(h, LogAfter(h, ops, j), ops[j].proposal, ops[j].fault);
    LogOnlyGrows(h, ops, j + 1, k);
  }

  lemma DecisionIsOnProposal(h: Digests, log: Log, p: Proposal, fault: Option<FaultPoint>)
    requires CommitOutcome(h, log, p, fault).Decided?
    ensures CommitOutcome(h, log, p, fault).decision.proposalHash == h.proposal(p)
  {
  }

  /** All decisions that name an event for one key answered the same input. */
  lemma KeyNamesOneInput(h: Digests, ops: seq<Operation>, key: string, j: nat, a: Decision, k: nat, b: Decision)
    requires j < |ops| && k < |ops| && ops[j].Commit? && ops[k].Commit?
    requires NamesEvent(h, ops, j, key, a) && NamesEvent(h, ops, k, key, b)
    ensures a.proposalHash == b.proposalHash
    ensures Repeats(h, ops[j].proposal, ops[k].proposal)
  {
    var log := LogAfter(h, ops, |ops|);
    var x := NamedRepeats(h, ops, j, a, |ops|);
    var y := NamedRepeats(h, ops, k, b, |ops|);
    RunKeepsLogValid(h, ops, |ops|);
    OneOwner(h, log, key, x, y);
    DecisionIsOnProposal(h, LogAfter(h, ops, j), ops[j].proposal, ops[j].fault);
    DecisionIsOnProposal(h, LogAfter(h, ops, k), ops[k].proposal, ops[k].fault);
  }

  lemma OneOwner(h: Digests, log: Log, key: string, x: nat, y: nat)
    requires LogValid(h, log) && x < |log.entries| && y < |log.entries|
    requires log.entries[x].idempotencyKey == key == log.entries[y].idempotencyKey
    ensures x == y
  {
  }

  // ---------- what a fresh key is answered ----------

  /** The payload of the event that the proposal would append. */
  ghost function NextEvent(h: Digests, s: Store, p: Proposal): EventPayload {
    EventPayload(
      |s.events| + 1, s.head, p.commandCommitment, p.dependencyHash, p.eventType, p.resultCommitment, h.proposal(p))
  }

  /** The proposal would repeat a unique column of some event or outbox row. */
  ghost predicate RepeatsColumn(h: Digests, s: Store, p: Proposal) {
    var hash := h.event(NextEvent(h, s, p));
    || (exists e :: e in s.events && SharesColumn(h, e, hash, h.proposal(p)))
    || (exists o :: o in s.outbox && o.outboxId == h.outboxId(hash))
  }

  /** Row `e` repeats a unique column of the event with hash `hash` and proposal hash `proposal`. */
  ghost predicate SharesColumn(h: Digests, e: EventRow, hash: string, proposal: string) {
    e.eventHash == hash || e.eventId == h.eventId(hash) || e.payload.proposal == proposal
  }

  lemma NextEventHash(h: Digests, s: Store, log: Log, p: Proposal)
    requires Represents(h, s, log)
    ensures NextHash(h, log.entries, p) == h.event(NextEvent(h, s, p))
  {
  }

  lemma EventColumnsClash(h: Digests, s: Store, log: Log, p: Proposal, hash: string)
    requires Represents(h, s, log) && hash == NextHash(h, log.entries, p)
    ensures (exists e :: e in s.events && SharesColumn(h, e, hash, h.proposal(p))) <==> EventClash(h, log.entries, p)
  {
    forall i | 0 <= i < |log.entries|
      ensures SharesColumn(h, s.events[i], hash, h.proposal(p)) <==> EventClashAt(h, log.entries, p, i)
    {
      assert s.events[i] == EventRowAt(h, log.entries, i);
    }
    if i :| 0 <= i < |log.entries| && EventClashAt(h, log.entries, p, i) {
      assert s.events[i] in s.events;
    }
  }

  lemma OutboxColumnsClash(h: Digests, s: Store, log: Log, p: Proposal, hash: string)
    requires Represents(h, s, log) && hash == NextHash(h, log.entries, p)
    ensures (exists o :: o in s.outbox && o.outboxId == h.outboxId(hash)) <==> OutboxClash(h, log.entries, p)
  {
    forall i | 0 <= i < |log.entries|
      ensures s.outbox[i].outboxId == h.outboxId(HashAt(h, log.entries, i))
    {
      assert s.outbox[i] == OutboxRowAt(h, log, i);
    }
    if i :| 0 <= i < |log.entries| && h.outboxId(HashAt(h, log.entries, i)) == h.outboxId(hash) {
      assert s.outbox[i] in s.outbox;
    }
  }

  /**
    What the store answers a well-formed proposal under a fresh key, without a fault: a proposal that expects another
    head is stale, one that repeats a unique column violates a constraint, and every other one is accepted.
   */
  lemma FreshKeyAnswer(h: Digests, s: Store, log: Log, p: Proposal)
    requires Represents(h, s, log) && CommitOutcome(h, log, p, None) != ProposalInvalid
    requires forall c :: c in s.commands ==> c.idempotencyKey != p.idempotencyKey
    ensures
      var outcome, hash := CommitOutcome(h, log, p, None), h.event(NextEvent(h, s, p));
      if p.expectedParentHash != s.head then
        outcome == Decided(Decision(
          h.proposal(p), RejectedStaleParent, None, "", s.head, "", false, "expected_parent_does_not_match_head"))
      else if RepeatsColumn(h, s, p) then
        outcome == ConstraintViolated
      else
        outcome == Decided(Decision(
          h.proposal(p), Accepted, Some(|s.events| + 1), hash, hash, h.outboxId(hash), false, ""))
    ensures
      var after := Committed(h, log, p, None);
      if p.expectedParentHash == s.head && !RepeatsColumn(h, s, p) then
        after.entries == log.entries + [p] && after.acks == log.acks + [false]
      else
        after == log
  {
    NextEventHash(h, s, log, p);
    EventColumnsClash(h, s, log, p, NextHash(h, log.entries, p));
    OutboxColumnsClash(h, s, log, p, NextHash(h, log.entries, p));
    NewRow(h, log.entries, p);
    forall i | 0 <= i < |log.entries|
      ensures log.entries[i].idempotencyKey != p.idempotencyKey
    {
      assert s.commands[i] == CommandRowAt(h, log.entries, i) && s.commands[i] in s.commands;
    }
  }

  // ---------- faults and acknowledgements ----------

  /** A call that faults was asked to, at that point; it has recorded the proposal iff the transaction was complete. */
  lemma FaultIsAllOrNothing(h: Digests, log: Log, p: Proposal, fault: Option<FaultPoint>)
    requires CommitOutcome(h, log, p, fault).Faulted?
    ensures fault == Some(CommitOutcome(h, log, p, fault).point)
    ensures Committed(h, log, p, fault).entries ==
      log.entries + if fault == Some(AfterCommitBeforeReturn) then [p] else []
  {
  }

  /** Operation `k` acknowledged the outbox item of entry `i`, which was there at the time. */
  ghost predicate AcknowledgedAt(h: Digests, ops: seq<Operation>, k: nat, i: nat)
    requires k < |ops|
  {
    && ops[k].Acknowledge?
    && i < |LogAfter(h, ops, k).entries|
    && ops[k].outboxId == h.outboxId(HashAt(h, LogAfter(h, ops, k).entries, i))
  }

  lemma MarkStep(h: Digests, ops: seq<Operation>, n: nat, i: nat)
    requires n < |ops| && i < |LogAfter(h, ops, n).entries|
    ensures i < |LogAfter(h, ops, n + 1).entries|
    ensures LogAfter(h, ops, n + 1).acks[i] <==> LogAfter(h, ops, n).acks[i] || AcknowledgedAt(h, ops, n, i)
  {
    RunKeepsLogValid(h, ops, n);
    if ops[n].Acknowledge? {
      OneMoreMark(h, LogAfter(h, ops, n), ops[n].outboxId, i);
    }
  }

  /** The item of a new entry is not marked, and no earlier operation could have marked it. */
  lemma NewIsUnmarked(h: Digests, ops: seq<Operation>, n: nat, i: nat)
    requires n < |ops| && |LogAfter(h, ops, n).entries| <= i < |LogAfter(h, ops, n + 1).entries|
    ensures !LogAfter(h, ops, n + 1).acks[i]
    ensures !EverAcknowledged(h, ops, n + 1, i)
  {
    forall k | 0 <= k <= n
      ensures !AcknowledgedAt(h, ops, k, i)
    {
      LogOnlyGrows(h, ops, k, n);
    }
  }

  ghost predicate EverAcknowledged(h: Digests, ops: seq<Operation>, n: nat, i: nat)
    requires n <= |ops|
  {
    exists k :: 0 <= k < n && AcknowledgedAt(h, ops, k, i)
  }

  lemma AcknowledgedBefore(h: Digests, ops: seq<Operation>, n: nat, i: nat)
    requires n < |ops|
    ensures EverAcknowledged(h, ops, n + 1, i) <==> EverAcknowledged(h, ops, n, i) || AcknowledgedAt(h, ops, n, i)
  {
  }

  /** An outbox item is marked iff it was acknowledged, by its id and after its event was recorded. */
  lemma {:induction false} MarkedIffAcknowledged(h: Digests, ops: seq<Operation>, n: nat, i: nat)
    requires n <= |ops| && i < |LogAfter(h, ops, n).entries|
    ensures LogAfter(h, ops, n).acks[i] <==> EverAcknowledged(h, ops, n, i)
  {
    if i < |LogAfter(h, ops, n - 1).entries| {
      MarkedIffAcknowledged(h, ops, n - 1, i);
      AcknowledgedBefore(h, ops, n - 1, i);
      MarkStep(h, ops, n - 1, i);
    } else {
      NewIsUnmarked(h, ops, n - 1, i);
    }
  }

  lemma OneMoreMark(h: Digests, log: Log, id: string, i: nat)
    requires LogValid(h, log) && i < |log.entries|
    ensures Acknowledged(h, log, id).acks[i] <==> log.acks[i] || h.outboxId(HashAt(h, log.entries, i)) == id
  {
  }

  // ---------- what the checkers guarantee ----------

  /** Event `i` has the next number, continues the one before, and hashes its own columns. */
  ghost predicate Continues(h: Digests, events: seq<EventRow>, i: nat)
    requires i < |events|
  {
    && events[i].payload.sequence == i + 1
    && events[i].payload.parent == (if i == 0 then h.genesis else events[i - 1].eventHash)
    && events[i].eventHash == h.event(events[i].payload)
  }

  /** What it means that a snapshot lists no error, over the rows. */
  lemma ErrorFreeMeans(h: Digests, s: Store, snap: Snapshot)
    requires SnapshotOf(h, s, snap)
    ensures snap.invariantErrors == [] <==>
      && (forall i :: 0 <= i < |s.events| ==> Continues(h, s.events, i))
      && s.head == (if s.events == [] then h.genesis else s.events[|s.events| - 1].eventHash)
      && |s.commands| == |s.events| && |s.outbox| == |s.events|
      && (forall c :: c in s.commands ==>
            1 <= c.eventSequence <= |s.events| && s.events[c.eventSequence - 1].eventHash == c.eventHash)
      && (forall o :: o in s.outbox ==>
            1 <= o.eventSequence <= |s.events| && s.events[o.eventSequence - 1].eventHash == o.eventHash)
  {
    assert forall i: nat :: i < |s.events| ==> (Continues(h, s.events, i) <==> LinkValid(h, s.events, i));
  }

  /**
    The checker leaves an acceptance no choice: from the snapshot before it and the proposal follow the counts after
    it and every field of the decision but its outbox id.
   */
  lemma AcceptanceIsTight(
      proposalHash: Proposal -> string, checkpoint: Snapshot -> string,
      p: Proposal, before: Snapshot, d: Decision, after: Snapshot)
    requires TransitionSound(proposalHash, checkpoint, p, before, d, after) && d.disposition == Accepted
    ensures before.invariantErrors == [] && after.invariantErrors == []
    ensures before.headHash == p.expectedParentHash && |after.headHash| == 64
    ensures
      && after.eventCount == before.eventCount + 1
      && after.commandCount == before.eventCount + 1 && after.outboxCount == before.eventCount + 1
      && after.pendingOutboxCount == before.pendingOutboxCount + 1
      && after.acknowledgedOutboxCount == before.acknowledgedOutboxCount
    ensures d == Decision(
      proposalHash(p), Accepted, Some(before.eventCount + 1), after.headHash, after.headHash, d.outboxId, false, "")
  {
  }

  /** Nor a duplicate or a rejection: the checkpoint stays, and a rejection names nothing and says why. */
  lemma OtherwiseNothingChanges(
      proposalHash: Proposal -> string, checkpoint: Snapshot -> string,
      p: Proposal, before: Snapshot, d: Decision, after: Snapshot)
    requires TransitionSound(proposalHash, checkpoint, p, before, d, after) && d.disposition != Accepted
    ensures checkpoint(before) == checkpoint(after) && d.proposalHash == proposalHash(p)
    ensures d.duplicate <==> d.disposition == DuplicateReplay
    ensures d.disposition == DuplicateReplay ==> d.eventHash != "" && d.rejectionCode == ""
    ensures d.disposition != DuplicateReplay ==>
      d.eventSequence == None && d.eventHash == "" && d.outboxId == "" && d.rejectionCode != ""
  {
  }
}
