/**
  Reading the commit store back (`snapshot`), what its hash chain proves, and the independent checker of
  transitions (commit_protocol_validator.py).
 */
module CommitAudit {
  import opened Wrappers
  import opened CommitStore

  datatype StoreError =
    | SequenceGap(index: int)
    | ParentBreak(index: int)
    | EventHashMismatch(index: int)
    | HeadHashMismatch
    | CommandEventCountMismatch
    | OutboxEventCountMismatch
    | CommandEventBindingMismatch(idempotencyKey: string)
    | OutboxEventBindingMismatch(outboxId: string)

  datatype Snapshot = Snapshot(
    headHash: string,
    eventCount: nat,
    commandCount: nat,
    outboxCount: nat,
    pendingOutboxCount: nat,
    acknowledgedOutboxCount: nat,
    eventChainHash: string,
    outboxStateHash: string,
    invariantErrors: seq<StoreError>)

  // ---------- consistency of the tables ----------

  function ParentOf(h: Digests, events: seq<EventRow>, i: nat): string
    requires i <= |events|
  {
    if i == 0 then h.genesis else events[i - 1].eventHash
  }

  predicate LinkValid(h: Digests, events: seq<EventRow>, i: nat)
    requires i < |events|
  {
    && events[i].payload.sequence == i + 1
    && events[i].payload.parent == ParentOf(h, events, i)
    && events[i].eventHash == h.event(events[i].payload)
  }

  ghost predicate ChainValid(h: Digests, events: seq<EventRow>, n: nat)
    requires n <= |events|
  {
    forall i :: 0 <= i < n ==> LinkValid(h, events, i)
  }

  /** Row number `sequence` exists and carries the given hash. */
  predicate Binds(events: seq<EventRow>, sequence: int, hash: string) {
    1 <= sequence <= |events| && events[sequence - 1].eventHash == hash
  }

  /** Chain, head, counts and bindings all hold. */
  ghost predicate Consistent(h: Digests, s: Store) {
    && ChainValid(h, s.events, |s.events|)
    && s.head == ParentOf(h, s.events, |s.events|)
    && |s.commands| == |s.events| == |s.outbox|
    && (forall c :: c in s.commands ==> Binds(s.events, c.eventSequence, c.eventHash))
    && (forall o :: o in s.outbox ==> Binds(s.events, o.eventSequence, o.eventHash))
  }

  function CountAcknowledged(outbox: seq<OutboxRow>, wanted: bool): (c: nat)
    ensures c <= |outbox|
  {
    if outbox == [] then 0 else
    CountAcknowledged(outbox[..|outbox| - 1], wanted) + if outbox[|outbox| - 1].acknowledged == wanted then 1 else 0
  }

  // ---------- the snapshot ----------

  method CheckChain(h: Digests, events: seq<EventRow>) returns (errors: seq<StoreError>, expectedParent: string)
    ensures errors == [] <==> ChainValid(h, events, |events|)
    ensures expectedParent == ParentOf(h, events, |events|)
  {
    errors, expectedParent := [], h.genesis;
    ghost var valid := true;
    for i := 0 to |events|
      invariant expectedParent == ParentOf(h, events, i)
      invariant valid <==> ChainValid(h, events, i)
      invariant valid <==> errors == []
    {
      ghost var before := |errors|;
      var payload := events[i].payload;
      if payload.sequence != i + 1 {
        errors := errors + [SequenceGap(i + 1)];
      }
      if payload.parent != expectedParent {
        errors := errors + [ParentBreak(i + 1)];
      }
      if events[i].eventHash != h.event(payload) {
        errors := errors + [EventHashMismatch(i + 1)];
      }
      valid := valid && LinkValid(h, events, i);
      expectedParent := events[i].eventHash;
    }
  }

  /** `{int(item["event_sequence"]): item for item in events}` */
  function EventBySequence(events: seq<EventRow>): map<int, EventRow> {
    if events == [] then map[] else
    EventBySequence(events[..|events| - 1])[events[|events| - 1].payload.sequence := events[|events| - 1]]
  }

  lemma {:induction false} LookupInChain(h: Digests, events: seq<EventRow>, n: nat, k: int)
    requires n <= |events| && ChainValid(h, events, n)
    ensures
      var found := EventBySequence(events[..n]);
      (k in found <==> 1 <= k <= n) && (k in found ==> found[k] == events[k - 1])
  {
    if 0 < n {
      LookupInChain(h, events, n - 1, k);
      assert events[..n][..n - 1] == events[..n - 1] && events[..n][n - 1] == events[n - 1];
      assert LinkValid(h, events, n - 1);
      assert EventBySequence(events[..n]) == EventBySequence(events[..n - 1])[n := events[n - 1]];
    }
  }

  /** On a valid chain the look-up by sequence finds the row at that position. */
  lemma BoundIsBinds(h: Digests, events: seq<EventRow>)
    requires ChainValid(h, events, |events|)
    ensures forall k, hash :: Bound(EventBySequence(events), k, hash) <==> Binds(events, k, hash)
  {
    forall k, hash
      ensures Bound(EventBySequence(events), k, hash) <==> Binds(events, k, hash)
    {
      LookupInChain(h, events, |events|, k);
      assert events[..|events|] == events;
    }
  }

  predicate Bound(bySequence: map<int, EventRow>, sequence: int, hash: string) {
    sequence in bySequence && bySequence[sequence].eventHash == hash
  }

  method CheckBindings(bySequence: map<int, EventRow>, commands: seq<CommandRow>, outbox: seq<OutboxRow>)
    returns (errors: seq<StoreError>)
    ensures errors == [] <==>
      && (forall c :: c in commands ==> Bound(bySequence, c.eventSequence, c.eventHash))
      && (forall o :: o in outbox ==> Bound(bySequence, o.eventSequence, o.eventHash))
  {
    errors := [];
    for i := 0 to |commands|
      invariant errors == [] <==> forall c :: c in commands[..i] ==> Bound(bySequence, c.eventSequence, c.eventHash)
    {
      assert commands[..i + 1] == commands[..i] + [commands[i]];
      if !Bound(bySequence, commands[i].eventSequence, commands[i].eventHash) {
        errors := errors + [CommandEventBindingMismatch(commands[i].idempotencyKey)];
      }
    }
    assert commands[..|commands|] == commands;
    for i := 0 to |outbox|
      invariant errors == [] <==>
        && (forall c :: c in commands ==> Bound(bySequence, c.eventSequence, c.eventHash))
        && (forall o :: o in outbox[..i] ==> Bound(bySequence, o.eventSequence, o.eventHash))
    {
      assert outbox[..i + 1] == outbox[..i] + [outbox[i]];
      if !Bound(bySequence, outbox[i].eventSequence, outbox[i].eventHash) {
        errors := errors + [OutboxEventBindingMismatch(outbox[i].outboxId)];
      }
    }
    assert outbox[..|outbox|] == outbox;
  }

  /** What a snapshot says about the tables it was taken of. */
  ghost predicate SnapshotOf(h: Digests, s: Store, snap: Snapshot) {
    && snap.headHash == s.head
    && snap.eventCount == |s.events| && snap.commandCount == |s.commands| && snap.outboxCount == |s.outbox|
    && snap.pendingOutboxCount == CountAcknowledged(s.outbox, false)
    && snap.acknowledgedOutboxCount == CountAcknowledged(s.outbox, true)
    && snap.eventChainHash == h.events(s.events)
    && snap.outboxStateHash == h.outbox(s.outbox)
    && (snap.invariantErrors == [] <==> Consistent(h, s))
  }

  method TakeSnapshot(h: Digests, s: Store) returns (snap: Snapshot)
    ensures SnapshotOf(h, s, snap)
  {
    var chainErrors, expectedParent := CheckChain(h, s.events);
    var headErrors := if s.head == expectedParent then [] else [HeadHashMismatch];
    if |s.commands| != |s.events| {
      headErrors := headErrors + [CommandEventCountMismatch];
    }
    if |s.outbox| != |s.events| {
      headErrors := headErrors + [OutboxEventCountMismatch];
    }
    var bindingErrors := CheckBindings(EventBySequence(s.events), s.commands, s.outbox);
    if chainErrors == [] {
      BoundIsBinds(h, s.events);
    }
    var errors := chainErrors + headErrors + bindingErrors;
    assert |errors| == |chainErrors| + |headErrors| + |bindingErrors|;
    snap := Snapshot(
      s.head, |s.events|, |s.commands|, |s.outbox|,
      CountAcknowledged(s.outbox, false), CountAcknowledged(s.outbox, true),
      h.events(s.events), h.outbox(s.outbox), errors);
  }

  /** The tables of every reachable store are consistent. */
  lemma RepresentedIsConsistent(h: Digests, s: Store, log: Log)
    requires Represents(h, s, log)
    ensures Consistent(h, s)
  {
    forall i | 0 <= i < |s.events|
      ensures LinkValid(h, s.events, i)
    {
      assert s.events[i] == EventRowAt(h, log.entries, i);
    }
  }

  // ---------- what the head hash authenticates ----------

  /**
    No hashed row of one table shares its hash with a different row of the other, and none hashes to the genesis
    value.
   */
  ghost predicate NoCollision(h: Digests, a: seq<EventRow>, b: seq<EventRow>) {
    && (forall i, j :: 0 <= i < |a| && 0 <= j < |b| && h.event(a[i].payload) == h.event(b[j].payload) ==>
          a[i].payload == b[j].payload)
    && (forall i :: 0 <= i < |a| ==> h.event(a[i].payload) != h.genesis)
    && (forall j :: 0 <= j < |b| ==> h.event(b[j].payload) != h.genesis)
  }

  lemma {:induction false} ChainsAgree(h: Digests, a: seq<EventRow>, b: seq<EventRow>, m: nat, n: nat)
    requires m <= |a| && n <= |b| && ChainValid(h, a, m) && ChainValid(h, b, n) && NoCollision(h, a, b)
    requires ParentOf(h, a, m) == ParentOf(h, b, n)
    ensures m == n
    ensures forall i :: 0 <= i < m ==> a[i].payload == b[i].payload && a[i].eventHash == b[i].eventHash
  {
    if 0 < m && 0 < n {
      assert LinkValid(h, a, m - 1) && LinkValid(h, b, n - 1);
      assert a[m - 1].payload == b[n - 1].payload;
      ChainsAgree(h, a, b, m - 1, n - 1);
    } else if 0 < m {
      RowIsNotGenesis(h, a, b, m);
    } else if 0 < n {
      RowIsNotGenesis(h, b, a, n);
    }
  }

  lemma RowIsNotGenesis(h: Digests, a: seq<EventRow>, b: seq<EventRow>, n: nat)
    requires 0 < n <= |a| && ChainValid(h, a, n) && NoCollision(h, a, b)
    ensures ParentOf(h, a, n) != h.genesis
  {
    assert LinkValid(h, a, n - 1);
  }

  /** Two stores with error-free snapshots and the same head agree on every hashed column of every event. */
  lemma EqualHeadsAuthenticate(h: Digests, s: Store, t: Store, snapS: Snapshot, snapT: Snapshot)
    requires SnapshotOf(h, s, snapS) && SnapshotOf(h, t, snapT)
    requires snapS.invariantErrors == [] && snapT.invariantErrors == []
    requires snapS.headHash == snapT.headHash && NoCollision(h, s.events, t.events)
    ensures |s.events| == |t.events|
    ensures forall i :: 0 <= i < |s.events| ==>
      s.events[i].payload == t.events[i].payload && s.events[i].eventHash == t.events[i].eventHash
  {
    ChainsAgree(h, s.events, t.events, |s.events|, |t.events|);
  }

  // ---------- the independent checker ----------

  /** What `validate_commit_snapshot` requires of a snapshot. */
  predicate SnapshotSound(snap: Snapshot) {
    && snap.invariantErrors == []
    && snap.eventCount == snap.commandCount == snap.outboxCount
    && snap.outboxCount == snap.pendingOutboxCount + snap.acknowledgedOutboxCount
    && |snap.headHash| == 64
  }

  predicate AcceptanceSound(p: Proposal, before: Snapshot, d: Decision, after: Snapshot) {
    && before.headHash == p.expectedParentHash
    && after.eventCount == before.eventCount + 1
    && after.commandCount == before.commandCount + 1
    && after.outboxCount == before.outboxCount + 1
    && after.pendingOutboxCount == before.pendingOutboxCount + 1
    && d.eventSequence == Some(after.eventCount) && d.eventHash == after.headHash && d.headHash == after.headHash
    && !d.duplicate && d.rejectionCode == ""
  }

  /** What `validate_commit_transition` requires; `checkpoint` is the digest of a snapshot. */
  predicate TransitionSound(
    proposalHash: Proposal -> string, checkpoint: Snapshot -> string,
    p: Proposal, before: Snapshot, d: Decision, after: Snapshot)
  {
    && SnapshotSound(before) && SnapshotSound(after)
    && d.proposalHash == proposalHash(p)
    && match d.disposition
       case Accepted => AcceptanceSound(p, before, d, after)
       case DuplicateReplay =>
         checkpoint(before) == checkpoint(after) && d.duplicate && d.eventHash != "" && d.rejectionCode == ""
       case _ =>
         && checkpoint(before) == checkpoint(after)
         && d.eventSequence == None && d.eventHash == "" && d.outboxId == ""
         && !d.duplicate && d.rejectionCode != ""
  }

  lemma {:induction false} PendingPlusAcknowledged(outbox: seq<OutboxRow>)
    ensures CountAcknowledged(outbox, false) + CountAcknowledged(outbox, true) == |outbox|
  {
    if outbox != [] {
      PendingPlusAcknowledged(outbox[..|outbox| - 1]);
    }
  }

  lemma {:induction false} PendingGrows(h: Digests, s: seq<OutboxRow>, t: seq<OutboxRow>)
    requires |t| == |s| + 1 && t[..|s|] == s && !t[|s|].acknowledged
    ensures CountAcknowledged(t, false) == CountAcknowledged(s, false) + 1
  {
  }

  lemma ReachableSnapshotSound(h: Digests, s: Store, log: Log, snap: Snapshot)
    requires Represents(h, s, log) && SnapshotOf(h, s, snap)
    requires |h.genesis| == 64 && forall e :: |h.event(e)| == 64
    ensures SnapshotSound(snap)
  {
    RepresentedIsConsistent(h, s, log);
    PendingPlusAcknowledged(s.outbox);
  }

  /**
    The checker accepts every completed commit: `s` and `t` are the tables before and after a commit that
    returned a decision.
   */
  lemma RealTransitionAccepted(
    h: Digests, checkpoint: Snapshot -> string, s: Store, log: Log, t: Store, p: Proposal, d: Decision,
    before: Snapshot, after: Snapshot)
    requires Represents(h, s, log) && Represents(h, t, Committed(h, log, p, None))
    requires Committed(h, log, p, None) == log ==> t == s
    requires CommitOutcome(h, log, p, None) == Decided(d)
    requires SnapshotOf(h, s, before) && SnapshotOf(h, t, after)
    requires |h.genesis| == 64 && forall e :: |h.event(e)| == 64
    ensures TransitionSound(h.proposal, checkpoint, p, before, d, after)
  {
    ReachableSnapshotSound(h, s, log, before);
    ReachableSnapshotSound(h, t, Committed(h, log, p, None), after);
    if d.disposition == Accepted {
      AcceptanceIsSound(h, s, log, t, p, before, after);
    } else {
      assert before == after;
    }
  }

  lemma AcceptanceIsSound(
    h: Digests, s: Store, log: Log, t: Store, p: Proposal, before: Snapshot, after: Snapshot)
    requires Represents(h, s, log) && Represents(h, t, Extended(log, p)) && p.expectedParentHash == s.head
    requires SnapshotOf(h, s, before) && SnapshotOf(h, t, after)
    ensures AcceptanceSound(p, before, DecisionNaming(h, p, log.entries + [p], |log.entries|, false), after)
  {
    AcceptedExtends(h, s, log, t, p);
    PendingGrows(h, s.outbox, t.outbox);
  }

  lemma AcceptedExtends(h: Digests, s: Store, log: Log, t: Store, p: Proposal)
    requires Represents(h, s, log) && Represents(h, t, Extended(log, p))
    ensures |t.outbox| == |s.outbox| + 1 && t.outbox[..|s.outbox|] == s.outbox && !t.outbox[|s.outbox|].acknowledged
  {
    forall i | 0 <= i < |s.outbox|
      ensures t.outbox[i] == s.outbox[i]
    {
      assert t.outbox[i] == OutboxRowAt(h, Extended(log, p), i) && s.outbox[i] == OutboxRowAt(h, log, i);
      HeadAfterPrefix(h, log.entries, p, i + 1);
    }
    assert t.outbox[|s.outbox|] == OutboxRowAt(h, Extended(log, p), |s.outbox|);
  }

  datatype TransitionError =
    | StoreUnsound
    | ProposalBindingInvalid
    | AcceptedStaleParent
    | AcceptedCommitNotAtomic
    | AcceptedDecisionInvalid
    | DuplicateChangedStore
    | DuplicateDecisionInvalid
    | RejectionChangedStore
    | RejectionClaimedEvent
    | RejectionDecisionInvalid

  method ValidateCommitTransition(
    proposalHash: Proposal -> string, checkpoint: Snapshot -> string,
    p: Proposal, before: Snapshot, d: Decision, after: Snapshot)
    returns (errors: seq<TransitionError>)
    ensures errors == [] <==> TransitionSound(proposalHash, checkpoint, p, before, d, after)
  {
    errors := [];
    if !SnapshotSound(before) || !SnapshotSound(after) {
      errors := errors + [StoreUnsound];
    }
    if d.proposalHash != proposalHash(p) {
      errors := errors + [ProposalBindingInvalid];
    }
    match d.disposition
    case Accepted =>
      if before.headHash != p.expectedParentHash {
        errors := errors + [AcceptedStaleParent];
      }
      if !(after.eventCount == before.eventCount + 1 && after.commandCount == before.commandCount + 1
           && after.outboxCount == before.outboxCount + 1
           && after.pendingOutboxCount == before.pendingOutboxCount + 1) {
        errors := errors + [AcceptedCommitNotAtomic];
      }
      if d.eventSequence != Some(after.eventCount) || d.eventHash != after.headHash || d.headHash != after.headHash
        || d.duplicate || d.rejectionCode != "" {
        errors := errors + [AcceptedDecisionInvalid];
      }
    case DuplicateReplay =>
      if checkpoint(before) != checkpoint(after) {
        errors := errors + [DuplicateChangedStore];
      }
      if !d.duplicate || d.eventHash == "" || d.rejectionCode != "" {
        errors := errors + [DuplicateDecisionInvalid];
      }
    case _ =>
      if checkpoint(before) != checkpoint(after) {
        errors := errors + [RejectionChangedStore];
      }
      if d.eventSequence != None || d.eventHash != "" || d.outboxId != "" {
        errors := errors + [RejectionClaimedEvent];
      }
      if d.duplicate || d.rejectionCode == "" {
        errors := errors + [RejectionDecisionInvalid];
      }
  }

  /** Snapshot, commit, snapshot, check: a commit that returns a decision never fails the check. */
  method CommitAndCheck(adapter: SQLiteCommitAdapter, checkpoint: Snapshot -> string, p: Proposal)
    returns (outcome: Outcome, errors: seq<TransitionError>)
    requires adapter.Valid()
    requires |adapter.h.genesis| == 64 && forall e :: |adapter.h.event(e)| == 64
    modifies adapter
    ensures adapter.Valid() && adapter.log == Committed(adapter.h, old(adapter.log), p, None)
    ensures errors == []
  {
    ghost var s, log := adapter.Durable(), adapter.log;
    var before := TakeSnapshot(
      adapter.h, Store(adapter.head, adapter.events, adapter.commands, adapter.outbox));
    outcome := adapter.Commit(p, None);
    errors := [];
    if outcome.Decided? {
      var after := TakeSnapshot(
        adapter.h, Store(adapter.head, adapter.events, adapter.commands, adapter.outbox));
      RealTransitionAccepted(
        adapter.h, checkpoint, s, log, adapter.Durable(), p, outcome.decision, before, after);
      errors := ValidateCommitTransition(adapter.h.proposal, checkpoint, p, before, outcome.decision, after);
    }
  }
}
