/**
  The crash-safe commit store (commit_protocol.py and sqlite_commit_adapter.py).  A commit runs statement by
  statement on a working copy of the tables; a raised fault or a violated constraint drops the copy.
  The specification is an append-only log of proposals.
 */
module CommitStore {
  import opened Wrappers

  const CORE_REVISION := "design-c-commit-protocol-g0c-v1"

  datatype Proposal = Proposal(
    proposalId: string,
    idempotencyKey: string,
    commandCommitment: string,
    expectedParentHash: string,
    dependencyHash: string,
    eventType: string,
    resultCommitment: string,
    coreRevision: string,
    containsPayload: bool,
    externalEffectRequested: bool,
    canonicalWriteRequested: bool)

  // The hashed columns of an event.
  datatype EventPayload = EventPayload(
    sequence: int, parent: string, command: string, dependency: string, eventType: string, result: string,
    proposal: string)

  datatype EventRow = EventRow(payload: EventPayload, eventId: string, eventHash: string)

  datatype CommandRow = CommandRow(
    idempotencyKey: string, proposalHash: string, commandCommitment: string, dependencyHash: string,
    eventSequence: int, eventHash: string, outboxId: string)

  datatype OutboxRow = OutboxRow(
    outboxId: string, eventSequence: int, eventHash: string, acknowledged: bool, deliveryAttempts: nat)

  // The tables, rows in the order of insertion, and the head row of the metadata.
  datatype Store = Store(head: string, events: seq<EventRow>, commands: seq<CommandRow>, outbox: seq<OutboxRow>)

  // Digest functions, each on its kind of value.  Ids are truncated digests of an event hash.
  datatype Digests = Digests(
    genesis: string,
    proposal: Proposal -> string,
    event: EventPayload -> string,
    eventId: string -> string,
    outboxId: string -> string,
    events: seq<EventRow> -> string,
    outbox: seq<OutboxRow> -> string)

  datatype FaultPoint =
    | AfterBegin
    | AfterEventInsert
    | AfterCommandInsert
    | AfterOutboxInsert
    | BeforeCommit
    | AfterCommitBeforeReturn

  datatype Disposition = Accepted | DuplicateReplay | RejectedStaleParent | RejectedIdempotencyConflict

  datatype Decision = Decision(
    proposalHash: string,
    disposition: Disposition,
    eventSequence: Option<int>,
    eventHash: string,
    headHash: string,
    outboxId: string,
    duplicate: bool,
    rejectionCode: string)

  // How a call of `commit` ends: a decision, or one of three kinds of exception.
  datatype Outcome =
    | Decided(decision: Decision)
    | ProposalInvalid
    | ConstraintViolated
    | Faulted(point: FaultPoint)

  predicate ValidProposal(p: Proposal) {
    && p.coreRevision == CORE_REVISION
    && p.proposalId != "" && p.idempotencyKey != "" && p.eventType != ""
    && |p.commandCommitment| == |p.expectedParentHash| == |p.dependencyHash| == |p.resultCommitment| == 64
    && !p.containsPayload && !p.externalEffectRequested && !p.canonicalWriteRequested
  }

  // ---------- the append-only log ----------

  /** Accepted proposals, oldest first, and which of their outbox items are acknowledged. */
  datatype Log = Log(entries: seq<Proposal>, acks: seq<bool>)

  /** The head hash after the first `n` entries. */
  function HeadAfter(h: Digests, entries: seq<Proposal>, n: nat): string
    requires n <= |entries|
    decreases n, 0
  {
    if n == 0 then h.genesis else h.event(PayloadAt(h, entries, n - 1))
  }

  function PayloadAt(h: Digests, entries: seq<Proposal>, i: nat): EventPayload
    requires i < |entries|
    decreases i, 1
  {
    PayloadFor(h, entries[i], i + 1, HeadAfter(h, entries, i))
  }

  function PayloadFor(h: Digests, p: Proposal, sequence: int, parent: string): EventPayload {
    EventPayload(
      sequence, parent, p.commandCommitment, p.dependencyHash, p.eventType, p.resultCommitment, h.proposal(p))
  }

  function HashAt(h: Digests, entries: seq<Proposal>, i: nat): string
    requires i < |entries|
  {
    HeadAfter(h, entries, i + 1)
  }

  function Head(h: Digests, entries: seq<Proposal>): string {
    HeadAfter(h, entries, |entries|)
  }

  function NextHash(h: Digests, entries: seq<Proposal>, p: Proposal): string {
    h.event(PayloadFor(h, p, |entries| + 1, Head(h, entries)))
  }

  /** The position of the entry that owns an idempotency key. */
  function OwnerOf(entries: seq<Proposal>, key: string): (owner: Option<nat>)
    ensures owner.None? <==> forall i :: 0 <= i < |entries| ==> entries[i].idempotencyKey != key
    ensures owner.Some? ==> owner.value < |entries| && entries[owner.value].idempotencyKey == key
  {
    if entries == [] then None
    else if entries[|entries| - 1].idempotencyKey == key then Some(|entries| - 1)
    else OwnerOf(entries[..|entries| - 1], key)
  }

  predicate SameInput(h: Digests, a: Proposal, b: Proposal) {
    h.proposal(a) == h.proposal(b) && a.commandCommitment == b.commandCommitment && a.dependencyHash == b.dependencyHash
  }

  /** The new event would repeat a unique column of event `i`. */
  predicate EventClashAt(h: Digests, entries: seq<Proposal>, p: Proposal, i: nat)
    requires i < |entries|
  {
    || h.eventId(HashAt(h, entries, i)) == h.eventId(NextHash(h, entries, p))
    || HashAt(h, entries, i) == NextHash(h, entries, p)
    || h.proposal(entries[i]) == h.proposal(p)
  }

  predicate EventClash(h: Digests, entries: seq<Proposal>, p: Proposal) {
    exists i :: 0 <= i < |entries| && EventClashAt(h, entries, p, i)
  }

  /** The new outbox item would repeat the id of an earlier one. */
  predicate OutboxClash(h: Digests, entries: seq<Proposal>, p: Proposal) {
    exists i :: 0 <= i < |entries| && h.outboxId(HashAt(h, entries, i)) == h.outboxId(NextHash(h, entries, p))
  }

  function DecisionNaming(h: Digests, p: Proposal, entries: seq<Proposal>, i: nat, duplicate: bool): Decision
    requires i < |entries|
  {
    Decision(
      h.proposal(p), if duplicate then DuplicateReplay else Accepted, Some(i + 1), HashAt(h, entries, i),
      Head(h, entries), h.outboxId(HashAt(h, entries, i)), duplicate, "")
  }

  function Rejection(h: Digests, p: Proposal, disposition: Disposition, head: string, code: string): Decision {
    Decision(h.proposal(p), disposition, None, "", head, "", false, code)
  }

  const STALE_CODE := "expected_parent_does_not_match_head"
  const CONFLICT_CODE := "idempotency_key_reused_with_changed_input"

  /** The proposal is new, extends the head, and repeats no unique value: all that stops it is a fault. */
  predicate Admissible(h: Digests, entries: seq<Proposal>, p: Proposal) {
    && ValidProposal(p)
    && OwnerOf(entries, p.idempotencyKey).None?
    && p.expectedParentHash == Head(h, entries)
    && !EventClash(h, entries, p)
    && !OutboxClash(h, entries, p)
  }

  /** The fault is raised while the transaction is still open. */
  predicate Interrupts(fault: Option<FaultPoint>) {
    fault.Some? && fault.value != AfterCommitBeforeReturn
  }

  /** One commit as an atomic step of the log: the entry is appended iff nothing stops it. */
  function Committed(h: Digests, log: Log, p: Proposal, fault: Option<FaultPoint>): Log {
    if Admissible(h, log.entries, p) && !Interrupts(fault) then
      Log(log.entries + [p], log.acks + [false])
    else
      log
  }

  /** How the commit ends. */
  function CommitOutcome(h: Digests, log: Log, p: Proposal, fault: Option<FaultPoint>): Outcome {
    var entries := log.entries;
    var owner := OwnerOf(entries, p.idempotencyKey);
    if !ValidProposal(p) then ProposalInvalid
    else if fault == Some(AfterBegin) then Faulted(AfterBegin)
    else if owner.Some? then
      if SameInput(h, entries[owner.value], p) then Decided(DecisionNaming(h, p, entries, owner.value, true))
      else Decided(Rejection(h, p, RejectedIdempotencyConflict, Head(h, entries), CONFLICT_CODE))
    else if p.expectedParentHash != Head(h, entries) then
      Decided(Rejection(h, p, RejectedStaleParent, Head(h, entries), STALE_CODE))
    else if EventClash(h, entries, p) then ConstraintViolated
    else if fault == Some(AfterEventInsert) || fault == Some(AfterCommandInsert) then Faulted(fault.value)
    else if OutboxClash(h, entries, p) then ConstraintViolated
    else if fault.Some? then Faulted(fault.value)
    else Decided(DecisionNaming(h, p, entries + [p], |entries|, false))
  }

  /** The position of the outbox item with a given id. */
  function ItemOf(h: Digests, entries: seq<Proposal>, outboxId: string, n: nat): (item: Option<nat>)
    requires n <= |entries|
    ensures item.None? <==> forall i :: 0 <= i < n ==> h.outboxId(HashAt(h, entries, i)) != outboxId
    ensures item.Some? ==> item.value < n && h.outboxId(HashAt(h, entries, item.value)) == outboxId
  {
    if n == 0 then None
    else if h.outboxId(HashAt(h, entries, n - 1)) == outboxId then Some(n - 1)
    else ItemOf(h, entries, outboxId, n - 1)
  }

  // ---------- the tables that stand for a log ----------

  ghost predicate LogValid(h: Digests, log: Log) {
    && |log.acks| == |log.entries|
    && (forall i, j :: 0 <= i < j < |log.entries| ==> log.entries[i].idempotencyKey != log.entries[j].idempotencyKey)
    && (forall i, j :: 0 <= i < j < |log.entries| ==>
          h.outboxId(HashAt(h, log.entries, i)) != h.outboxId(HashAt(h, log.entries, j)))
  }

  function EventRowAt(h: Digests, entries: seq<Proposal>, i: nat): EventRow
    requires i < |entries|
  {
    EventRow(PayloadAt(h, entries, i), h.eventId(HashAt(h, entries, i)), HashAt(h, entries, i))
  }

  function CommandRowAt(h: Digests, entries: seq<Proposal>, i: nat): CommandRow
    requires i < |entries|
  {
    CommandRow(
      entries[i].idempotencyKey, h.proposal(entries[i]), entries[i].commandCommitment, entries[i].dependencyHash,
      i + 1, HashAt(h, entries, i), h.outboxId(HashAt(h, entries, i)))
  }

  function OutboxRowAt(h: Digests, log: Log, i: nat): OutboxRow
    requires i < |log.entries| == |log.acks|
  {
    var hash := HashAt(h, log.entries, i);
    OutboxRow(h.outboxId(hash), i + 1, hash, log.acks[i], if log.acks[i] then 1 else 0)
  }

  /** The store holds one event, one command and one outbox row for every entry of the log, and nothing else. */
  ghost predicate Represents(h: Digests, s: Store, log: Log) {
    && LogValid(h, log)
    && |s.events| == |s.commands| == |s.outbox| == |log.entries|
    && s.head == Head(h, log.entries)
    && (forall i :: 0 <= i < |s.events| ==> s.events[i] == EventRowAt(h, log.entries, i))
    && (forall i :: 0 <= i < |s.commands| ==> s.commands[i] == CommandRowAt(h, log.entries, i))
    && (forall i :: 0 <= i < |s.outbox| ==> s.outbox[i] == OutboxRowAt(h, log, i))
  }

  lemma {:induction false} HeadAfterPrefix(h: Digests, entries: seq<Proposal>, p: Proposal, n: nat)
    requires n <= |entries|
    ensures HeadAfter(h, entries + [p], n) == HeadAfter(h, entries, n)
    ensures n < |entries| ==> PayloadAt(h, entries + [p], n) == PayloadAt(h, entries, n)
  {
    if 0 < n {
      HeadAfterPrefix(h, entries, p, n - 1);
    }
  }

  // ---------- SQL statements on the working copy ----------

  predicate EventRepeats(e: EventRow, row: EventRow) {
    || e.payload.sequence == row.payload.sequence
    || e.eventId == row.eventId
    || e.eventHash == row.eventHash
    || e.payload.proposal == row.payload.proposal
  }

  /** `INSERT INTO events`: the sequence, the id, the hash and the proposal hash are unique. */
  function InsertEvent(w: Store, row: EventRow): Option<Store> {
    if exists e :: e in w.events && EventRepeats(e, row) then None else Some(w.(events := w.events + [row]))
  }

  /** `INSERT INTO commands`: the key is unique and the event must exist. */
  function InsertCommand(w: Store, row: CommandRow): Option<Store> {
    if (exists c :: c in w.commands && c.idempotencyKey == row.idempotencyKey)
      || !(exists e :: e in w.events && e.payload.sequence == row.eventSequence)
    then None else Some(w.(commands := w.commands + [row]))
  }

  /** `INSERT INTO outbox`: the id and the event sequence are unique and the event must exist. */
  function InsertOutbox(w: Store, row: OutboxRow): Option<Store> {
    if (exists o :: o in w.outbox && (o.outboxId == row.outboxId || o.eventSequence == row.eventSequence))
      || !(exists e :: e in w.events && e.payload.sequence == row.eventSequence)
    then None else Some(w.(outbox := w.outbox + [row]))
  }

  /** `SELECT COALESCE(MAX(event_sequence),0)+1 FROM events` */
  function NextSequence(events: seq<EventRow>): int {
    if events == [] then 1 else
    var before := NextSequence(events[..|events| - 1]);
    var last := events[|events| - 1].payload.sequence + 1;
    if before < last || |events| == 1 then last else before
  }

  /** `SELECT * FROM commands WHERE idempotency_key=?` */
  function FindCommand(commands: seq<CommandRow>, key: string): Option<CommandRow> {
    if commands == [] then None
    else if commands[|commands| - 1].idempotencyKey == key then Some(commands[|commands| - 1])
    else FindCommand(commands[..|commands| - 1], key)
  }

  lemma {:induction false} NextSequenceCounts(events: seq<EventRow>)
    requires forall i :: 0 <= i < |events| ==> events[i].payload.sequence == i + 1
    ensures NextSequence(events) == |events| + 1
  {
    if events != [] {
      NextSequenceCounts(events[..|events| - 1]);
    }
  }

  lemma {:induction false} FindCommandIsOwner(
      h: Digests, commands: seq<CommandRow>, entries: seq<Proposal>, n: nat, key: string)
    requires n <= |entries| && n <= |commands|
    requires forall i :: 0 <= i < n ==> commands[i] == CommandRowAt(h, entries, i)
    ensures
      var found, owner := FindCommand(commands[..n], key), OwnerOf(entries[..n], key);
      if owner.None? then found == None else found == Some(CommandRowAt(h, entries, owner.value))
  {
    if 0 < n {
      assert commands[..n][..n - 1] == commands[..n - 1] && entries[..n][..n - 1] == entries[..n - 1];
      FindCommandIsOwner(h, commands, entries, n - 1, key);
    }
  }

  // ---------- each statement extends the represented log ----------

  ghost function Extended(log: Log, p: Proposal): Log {
    Log(log.entries + [p], log.acks + [false])
  }

  lemma NewRow(h: Digests, entries: seq<Proposal>, p: Proposal)
    ensures PayloadAt(h, entries + [p], |entries|) == PayloadFor(h, p, |entries| + 1, Head(h, entries))
    ensures HashAt(h, entries + [p], |entries|) == NextHash(h, entries, p)
    ensures Head(h, entries + [p]) == NextHash(h, entries, p)
  {
    HeadAfterPrefix(h, entries, p, |entries|);
  }

  /** The UNIQUE constraints of `events` fire exactly on an event clash; otherwise the row of the entry is added. */
  lemma EventInsertion(h: Digests, s: Store, log: Log, p: Proposal)
    requires Represents(h, s, log)
    ensures
      var row := EventRowAt(h, log.entries + [p], |log.entries|);
      InsertEvent(s, row) == if EventClash(h, log.entries, p) then None else Some(s.(events := s.events + [row]))
  {
    var row := EventRowAt(h, log.entries + [p], |log.entries|);
    NewRow(h, log.entries, p);
    if i :| 0 <= i < |log.entries| && EventClashAt(h, log.entries, p, i) {
      assert s.events[i] in s.events && EventRepeats(s.events[i], row);
    }
    if e :| e in s.events && EventRepeats(e, row) {
      var i :| 0 <= i < |s.events| && s.events[i] == e;
      assert e == EventRowAt(h, log.entries, i);
      assert EventClashAt(h, log.entries, p, i);
    }
  }

  lemma CommandInsertion(h: Digests, s: Store, w: Store, log: Log, p: Proposal)
    requires Represents(h, s, log) && OwnerOf(log.entries, p.idempotencyKey).None?
    requires w == s.(events := s.events + [EventRowAt(h, log.entries + [p], |log.entries|)])
    ensures InsertCommand(w, CommandRowAt(h, log.entries + [p], |log.entries|)).Some?
  {
    var row := CommandRowAt(h, log.entries + [p], |log.entries|);
    assert w.events[|s.events|] in w.events && w.events[|s.events|].payload.sequence == row.eventSequence;
    forall c | c in w.commands
      ensures c.idempotencyKey != row.idempotencyKey
    {
      var i :| 0 <= i < |s.commands| && s.commands[i] == c;
      assert c == CommandRowAt(h, log.entries, i);
    }
  }

  /** The constraints of `outbox` fire exactly on an outbox clash. */
  lemma OutboxInsertion(h: Digests, s: Store, w: Store, log: Log, p: Proposal)
    requires Represents(h, s, log) && w.outbox == s.outbox
    requires w.events == s.events + [EventRowAt(h, log.entries + [p], |log.entries|)]
    ensures InsertOutbox(w, OutboxRowAt(h, Extended(log, p), |log.entries|)).None? <==> OutboxClash(h, log.entries, p)
  {
    var row := OutboxRowAt(h, Extended(log, p), |log.entries|);
    NewRow(h, log.entries, p);
    assert w.events[|s.events|] in w.events && w.events[|s.events|].payload.sequence == row.eventSequence;
    if i :| 0 <= i < |log.entries| && h.outboxId(HashAt(h, log.entries, i)) == h.outboxId(NextHash(h, log.entries, p)) {
      assert s.outbox[i] in s.outbox && s.outbox[i] == OutboxRowAt(h, log, i);
    }
    if o :| o in w.outbox && (o.outboxId == row.outboxId || o.eventSequence == row.eventSequence) {
      var i :| 0 <= i < |s.outbox| && s.outbox[i] == o;
      assert o == OutboxRowAt(h, log, i);
    }
  }

  /** All three inserts and the head update together represent the extended log. */
  lemma InsertsRepresent(h: Digests, s: Store, w: Store, log: Log, p: Proposal)
    requires Represents(h, s, log) && OwnerOf(log.entries, p.idempotencyKey).None? && !OutboxClash(h, log.entries, p)
    requires w.events == s.events + [EventRowAt(h, log.entries + [p], |log.entries|)]
    requires w.commands == s.commands + [CommandRowAt(h, log.entries + [p], |log.entries|)]
    requires w.outbox == s.outbox + [OutboxRowAt(h, Extended(log, p), |log.entries|)]
    requires w.head == NextHash(h, log.entries, p)
    ensures Represents(h, w, Extended(log, p))
  {
    NewRow(h, log.entries, p);
    forall i | 0 <= i < |log.entries|
      ensures HashAt(h, log.entries + [p], i) == HashAt(h, log.entries, i)
      ensures PayloadAt(h, log.entries + [p], i) == PayloadAt(h, log.entries, i)
    {
      HeadAfterPrefix(h, log.entries, p, i);
      HeadAfterPrefix(h, log.entries, p, i + 1);
    }
  }

  /** The look-ups that may answer a proposal without writing anything. */
  method AnswerWithoutWriting(h: Digests, w: Store, p: Proposal, ghost fault: Option<FaultPoint>, ghost log: Log)
    returns (answer: Option<Decision>)
    requires Represents(h, w, log) && ValidProposal(p) && fault != Some(AfterBegin)
    ensures answer.Some? ==> CommitOutcome(h, log, p, fault) == Decided(answer.value)
    ensures answer.Some? ==> !Admissible(h, log.entries, p)
    ensures answer.None? ==> OwnerOf(log.entries, p.idempotencyKey).None? && p.expectedParentHash == w.head
  {
    var existing := FindCommand(w.commands, p.idempotencyKey);
    FindCommandIsOwner(h, w.commands, log.entries, |w.commands|, p.idempotencyKey);
    assert w.commands[..|w.commands|] == w.commands && log.entries[..|w.commands|] == log.entries;
    if existing.Some? {
      if existing.value.proposalHash != h.proposal(p)
        || existing.value.commandCommitment != p.commandCommitment
        || existing.value.dependencyHash != p.dependencyHash
      {
        return Some(Rejection(h, p, RejectedIdempotencyConflict, w.head, CONFLICT_CODE));
      }
      return Some(Decision(
        h.proposal(p), DuplicateReplay, Some(existing.value.eventSequence), existing.value.eventHash,
        w.head, existing.value.outboxId, true, ""));
    }
    if p.expectedParentHash != w.head {
      return Some(Rejection(h, p, RejectedStaleParent, w.head, STALE_CODE));
    }
    return None;
  }

  /** The insertions into `events` and `commands`, on a working copy of the tables. */
  method InsertEventAndCommand(h: Digests, begun: Store, p: Proposal, fault: Option<FaultPoint>, ghost log: Log)
    returns (r: Result<Store, Outcome>, sequence: int, eventHash: string)
    requires Represents(h, begun, log) && ValidProposal(p)
    requires OwnerOf(log.entries, p.idempotencyKey).None? && p.expectedParentHash == begun.head
    requires fault != Some(AfterBegin)
    ensures r.Failure? <==>
      EventClash(h, log.entries, p) || fault == Some(AfterEventInsert) || fault == Some(AfterCommandInsert)
    ensures r.Failure? ==> r.error == CommitOutcome(h, log, p, fault)
    ensures r.Success? ==> r.value == begun.(
      events := begun.events + [EventRowAt(h, log.entries + [p], |log.entries|)],
      commands := begun.commands + [CommandRowAt(h, log.entries + [p], |log.entries|)])
    ensures sequence == |log.entries| + 1 && eventHash == NextHash(h, log.entries, p)
  {
    NextSequenceCounts(begun.events);
    NewRow(h, log.entries, p);
    sequence := NextSequence(begun.events);
    var payload := PayloadFor(h, p, sequence, begun.head);
    eventHash := h.event(payload);
    EventInsertion(h, begun, log, p);
    var inserted := InsertEvent(begun, EventRow(payload, h.eventId(eventHash), eventHash));
    if inserted.None? {
      return Failure(ConstraintViolated), sequence, eventHash;
    }
    var w := inserted.value;
    if fault == Some(AfterEventInsert) {
      return Failure(Faulted(AfterEventInsert)), sequence, eventHash;
    }
    CommandInsertion(h, begun, w, log, p);
    inserted := InsertCommand(w, CommandRow(
      p.idempotencyKey, h.proposal(p), p.commandCommitment, p.dependencyHash,
      sequence, eventHash, h.outboxId(eventHash)));
    if inserted.None? {
      return Failure(ConstraintViolated), sequence, eventHash;
    }
    if fault == Some(AfterCommandInsert) {
      return Failure(Faulted(AfterCommandInsert)), sequence, eventHash;
    }
    r := Success(inserted.value);
  }

  /** The four statements of an accepted commit, on a working copy of the tables. */
  method RunStatements(h: Digests, begun: Store, p: Proposal, fault: Option<FaultPoint>, ghost log: Log)
    returns (r: Result<Store, Outcome>, sequence: int)
    requires Represents(h, begun, log) && ValidProposal(p)
    requires OwnerOf(log.entries, p.idempotencyKey).None? && p.expectedParentHash == begun.head
    requires fault != Some(AfterBegin)
    ensures r.Success? <==> Admissible(h, log.entries, p) && !Interrupts(fault)
    ensures r.Success? ==> Represents(h, r.value, Extended(log, p))
    ensures sequence == |log.entries| + 1
    ensures r.Failure? ==> r.error == CommitOutcome(h, log, p, fault)
  {
    var eventHash;
    r, sequence, eventHash := InsertEventAndCommand(h, begun, p, fault, log);
    if r.Failure? {
      return;
    }
    var w := r.value;
    NewRow(h, log.entries, p);
    OutboxInsertion(h, begun, w, log, p);
    var inserted := InsertOutbox(w, OutboxRow(h.outboxId(eventHash), sequence, eventHash, false, 0));
    if inserted.None? {
      return Failure(ConstraintViolated), sequence;
    }
    w := inserted.value;
    if fault == Some(AfterOutboxInsert) {
      return Failure(Faulted(AfterOutboxInsert)), sequence;
    }
    w := w.(head := eventHash);
    if fault == Some(BeforeCommit) {
      return Failure(Faulted(BeforeCommit)), sequence;
    }
    InsertsRepresent(h, begun, w, log, p);
    return Success(w), sequence;
  }

  // ---------- the adapter ----------

  class SQLiteCommitAdapter {
    const h: Digests
    // the durable tables
    var head: string
    var events: seq<EventRow>
    var commands: seq<CommandRow>
    var outbox: seq<OutboxRow>
    // the log they stand for
    ghost var log: Log

    ghost function Durable(): Store
      reads this
    {
      Store(head, events, commands, outbox)
    }

    ghost predicate Valid()
      reads this
    {
      Represents(h, Durable(), log)
    }

    constructor (h: Digests)
      ensures this.h == h && Valid() && log == Log([], [])
    {
      this.h := h;
      head, events, commands, outbox := h.genesis, [], [], [];
      log := Log([], []);
    }

    /** `commit`: whatever happens on the way, the log takes the whole proposal or nothing. */
    method Commit(p: Proposal, fault: Option<FaultPoint>) returns (outcome: Outcome)
      requires Valid()
      modifies this
      ensures Valid()
      ensures log == Committed(h, old(log), p, fault)
      ensures outcome == CommitOutcome(h, old(log), p, fault)
      ensures log == old(log) ==> Durable() == old(Durable())
    {
      if !ValidProposal(p) {
        return ProposalInvalid;
      }
      var w := Store(head, events, commands, outbox);
      if fault == Some(AfterBegin) {
        return Faulted(AfterBegin);
      }
      var answer := AnswerWithoutWriting(h, w, p, fault, log);
      if answer.Some? {
        return Decided(answer.value);
      }
      var run, sequence := RunStatements(h, w, p, fault, log);
      if run.Failure? {
        return run.error;
      }
      w := run.value;
      head, events, commands, outbox := w.head, w.events, w.commands, w.outbox;
      log := Extended(log, p);
      NewRow(h, old(log.entries), p);
      if fault == Some(AfterCommitBeforeReturn) {
        return Faulted(AfterCommitBeforeReturn);
      }
      return Decided(Decision(
        h.proposal(p), Accepted, Some(sequence), w.head, w.head, h.outboxId(w.head), false, ""));
    }

    /** `acknowledge_outbox` marks the item with the given id; doing so again changes nothing. */
    method AcknowledgeOutbox(outboxId: string) returns (found: bool)
      requires Valid()
      modifies this
      ensures Valid()
      ensures log == Acknowledged(h, old(log), outboxId)
      ensures found <==> ItemOf(h, log.entries, outboxId, |log.entries|).Some?
    {
      var k := 0;
      while k < |outbox| && outbox[k].outboxId != outboxId
        invariant k <= |outbox|
        invariant forall i :: 0 <= i < k ==> outbox[i].outboxId != outboxId
      {
        k := k + 1;
      }
      ghost var item := ItemOf(h, log.entries, outboxId, |log.entries|);
      if k == |outbox| {
        forall i | 0 <= i < |log.entries|
          ensures h.outboxId(HashAt(h, log.entries, i)) != outboxId
        {
          assert outbox[i] == OutboxRowAt(h, log, i);
        }
        return false;
      }
      assert outbox[k] == OutboxRowAt(h, log, k);
      assert item.Some? && item.value == k;
      if !outbox[k].acknowledged {
        outbox := outbox[k := outbox[k].(acknowledged := true, deliveryAttempts := outbox[k].deliveryAttempts + 1)];
      }
      log := Log(log.entries, log.acks[k := true]);
      return true;
    }
  }

  function Acknowledged(h: Digests, log: Log, outboxId: string): Log
    requires |log.acks| == |log.entries|
  {
    match ItemOf(h, log.entries, outboxId, |log.entries|)
    case None => log
    case Some(i) => Log(log.entries, log.acks[i := true])
  }

  // ---------- runs ----------

  // A crash is a commit with a fault; recovery reopens the durable tables, which changes nothing.
  datatype Operation = Commit(proposal: Proposal, fault: Option<FaultPoint>) | Acknowledge(outboxId: string)

  ghost function Step(h: Digests, log: Log, op: Operation): Log
    requires |log.acks| == |log.entries|
  {
    match op
    case Commit(p, fault) => Committed(h, log, p, fault)
    case Acknowledge(id) => Acknowledged(h, log, id)
  }

  /** The log after the first `n` operations of a run. */
  ghost function LogAfter(h: Digests, ops: seq<Operation>, n: nat): (log: Log)
    requires n <= |ops|
    ensures |log.acks| == |log.entries|
  {
    if n == 0 then Log([], []) else Step(h, LogAfter(h, ops, n - 1), ops[n - 1])
  }

  /** The decision that operation `k` of a run returns, if it returns one. */
  ghost function DecisionOf(h: Digests, ops: seq<Operation>, k: nat): Option<Decision>
    requires k < |ops|
  {
    if ops[k].Commit? && CommitOutcome(h, LogAfter(h, ops, k), ops[k].proposal, ops[k].fault).Decided? then
      Some(CommitOutcome(h, LogAfter(h, ops, k), ops[k].proposal, ops[k].fault).decision)
    else
      None
  }

  lemma {:induction false} LogOnlyGrows(h: Digests, ops: seq<Operation>, m: nat, n: nat)
    requires m <= n <= |ops|
    ensures LogAfter(h, ops, m).entries <= LogAfter(h, ops, n).entries
  {
    if m < n {
      LogOnlyGrows(h, ops, m, n - 1);
    }
  }

  lemma {:induction false} RunKeepsLogValid(h: Digests, ops: seq<Operation>, n: nat)
    requires n <= |ops|
    ensures LogValid(h, LogAfter(h, ops, n))
  {
    if 0 < n {
      RunKeepsLogValid(h, ops, n - 1);
      var log := LogAfter(h, ops, n - 1);
      if ops[n - 1].Commit? && Admissible(h, log.entries, ops[n - 1].proposal) {
        ExtendedValid(h, log, ops[n - 1].proposal);
      }
    }
  }

  lemma ExtendedValid(h: Digests, log: Log, p: Proposal)
    requires LogValid(h, log) && OwnerOf(log.entries, p.idempotencyKey).None? && !OutboxClash(h, log.entries, p)
    ensures LogValid(h, Extended(log, p))
  {
    NewRow(h, log.entries, p);
    forall i | 0 <= i < |log.entries|
      ensures HashAt(h, log.entries + [p], i) == HashAt(h, log.entries, i)
    {
      HeadAfterPrefix(h, log.entries, p, i + 1);
    }
  }

  lemma {:induction false} HeadAfterExtends(h: Digests, a: seq<Proposal>, b: seq<Proposal>, n: nat)
    requires a <= b && n <= |a|
    ensures HeadAfter(h, a, n) == HeadAfter(h, b, n)
  {
    if 0 < n {
      HeadAfterExtends(h, a, b, n - 1);
    }
  }

  /** The decision names entry `i`, which owns the key. */
  ghost predicate Names(h: Digests, entries: seq<Proposal>, key: string, d: Decision, i: nat) {
    && i < |entries| && entries[i].idempotencyKey == key
    && d.eventSequence == Some(i + 1)
    && d.eventHash == HashAt(h, entries, i)
    && d.outboxId == h.outboxId(HashAt(h, entries, i))
  }

  /** A decision that names an event keeps naming the owner of its key, whatever is appended later. */
  lemma DecisionNamesOwner(h: Digests, ops: seq<Operation>, k: nat, n: nat) returns (i: nat)
    requires k < n <= |ops| && DecisionOf(h, ops, k).Some?
    requires DecisionOf(h, ops, k).value.disposition in {Accepted, DuplicateReplay}
    ensures Names(h, LogAfter(h, ops, n).entries, ops[k].proposal.idempotencyKey, DecisionOf(h, ops, k).value, i)
  {
    var log, now := LogAfter(h, ops, k), LogAfter(h, ops, n).entries;
    var afterwards := LogAfter(h, ops, k + 1).entries;
    LogOnlyGrows(h, ops, k + 1, n);
    var owner := OwnerOf(log.entries, ops[k].proposal.idempotencyKey);
    i := if owner.Some? then owner.value else |log.entries|;
    HeadAfterExtends(h, afterwards, now, i + 1);
    assert now[i] == afterwards[i];
  }

  lemma OwnerIsUnique(h: Digests, log: Log, key: string, a: Decision, i: nat, b: Decision, j: nat)
    requires LogValid(h, log) && Names(h, log.entries, key, a, i) && Names(h, log.entries, key, b, j)
    ensures a.eventSequence == b.eventSequence && a.eventHash == b.eventHash && a.outboxId == b.outboxId
  {
  }

  lemma OwnedKeyIsDuplicate(h: Digests, log: Log, p: Proposal, fault: Option<FaultPoint>, i: nat)
    requires i < |log.entries| && log.entries[i].idempotencyKey == p.idempotencyKey
    requires CommitOutcome(h, log, p, fault).Decided?
    ensures CommitOutcome(h, log, p, fault).decision.disposition != Accepted
  {
  }

  /** A decision of the run that names an event for the key. */
  ghost predicate NamesEvent(h: Digests, ops: seq<Operation>, k: nat, key: string, d: Decision)
    requires k < |ops|
  {
    && DecisionOf(h, ops, k) == Some(d)
    && ops[k].proposal.idempotencyKey == key
    && d.disposition in {Accepted, DuplicateReplay}
  }

  /** Exactly once: over every run, all decisions that name an event for a key name the same one. */
  lemma KeyNamesOneEvent(h: Digests, ops: seq<Operation>, key: string, j: nat, a: Decision, k: nat, b: Decision)
    requires j < |ops| && k < |ops| && NamesEvent(h, ops, j, key, a) && NamesEvent(h, ops, k, key, b)
    ensures a.eventSequence == b.eventSequence && a.eventHash == b.eventHash && a.outboxId == b.outboxId
  {
    var i := DecisionNamesOwner(h, ops, j, |ops|);
    var i' := DecisionNamesOwner(h, ops, k, |ops|);
    RunKeepsLogValid(h, ops, |ops|);
    OwnerIsUnique(h, LogAfter(h, ops, |ops|), key, a, i, b, i');
  }

  /** Of the decisions that name an event for a key, only the first can be an acceptance. */
  lemma KeyAcceptedOnce(h: Digests, ops: seq<Operation>, key: string, j: nat, a: Decision, k: nat, b: Decision)
    requires j < k < |ops| && NamesEvent(h, ops, j, key, a) && NamesEvent(h, ops, k, key, b)
    ensures b.disposition == DuplicateReplay
  {
    var i := DecisionNamesOwner(h, ops, j, k);
    OwnedKeyIsDuplicate(h, LogAfter(h, ops, k), ops[k].proposal, ops[k].fault, i);
  }

  /**
    A call that crashed and is tried again without a fault leaves the log that one undisturbed call leaves.
    The retry is answered as if the crashed call had never been made, unless the transaction was already
    complete; then it is answered as a duplicate of the entry that the crashed call appended.
   */
  lemma CrashThenRetry(h: Digests, log: Log, p: Proposal, fault: Option<FaultPoint>)
    requires LogValid(h, log) && CommitOutcome(h, log, p, fault).Faulted?
    ensures
      var crashed := Committed(h, log, p, fault);
      && Committed(h, crashed, p, None) == Committed(h, log, p, None)
      && CommitOutcome(h, crashed, p, None) ==
           (if fault == Some(AfterCommitBeforeReturn) then
              Decided(DecisionNaming(h, p, log.entries + [p], |log.entries|, true))
            else
              CommitOutcome(h, log, p, None))
  {
    if fault == Some(AfterCommitBeforeReturn) {
      var entries := log.entries + [p];
      assert OwnerOf(entries, p.idempotencyKey).value == |log.entries|;
    }
  }
}
