/**
  The double-entry journal (finance_journal.py): transactional posting, and the log of proposals that the
  tables stand for.
 */
module FinanceJournal {
  import opened Wrappers

  const REVISION := "design-c-finance-journal-g0c-v1"

  datatype Entry = Entry(account: string, debitCents: int, creditCents: int)

  datatype Proposal = Proposal(
    transactionId: string,
    idempotencyKey: string,
    stage: string,
    expectedParentHash: string,
    entries: seq<Entry>,
    sourceEventCommitment: string,
    revision: string,
    externalEffectRequested: bool,
    canonicalWriteRequested: bool)

  // What a transaction hash is the digest of.
  datatype Payload = Payload(
    sequence: int, parent: string, stage: string, entries: seq<Entry>, source: string, proposal: string)

  datatype TransactionRow = TransactionRow(
    sequence: int, transactionId: string, idempotencyKey: string, proposalHash: string, stage: string,
    parentHash: string, transactionHash: string, source: string)

  datatype EntryRow = EntryRow(sequence: int, ordinal: int, entry: Entry)

  datatype Tables = Tables(head: string, transactions: seq<TransactionRow>, entries: seq<EntryRow>)

  datatype Digests = Digests(genesis: string, proposal: Proposal -> string, transaction: Payload -> string)

  datatype FaultPoint =
    AfterBegin | AfterTransactionInsert | AfterEntriesInsert | BeforeCommit | AfterCommitBeforeReturn

  datatype Disposition = Accepted | DuplicateReplay | RejectedStaleParent | RejectedIdempotencyConflict

  datatype Decision = Decision(
    disposition: Disposition, proposalHash: string, transactionSequence: Option<int>, transactionHash: string,
    headHash: string, rejectionCode: string, duplicate: bool)

  datatype Outcome =
    | Decided(decision: Decision)
    | ProposalInvalid
    | ConstraintViolated
    | Faulted(point: FaultPoint)

  const STALE_CODE := "expected_parent_does_not_match_head"
  const CONFLICT_CODE := "idempotency_key_reused_with_changed_input"

  // ---------- proposals ----------

  function Debits(entries: seq<Entry>): int {
    if entries == [] then 0 else Debits(entries[..|entries| - 1]) + entries[|entries| - 1].debitCents
  }

  function Credits(entries: seq<Entry>): int {
    if entries == [] then 0 else Credits(entries[..|entries| - 1]) + entries[|entries| - 1].creditCents
  }

  predicate ValidEntry(e: Entry) {
    && e.account != "" && 0 <= e.debitCents && 0 <= e.creditCents
    && (e.debitCents == 0) != (e.creditCents == 0)
  }

  /** What `_validate` lets through. */
  predicate ValidProposal(p: Proposal) {
    && p.revision == REVISION
    && p.transactionId != "" && p.idempotencyKey != ""
    && |p.expectedParentHash| == |p.sourceEventCommitment| == 64
    && p.entries != []
    && 0 < Debits(p.entries) == Credits(p.entries)
    && (forall e :: e in p.entries ==> ValidEntry(e))
    && !p.externalEffectRequested && !p.canonicalWriteRequested
  }

  // ---------- the log ----------

  function HeadAfter(h: Digests, log: seq<Proposal>, n: nat): string
    requires n <= |log|
  {
    if n == 0 then h.genesis else h.transaction(PayloadFor(h, log[n - 1], n, HeadAfter(h, log, n - 1)))
  }

  function PayloadFor(h: Digests, p: Proposal, sequence: int, parent: string): Payload {
    Payload(sequence, parent, p.stage, p.entries, p.sourceEventCommitment, h.proposal(p))
  }

  function Head(h: Digests, log: seq<Proposal>): string {
    HeadAfter(h, log, |log|)
  }

  function NextHash(h: Digests, log: seq<Proposal>, p: Proposal): string {
    h.transaction(PayloadFor(h, p, |log| + 1, Head(h, log)))
  }

  function OwnerOf(log: seq<Proposal>, key: string): (owner: Option<nat>)
    ensures owner.None? <==> forall i :: 0 <= i < |log| ==> log[i].idempotencyKey != key
    ensures owner.Some? ==> owner.value < |log| && log[owner.value].idempotencyKey == key
  {
    if log == [] then None
    else if log[|log| - 1].idempotencyKey == key then Some(|log| - 1)
    else OwnerOf(log[..|log| - 1], key)
  }

  /** The posting would repeat the id or the hash of transaction `i`. */
  predicate ClashAt(h: Digests, log: seq<Proposal>, p: Proposal, i: nat)
    requires i < |log|
  {
    log[i].transactionId == p.transactionId || HeadAfter(h, log, i + 1) == NextHash(h, log, p)
  }

  predicate Clash(h: Digests, log: seq<Proposal>, p: Proposal) {
    exists i :: 0 <= i < |log| && ClashAt(h, log, p, i)
  }

  predicate Admissible(h: Digests, log: seq<Proposal>, p: Proposal) {
    && ValidProposal(p)
    && OwnerOf(log, p.idempotencyKey).None?
    && p.expectedParentHash == Head(h, log)
    && !Clash(h, log, p)
  }

  predicate Interrupts(fault: Option<FaultPoint>) {
    fault.Some? && fault.value != AfterCommitBeforeReturn
  }

  /** One posting as an atomic step of the log. */
  function Posted(h: Digests, log: seq<Proposal>, p: Proposal, fault: Option<FaultPoint>): seq<Proposal> {
    if Admissible(h, log, p) && !Interrupts(fault) then log + [p] else log
  }

  function Named(h: Digests, p: Proposal, disposition: Disposition, log: seq<Proposal>, i: nat): Decision
    requires i < |log|
  {
    Decision(
      disposition, h.proposal(p), Some(i + 1), HeadAfter(h, log, i + 1), Head(h, log),
      "", disposition == DuplicateReplay)
  }

  function Rejection(h: Digests, p: Proposal, disposition: Disposition, head: string, code: string): Decision {
    Decision(disposition, h.proposal(p), None, "", head, code, false)
  }

  function PostOutcome(h: Digests, log: seq<Proposal>, p: Proposal, fault: Option<FaultPoint>): Outcome {
    var owner := OwnerOf(log, p.idempotencyKey);
    if !ValidProposal(p) then ProposalInvalid
    else if fault == Some(AfterBegin) then Faulted(AfterBegin)
    else if owner.Some? then
      if h.proposal(log[owner.value]) == h.proposal(p) then Decided(Named(h, p, DuplicateReplay, log, owner.value))
      else Decided(Rejection(h, p, RejectedIdempotencyConflict, Head(h, log), CONFLICT_CODE))
    else if p.expectedParentHash != Head(h, log) then
      Decided(Rejection(h, p, RejectedStaleParent, Head(h, log), STALE_CODE))
    else if Clash(h, log, p) then ConstraintViolated
    else if fault.Some? then Faulted(fault.value)
    else Decided(Named(h, p, Accepted, log + [p], |log|))
  }

  // ---------- the tables that stand for a log ----------

  function TransactionAt(h: Digests, log: seq<Proposal>, i: nat): TransactionRow
    requires i < |log|
  {
    TransactionRow(
      i + 1, log[i].transactionId, log[i].idempotencyKey, h.proposal(log[i]), log[i].stage,
      HeadAfter(h, log, i), HeadAfter(h, log, i + 1), log[i].sourceEventCommitment)
  }

  /** The rows inserted for one proposal. */
  function EntryRows(sequence: int, entries: seq<Entry>): (rows: seq<EntryRow>)
    ensures |rows| == |entries|
    ensures forall k :: 0 <= k < |rows| ==> rows[k] == EntryRow(sequence, k + 1, entries[k])
  {
    seq(|entries|, k requires 0 <= k < |entries| => EntryRow(sequence, k + 1, entries[k]))
  }

  function AllEntryRows(log: seq<Proposal>, n: nat): seq<EntryRow>
    requires n <= |log|
  {
    if n == 0 then [] else AllEntryRows(log, n - 1) + EntryRows(n, log[n - 1].entries)
  }

  ghost predicate LogValid(log: seq<Proposal>) {
    && (forall i :: 0 <= i < |log| ==> ValidProposal(log[i]))
    && (forall i, j :: 0 <= i < j < |log| ==> log[i].idempotencyKey != log[j].idempotencyKey)
    && (forall i, j :: 0 <= i < j < |log| ==> log[i].transactionId != log[j].transactionId)
  }

  ghost predicate Represents(h: Digests, t: Tables, log: seq<Proposal>) {
    && LogValid(log)
    && |t.transactions| == |log|
    && t.head == Head(h, log)
    && (forall i :: 0 <= i < |log| ==> t.transactions[i] == TransactionAt(h, log, i))
    && t.entries == AllEntryRows(log, |log|)
  }

  lemma {:induction false} PrefixFacts(h: Digests, log: seq<Proposal>, p: Proposal, n: nat)
    requires n <= |log|
    ensures HeadAfter(h, log + [p], n) == HeadAfter(h, log, n)
    ensures AllEntryRows(log + [p], n) == AllEntryRows(log, n)
  {
    if 0 < n {
      PrefixFacts(h, log, p, n - 1);
    }
  }

  lemma NextRow(h: Digests, log: seq<Proposal>, p: Proposal)
    ensures Head(h, log + [p]) == NextHash(h, log, p)
    ensures AllEntryRows(log + [p], |log| + 1) == AllEntryRows(log, |log|) + EntryRows(|log| + 1, p.entries)
    ensures TransactionAt(h, log + [p], |log|) == TransactionRow(
      |log| + 1, p.transactionId, p.idempotencyKey, h.proposal(p), p.stage,
      Head(h, log), NextHash(h, log, p), p.sourceEventCommitment)
  {
    PrefixFacts(h, log, p, |log|);
  }

  // ---------- SQL statements ----------

  function NextSequence(rows: seq<TransactionRow>): int {
    if rows == [] then 1 else
    var before := NextSequence(rows[..|rows| - 1]);
    var last := rows[|rows| - 1].sequence + 1;
    if before < last || |rows| == 1 then last else before
  }

  function FindTransaction(rows: seq<TransactionRow>, key: string): Option<TransactionRow> {
    if rows == [] then None
    else if rows[|rows| - 1].idempotencyKey == key then Some(rows[|rows| - 1])
    else FindTransaction(rows[..|rows| - 1], key)
  }

  predicate Repeats(r: TransactionRow, row: TransactionRow) {
    || r.sequence == row.sequence
    || r.transactionId == row.transactionId
    || r.idempotencyKey == row.idempotencyKey
    || r.transactionHash == row.transactionHash
  }

  /** `INSERT INTO finance_transactions`, with its unique columns. */
  function InsertTransaction(w: Tables, row: TransactionRow): Option<Tables> {
    if exists r :: r in w.transactions && Repeats(r, row) then None
    else Some(w.(transactions := w.transactions + [row]))
  }

  /** `INSERT INTO finance_entries`: amounts are not negative and the key (sequence, ordinal) is unique. */
  function InsertEntry(w: Tables, row: EntryRow): Option<Tables> {
    if row.entry.debitCents < 0 || row.entry.creditCents < 0
      || (exists r :: r in w.entries && r.sequence == row.sequence && r.ordinal == row.ordinal)
      || !(exists r :: r in w.transactions && r.sequence == row.sequence)
    then None else Some(w.(entries := w.entries + [row]))
  }

  lemma {:induction false} NextSequenceCounts(rows: seq<TransactionRow>)
    requires forall i :: 0 <= i < |rows| ==> rows[i].sequence == i + 1
    ensures NextSequence(rows) == |rows| + 1
  {
    if rows != [] {
      NextSequenceCounts(rows[..|rows| - 1]);
    }
  }

  lemma {:induction false} FindIsOwner(h: Digests, rows: seq<TransactionRow>, log: seq<Proposal>, n: nat, key: string)
    requires n <= |log| && n <= |rows| && forall i :: 0 <= i < n ==> rows[i] == TransactionAt(h, log, i)
    ensures
      var found, owner := FindTransaction(rows[..n], key), OwnerOf(log[..n], key);
      if owner.None? then found == None else found == Some(TransactionAt(h, log, owner.value))
  {
    if 0 < n {
      assert rows[..n][..n - 1] == rows[..n - 1] && log[..n][..n - 1] == log[..n - 1];
      FindIsOwner(h, rows, log, n - 1, key);
    }
  }

  lemma RowRepeatsIffClash(h: Digests, log: seq<Proposal>, p: Proposal, i: nat)
    requires i < |log| && log[i].idempotencyKey != p.idempotencyKey
    ensures Repeats(TransactionAt(h, log, i), TransactionAt(h, log + [p], |log|)) <==> ClashAt(h, log, p, i)
  {
    NextRow(h, log, p);
  }

  /** The unique columns reject a transaction exactly on a clash. */
  lemma TransactionInsertion(h: Digests, t: Tables, log: seq<Proposal>, p: Proposal)
    requires Represents(h, t, log) && OwnerOf(log, p.idempotencyKey).None?
    ensures InsertTransaction(t, TransactionAt(h, log + [p], |log|)).None? <==> Clash(h, log, p)
  {
    var row := TransactionAt(h, log + [p], |log|);
    forall i | 0 <= i < |log|
      ensures Repeats(t.transactions[i], row) <==> ClashAt(h, log, p, i)
    {
      RowRepeatsIffClash(h, log, p, i);
    }
  }

  lemma {:induction false} EntrySequences(log: seq<Proposal>, n: nat)
    requires n <= |log|
    ensures forall r :: r in AllEntryRows(log, n) ==> 1 <= r.sequence <= n
  {
    if 0 < n {
      EntrySequences(log, n - 1);
    }
  }

  /** `executemany` over the entries of a proposal that passed validation inserts all of them. */
  method InsertEntries(w0: Tables, sequence: int, entries: seq<Entry>) returns (r: Option<Tables>)
    requires forall e :: e in entries ==> ValidEntry(e)
    requires exists t :: t in w0.transactions && t.sequence == sequence
    requires forall row :: row in w0.entries ==> row.sequence != sequence
    ensures r == Some(w0.(entries := w0.entries + EntryRows(sequence, entries)))
  {
    var w := w0;
    for k := 0 to |entries|
      invariant w == w0.(entries := w0.entries + EntryRows(sequence, entries)[..k])
    {
      assert entries[k] in entries;
      forall row | row in w.entries && row.sequence == sequence
        ensures row.ordinal != k + 1
      {
        var i :| 0 <= i < |w.entries| && w.entries[i] == row;
        assert i < |w0.entries| ==> w0.entries[i] in w0.entries;
      }
      var inserted := InsertEntry(w, EntryRow(sequence, k + 1, entries[k]));
      if inserted.None? {
        return None;
      }
      w := inserted.value;
    }
    assert EntryRows(sequence, entries)[..|entries|] == EntryRows(sequence, entries);
    return Some(w);
  }

  lemma ExtendedLogValid(h: Digests, log: seq<Proposal>, p: Proposal)
    requires LogValid(log) && Admissible(h, log, p)
    ensures LogValid(log + [p])
  {
    forall i | 0 <= i < |log|
      ensures log[i].transactionId != p.transactionId
    {
      assert !ClashAt(h, log, p, i);
    }
  }

  lemma InsertsRepresent(h: Digests, t: Tables, w: Tables, log: seq<Proposal>, p: Proposal)
    requires Represents(h, t, log) && Admissible(h, log, p)
    requires w.transactions == t.transactions + [TransactionAt(h, log + [p], |log|)]
    requires w.entries == t.entries + EntryRows(|log| + 1, p.entries)
    requires w.head == NextHash(h, log, p)
    ensures Represents(h, w, log + [p])
  {
    ExtendedLogValid(h, log, p);
    NextRow(h, log, p);
    forall i | 0 <= i < |log|
      ensures TransactionAt(h, log + [p], i) == TransactionAt(h, log, i)
    {
      PrefixFacts(h, log, p, i);
      PrefixFacts(h, log, p, i + 1);
    }
  }

  // ---------- the journal ----------

  class SQLiteFinanceJournal {
    const h: Digests
    var head: string
    var transactions: seq<TransactionRow>
    var entries: seq<EntryRow>
    ghost var log: seq<Proposal>

    ghost function Durable(): Tables
      reads this
    {
      Tables(head, transactions, entries)
    }

    ghost predicate Valid()
      reads this
    {
      Represents(h, Durable(), log)
    }

    constructor (h: Digests)
      ensures this.h == h && Valid() && log == []
    {
      this.h := h;
      head, transactions, entries, log := h.genesis, [], [], [];
    }

    /** `post`: the log takes the whole proposal or nothing. */
    method Post(p: Proposal, fault: Option<FaultPoint>) returns (outcome: Outcome)
      requires Valid()
      modifies this
      ensures Valid()
      ensures log == Posted(h, old(log), p, fault)
      ensures outcome == PostOutcome(h, old(log), p, fault)
      ensures log == old(log) ==> Durable() == old(Durable())
    {
      if !ValidProposal(p) {
        return ProposalInvalid;
      }
      if fault == Some(AfterBegin) {
        return Faulted(AfterBegin);
      }
      var w := Tables(head, transactions, entries);
      var answer := AnswerWithoutWriting(h, w, p, fault, log);
      if answer.Some? {
        return Decided(answer.value);
      }
      var run, sequence := RunStatements(h, w, p, fault, log);
      if run.Failure? {
        return run.error;
      }
      head, transactions, entries := run.value.head, run.value.transactions, run.value.entries;
      log := log + [p];
      if fault == Some(AfterCommitBeforeReturn) {
        return Faulted(AfterCommitBeforeReturn);
      }
      return Decided(Decision(Accepted, h.proposal(p), Some(sequence), head, head, "", false));
    }
  }

  method AnswerWithoutWriting(
      h: Digests, w: Tables, p: Proposal, ghost fault: Option<FaultPoint>, ghost log: seq<Proposal>)
    returns (answer: Option<Decision>)
    requires Represents(h, w, log) && ValidProposal(p) && fault != Some(AfterBegin)
    ensures answer.Some? ==> PostOutcome(h, log, p, fault) == Decided(answer.value)
    ensures answer.Some? ==> !Admissible(h, log, p)
    ensures answer.None? ==> OwnerOf(log, p.idempotencyKey).None? && p.expectedParentHash == w.head
  {
    var existing := FindTransaction(w.transactions, p.idempotencyKey);
    FindIsOwner(h, w.transactions, log, |log|, p.idempotencyKey);
    assert w.transactions[..|log|] == w.transactions && log[..|log|] == log;
    if existing.Some? {
      if existing.value.proposalHash != h.proposal(p) {
        return Some(Rejection(h, p, RejectedIdempotencyConflict, w.head, CONFLICT_CODE));
      }
      return Some(Decision(
        DuplicateReplay, h.proposal(p), Some(existing.value.sequence), existing.value.transactionHash,
        w.head, "", true));
    }
    if p.expectedParentHash != w.head {
      return Some(Rejection(h, p, RejectedStaleParent, w.head, STALE_CODE));
    }
    return None;
  }

  method RunStatements(h: Digests, begun: Tables, p: Proposal, fault: Option<FaultPoint>, ghost log: seq<Proposal>)
    returns (r: Result<Tables, Outcome>, sequence: int)
    requires Represents(h, begun, log) && ValidProposal(p)
    requires OwnerOf(log, p.idempotencyKey).None? && p.expectedParentHash == begun.head
    requires fault != Some(AfterBegin)
    ensures r.Success? <==> Admissible(h, log, p) && !Interrupts(fault)
    ensures r.Success? ==> Represents(h, r.value, log + [p])
    ensures r.Success? && fault.Some? ==> PostOutcome(h, log, p, fault) == Faulted(AfterCommitBeforeReturn)
    ensures r.Success? && fault.None? ==>
      PostOutcome(h, log, p, fault)
      == Decided(Decision(Accepted, h.proposal(p), Some(sequence), r.value.head, r.value.head, "", false))
    ensures r.Failure? ==> r.error == PostOutcome(h, log, p, fault)
    ensures sequence == |log| + 1
  {
    NextSequenceCounts(begun.transactions);
    NextRow(h, log, p);
    sequence := NextSequence(begun.transactions);
    var hash := h.transaction(PayloadFor(h, p, sequence, begun.head));
    TransactionInsertion(h, begun, log, p);
    var inserted := InsertTransaction(begun, TransactionRow(
      sequence, p.transactionId, p.idempotencyKey, h.proposal(p), p.stage, begun.head, hash, p.sourceEventCommitment));
    if inserted.None? {
      return Failure(ConstraintViolated), sequence;
    }
    var w := inserted.value;
    if fault == Some(AfterTransactionInsert) {
      return Failure(Faulted(AfterTransactionInsert)), sequence;
    }
    EntrySequences(log, |log|);
    assert w.transactions[|log|] in w.transactions;
    inserted := InsertEntries(w, sequence, p.entries);
    w := inserted.value;
    if fault == Some(AfterEntriesInsert) {
      return Failure(Faulted(AfterEntriesInsert)), sequence;
    }
    w := w.(head := hash);
    if fault == Some(BeforeCommit) {
      return Failure(Faulted(BeforeCommit)), sequence;
    }
    InsertsRepresent(h, begun, w, log, p);
    return Success(w), sequence;
  }
}
