/**
  What the finance journal answers and records, over the fields of proposals, rows and decisions, and over every run
  of postings (finance_journal.py).
 */
module FinanceAnswers {
  import opened Wrappers
  import opened FinanceJournal
  import opened FinanceAudit

  // ---------- what is refused as malformed ----------

  /** An entry moves a positive amount to one side of an account. */
  predicate OneSided(e: Entry) {
    e.account != "" && ((0 < e.debitCents && e.creditCents == 0) || (e.debitCents == 0 && 0 < e.creditCents))
  }

  /** Debits less credits, over all entries. */
  function SignedTotal(entries: seq<Entry>): int {
    if entries == [] then 0
    else SignedTotal(entries[..|entries| - 1]) + entries[|entries| - 1].debitCents - entries[|entries| - 1].creditCents
  }

  lemma {:induction false} SignedTotalIsDifference(entries: seq<Entry>)
    ensures SignedTotal(entries) == Debits(entries) - Credits(entries)
  {
    if entries != [] {
      SignedTotalIsDifference(entries[..|entries| - 1]);
    }
  }

  lemma {:induction false} OneSidedHaveTotals(entries: seq<Entry>)
    requires forall e :: e in entries ==> OneSided(e)
    ensures 0 <= Debits(entries) && 0 <= Credits(entries)
    ensures entries != [] ==> 0 < Debits(entries) + Credits(entries)
  {
    if entries != [] {
      var front, last := entries[..|entries| - 1], entries[|entries| - 1];
      assert entries == front + [last];
      assert last in entries;
      OneSidedHaveTotals(front);
    }
  }

  /** A posting is refused as invalid unless its entries are one-sided, balance, and ask for nothing else. */
  lemma InvalidExactlyWhen(h: Digests, log: seq<Proposal>, p: Proposal, fault: Option<FaultPoint>)
    ensures PostOutcome(h, log, p, fault) != ProposalInvalid <==>
      && p.revision == "design-c-finance-journal-g0c-v1"
      && p.transactionId != "" && p.idempotencyKey != ""
      && |p.expectedParentHash| == 64 && |p.sourceEventCommitment| == 64
      && p.entries != [] && SignedTotal(p.entries) == 0 && (forall e :: e in p.entries ==> OneSided(e))
      && !p.externalEffectRequested && !p.canonicalWriteRequested
  {
    SignedTotalIsDifference(p.entries);
    assert forall e :: ValidEntry(e) <==> OneSided(e);
    if forall e :: e in p.entries ==> OneSided(e) {
      OneSidedHaveTotals(p.entries);
    }
  }

  // ---------- what the rows say ----------

  /** The columns of transaction row `i`. */
  lemma TransactionColumns(h: Digests, t: Tables, log: seq<Proposal>, i: nat)
    requires Represents(h, t, log) && i < |log|
    ensures i < |t.transactions|
    ensures
      var row, p := t.transactions[i], log[i];
      && row.sequence == i + 1
      && row.transactionId == p.transactionId && row.idempotencyKey == p.idempotencyKey
      && row.proposalHash == h.proposal(p) && row.stage == p.stage && row.source == p.sourceEventCommitment
      && row.parentHash == (if i == 0 then h.genesis else t.transactions[i - 1].transactionHash)
      && row.transactionHash == h.transaction(
           Payload(i + 1, row.parentHash, p.stage, p.entries, p.sourceEventCommitment, h.proposal(p)))
    ensures t.head == t.transactions[|t.transactions| - 1].transactionHash
  {
    assert t.transactions[i] == TransactionAt(h, log, i);
    assert 0 < i ==> t.transactions[i - 1] == TransactionAt(h, log, i - 1);
    assert t.transactions[|log| - 1] == TransactionAt(h, log, |log| - 1);
  }

  lemma RowsOfEntries(sequence: int, entries: seq<Entry>, row: EntryRow)
    ensures row in EntryRows(sequence, entries) <==>
      row.sequence == sequence && 1 <= row.ordinal <= |entries| && row.entry == entries[row.ordinal - 1]
  {
    var rows := EntryRows(sequence, entries);
    if row in rows {
      var k :| 0 <= k < |rows| && rows[k] == row;
    }
    if row.sequence == sequence && 1 <= row.ordinal <= |entries| && row.entry == entries[row.ordinal - 1] {
      assert rows[row.ordinal - 1] == row;
    }
  }

  /** The entry rows of a transaction are the entries of its proposal, numbered from one. */
  lemma {:induction false} EntryColumns(log: seq<Proposal>, n: nat, row: EntryRow)
    requires n <= |log|
    ensures row in AllEntryRows(log, n) <==>
      && 1 <= row.sequence <= n
      && 1 <= row.ordinal <= |log[row.sequence - 1].entries|
      && row.entry == log[row.sequence - 1].entries[row.ordinal - 1]
  {
    if n != 0 {
      EntryColumns(log, n - 1, row);
      RowsOfEntries(n, log[n - 1].entries, row);
    }
  }

  // ---------- what the balances say ----------

  function DebitsTo(rows: seq<EntryRow>, account: string, n: nat): int
    requires n <= |rows|
  {
    if n == 0 then 0
    else DebitsTo(rows, account, n - 1)
         + if rows[n - 1].entry.account == account then rows[n - 1].entry.debitCents else 0
  }

  function CreditsTo(rows: seq<EntryRow>, account: string, n: nat): int
    requires n <= |rows|
  {
    if n == 0 then 0
    else
      CreditsTo(rows, account, n - 1)
      + if rows[n - 1].entry.account == account then rows[n - 1].entry.creditCents else 0
  }

  /** The balance of an account in a snapshot is what was debited to it less what was credited. */
  lemma BalanceIsDebitsLessCredits(h: Digests, t: Tables, snap: Snapshot, account: string)
    requires SnapshotOf(h, t, snap) && account in snap.balances
    ensures snap.balances[account]
         == DebitsTo(t.entries, account, |t.entries|) - CreditsTo(t.entries, account, |t.entries|)
  {
    NetIsDifference(t.entries, account, |t.entries|);
  }

  lemma {:induction false} NetIsDifference(rows: seq<EntryRow>, account: string, n: nat)
    requires n <= |rows|
    ensures Net(rows, account, n) == DebitsTo(rows, account, n) - CreditsTo(rows, account, n)
  {
    if n != 0 {
      NetIsDifference(rows, account, n - 1);
    }
  }

  // ---------- what a posting is answered ----------

  /** What the journal answers when the key is owned by transaction `i`, and that it records nothing. */
  lemma ReusedKeyAnswer(h: Digests, t: Tables, log: seq<Proposal>, p: Proposal, fault: Option<FaultPoint>, i: nat)
    requires Represents(h, t, log) && i < |t.transactions| && t.transactions[i].idempotencyKey == p.idempotencyKey
    requires PostOutcome(h, log, p, fault).Decided?
    ensures
      var d, row := PostOutcome(h, log, p, fault).decision, t.transactions[i];
      && d.proposalHash == h.proposal(p) && d.headHash == t.head
      && if row.proposalHash == h.proposal(p) then
           && d.disposition == DuplicateReplay && d.duplicate && d.rejectionCode == ""
           && d.transactionSequence == Some(row.sequence) && d.transactionHash == row.transactionHash
         else
           && d.disposition == RejectedIdempotencyConflict && !d.duplicate
           && d.rejectionCode == "idempotency_key_reused_with_changed_input"
           && d.transactionSequence == None && d.transactionHash == ""
    ensures Posted(h, log, p, fault) == log
  {
    assert t.transactions[i] == TransactionAt(h, log, i);
    assert OwnerOf(log, p.idempotencyKey) == Some(i);
  }

  /** The hash that the proposal would get as the next transaction. */
  ghost function HashAsNext(h: Digests, t: Tables, p: Proposal): string {
    h.transaction(
      Payload(|t.transactions| + 1, t.head, p.stage, p.entries, p.sourceEventCommitment, h.proposal(p)))
  }

  ghost predicate RepeatsColumn(h: Digests, t: Tables, p: Proposal) {
    exists row :: row in t.transactions &&
      (row.transactionId == p.transactionId || row.transactionHash == HashAsNext(h, t, p))
  }

  lemma ColumnsClash(h: Digests, t: Tables, log: seq<Proposal>, p: Proposal)
    requires Represents(h, t, log)
    ensures NextHash(h, log, p) == HashAsNext(h, t, p)
    ensures RepeatsColumn(h, t, p) <==> Clash(h, log, p)
  {
    forall i | 0 <= i < |log|
      ensures ClashAt(h, log, p, i) <==>
        t.transactions[i].transactionId == p.transactionId || t.transactions[i].transactionHash == HashAsNext(h, t, p)
    {
      assert t.transactions[i] == TransactionAt(h, log, i);
    }
    if i :| 0 <= i < |log| && ClashAt(h, log, p, i) {
      assert t.transactions[i] in t.transactions;
    }
  }

  /** What the journal answers a well-formed posting under a fresh key, without a fault. */
  lemma FreshKeyAnswer(h: Digests, t: Tables, log: seq<Proposal>, p: Proposal)
    requires Represents(h, t, log) && PostOutcome(h, log, p, None) != ProposalInvalid
    requires forall row :: row in t.transactions ==> row.idempotencyKey != p.idempotencyKey
    ensures
      var outcome, hash := PostOutcome(h, log, p, None), HashAsNext(h, t, p);
      if p.expectedParentHash != t.head then
        outcome == Decided(Decision(
          RejectedStaleParent, h.proposal(p), None, "", t.head, "expected_parent_does_not_match_head", false))
      else if RepeatsColumn(h, t, p) then
        outcome == ConstraintViolated
      else
        outcome == Decided(Decision(Accepted, h.proposal(p), Some(|t.transactions| + 1), hash, hash, "", false))
    ensures Posted(h, log, p, None) ==
      if p.expectedParentHash == t.head && !RepeatsColumn(h, t, p) then log + [p] else log
  {
    ColumnsClash(h, t, log, p);
    NextRow(h, log, p);
    forall i | 0 <= i < |log|
      ensures log[i].idempotencyKey != p.idempotencyKey
    {
      assert t.transactions[i] == TransactionAt(h, log, i) && t.transactions[i] in t.transactions;
    }
  }

  /** A posting that faults was asked to, at that point; it is recorded iff the transaction was complete. */
  lemma FaultIsAllOrNothing(h: Digests, log: seq<Proposal>, p: Proposal, fault: Option<FaultPoint>)
    requires PostOutcome(h, log, p, fault).Faulted?
    ensures fault == Some(PostOutcome(h, log, p, fault).point)
    ensures Posted(h, log, p, fault) == log + if fault == Some(AfterCommitBeforeReturn) then [p] else []
  {
  }

  /** Predicted posting `i` books stage `i` on the head that the postings before it leave. */
  lemma PredictedColumns(h: Digests, stages: seq<Stage>, source: nat -> string, proposals: seq<Proposal>, i: nat)
    requires Predicted(h, stages, source, proposals) && i < |stages|
    ensures
      var p := proposals[i];
      && p.stage == stages[i].name && p.entries == stages[i].entries && p.sourceEventCommitment == source(i + 1)
      && p.expectedParentHash == (if i == 0 then h.genesis else HashOfPrevious(h, proposals, i))
      && p.revision == "design-c-finance-journal-g0c-v1"
      && !p.externalEffectRequested && !p.canonicalWriteRequested
  {
    assert PredictedAt(h, stages, source, proposals, i);
  }

  /** The hash of posting `i - 1`, over its fields. */
  ghost function HashOfPrevious(h: Digests, proposals: seq<Proposal>, i: nat): string
    requires 0 < i <= |proposals|
  {
    var p := proposals[i - 1];
    h.transaction(
      Payload(i, HeadAfter(h, proposals, i - 1), p.stage, p.entries, p.sourceEventCommitment, h.proposal(p)))
  }

  // ---------- runs ----------

  datatype Posting = Posting(proposal: Proposal, fault: Option<FaultPoint>)

  /** The log after the first `n` postings. */
  ghost function LogAfter(h: Digests, posts: seq<Posting>, n: nat): seq<Proposal>
    requires n <= |posts|
  {
    if n == 0 then [] else Posted(h, LogAfter(h, posts, n - 1), posts[n - 1].proposal, posts[n - 1].fault)
  }

  ghost function OutcomeAt(h: Digests, posts: seq<Posting>, n: nat): Outcome
    requires n < |posts|
  {
    PostOutcome(h, LogAfter(h, posts, n), posts[n].proposal, posts[n].fault)
  }

  /** A posting of the run that names a transaction. */
  ghost predicate NamesAt(h: Digests, posts: seq<Posting>, k: nat, d: Decision)
    requires k < |posts|
  {
    OutcomeAt(h, posts, k) == Decided(d) && d.disposition in {Accepted, DuplicateReplay}
  }

  lemma {:induction false} LogOnlyGrows(h: Digests, posts: seq<Posting>, m: nat, n: nat)
    requires m <= n <= |posts|
    ensures LogAfter(h, posts, m) <= LogAfter(h, posts, n)
  {
    if m < n {
      LogOnlyGrows(h, posts, m, n - 1);
    }
  }

  lemma {:induction false} RunKeepsLogValid(h: Digests, posts: seq<Posting>, n: nat)
    requires n <= |posts|
    ensures LogValid(LogAfter(h, posts, n))
  {
    if 0 < n {
      RunKeepsLogValid(h, posts, n - 1);
      var log := LogAfter(h, posts, n - 1);
      if Admissible(h, log, posts[n - 1].proposal) {
        ExtendedLogValid(h, log, posts[n - 1].proposal);
      }
    }
  }

  /** The decision names the transaction at its sequence number, which holds what was posted. */
  ghost predicate NamesEntry(h: Digests, log: seq<Proposal>, p: Proposal, d: Decision) {
    && d.transactionSequence.Some? && 1 <= d.transactionSequence.value <= |log|
    && log[d.transactionSequence.value - 1].idempotencyKey == p.idempotencyKey
    && h.proposal(log[d.transactionSequence.value - 1]) == h.proposal(p) == d.proposalHash
    && d.transactionHash == HeadAfter(h, log, d.transactionSequence.value)
  }

  lemma NamedAtOnce(h: Digests, posts: seq<Posting>, k: nat, d: Decision)
    requires k < |posts| && NamesAt(h, posts, k, d)
    ensures NamesEntry(h, LogAfter(h, posts, k + 1), posts[k].proposal, d)
  {
  }

  lemma StillNamed(h: Digests, a: seq<Proposal>, b: seq<Proposal>, p: Proposal, d: Decision)
    requires a <= b && NamesEntry(h, a, p, d)
    ensures NamesEntry(h, b, p, d)
  {
    HeadAfterExtends(h, a, b, d.transactionSequence.value);
  }

  lemma NamedAtEnd(h: Digests, posts: seq<Posting>, k: nat, d: Decision)
    requires k < |posts| && NamesAt(h, posts, k, d)
    ensures NamesEntry(h, LogAfter(h, posts, |posts|), posts[k].proposal, d)
  {
    NamedAtOnce(h, posts, k, d);
    LogOnlyGrows(h, posts, k + 1, |posts|);
    StillNamed(h, LogAfter(h, posts, k + 1), LogAfter(h, posts, |posts|), posts[k].proposal, d);
  }

  lemma OneEntry(h: Digests, log: seq<Proposal>, p: Proposal, a: Decision, q: Proposal, b: Decision)
    requires LogValid(log) && NamesEntry(h, log, p, a) && NamesEntry(h, log, q, b)
    && p.idempotencyKey == q.idempotencyKey
    ensures a.transactionSequence == b.transactionSequence && a.transactionHash == b.transactionHash
    ensures a.proposalHash == b.proposalHash
  {
  }

  /**
    Exactly once: all decisions that name a transaction for a key name the same one, and answered the same
    proposal.
   */
  lemma KeyNamesOneTransaction(h: Digests, posts: seq<Posting>, j: nat, a: Decision, k: nat, b: Decision)
    requires j < |posts| && k < |posts| && NamesAt(h, posts, j, a) && NamesAt(h, posts, k, b)
    requires posts[j].proposal.idempotencyKey == posts[k].proposal.idempotencyKey
    ensures a.transactionSequence == b.transactionSequence && a.transactionHash == b.transactionHash
    ensures a.proposalHash == b.proposalHash
  {
    NamedAtEnd(h, posts, j, a);
    NamedAtEnd(h, posts, k, b);
    RunKeepsLogValid(h, posts, |posts|);
    OneEntry(h, LogAfter(h, posts, |posts|), posts[j].proposal, a, posts[k].proposal, b);
  }

  // ---------- what the snapshot guarantees ----------

  /** Transaction `i` has the next number, continues the one before, hashes its columns and entries, and balances. */
  ghost predicate Continues(h: Digests, t: Tables, i: nat)
    requires i < |t.transactions|
  {
    var row, entries := t.transactions[i], EntriesOf(t.entries, i + 1, |t.entries|);
    && row.sequence == i + 1
    && row.parentHash == (if i == 0 then h.genesis else t.transactions[i - 1].transactionHash)
    && row.transactionHash
       == h.transaction(Payload(i + 1, row.parentHash, row.stage, entries, row.source, row.proposalHash))
    && SignedTotal(entries) == 0 && 0 < Debits(entries)
  }

  /** What it means that a snapshot lists no error, over the rows. */
  lemma ErrorFreeMeans(h: Digests, t: Tables, snap: Snapshot)
    requires SnapshotOf(h, t, snap)
    ensures snap.invariantErrors == [] <==>
      && (forall i :: 0 <= i < |t.transactions| ==> Continues(h, t, i))
      && t.head == (if t.transactions == [] then h.genesis else t.transactions[|t.transactions| - 1].transactionHash)
      && snap.debitTotalCents == snap.creditTotalCents
  {
    forall i: nat | i < |t.transactions|
      ensures Continues(h, t, i) <==> LinkValid(h, t, i)
    {
      SignedTotalIsDifference(EntriesOf(t.entries, i + 1, |t.entries|));
    }
  }
}
