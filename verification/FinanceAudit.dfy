/**
  Reading the journal back (`snapshot`), conservation of money in it, what its head authenticates, and the
  client-side prediction of the billing lifecycle (finance_journal.py).
 */
module FinanceAudit {
  import opened Collections
  import opened Wrappers
  import opened Decimal
  import opened FinanceJournal

  // ---------- sums over rows ----------

  /** Debits minus credits of one account over the first `n` rows. */
  function Net(rows: seq<EntryRow>, account: string, n: nat): int
    requires n <= |rows|
  {
    if n == 0 then 0 else
    var e := rows[n - 1].entry;
    Net(rows, account, n - 1) + if e.account == account then e.debitCents - e.creditCents else 0
  }

  function DebitTotal(rows: seq<EntryRow>, n: nat): int
    requires n <= |rows|
  {
    if n == 0 then 0 else DebitTotal(rows, n - 1) + rows[n - 1].entry.debitCents
  }

  function CreditTotal(rows: seq<EntryRow>, n: nat): int
    requires n <= |rows|
  {
    if n == 0 then 0 else CreditTotal(rows, n - 1) + rows[n - 1].entry.creditCents
  }

  /** What the entries of one proposal say about one account. */
  function NetOfEntries(entries: seq<Entry>, account: string): int {
    if entries == [] then 0 else
    var e := entries[|entries| - 1];
    NetOfEntries(entries[..|entries| - 1], account) + if e.account == account then e.debitCents - e.creditCents else 0
  }

  /** What the first `n` accepted proposals say about one account. */
  function NetOfLog(log: seq<Proposal>, account: string, n: nat): int
    requires n <= |log|
  {
    if n == 0 then 0 else NetOfLog(log, account, n - 1) + NetOfEntries(log[n - 1].entries, account)
  }

  lemma {:induction false} SumsAppend(rows: seq<EntryRow>, sequence: int, entries: seq<Entry>, account: string, n: nat)
    requires n <= |entries|
    ensures
      var longer := rows + EntryRows(sequence, entries);
      && Net(longer, account, |rows| + n) == Net(rows, account, |rows|) + NetOfEntries(entries[..n], account)
      && DebitTotal(longer, |rows| + n) == DebitTotal(rows, |rows|) + Debits(entries[..n])
      && CreditTotal(longer, |rows| + n) == CreditTotal(rows, |rows|) + Credits(entries[..n])
  {
    var longer := rows + EntryRows(sequence, entries);
    if n == 0 {
      SumsOfPrefix(rows, EntryRows(sequence, entries), account, |rows|);
    } else {
      SumsAppend(rows, sequence, entries, account, n - 1);
      assert entries[..n][..n - 1] == entries[..n - 1];
      assert longer[|rows| + n - 1].entry == entries[n - 1];
    }
  }

  lemma {:induction false} SumsOfPrefix(rows: seq<EntryRow>, more: seq<EntryRow>, account: string, n: nat)
    requires n <= |rows|
    ensures Net(rows + more, account, n) == Net(rows, account, n)
    ensures DebitTotal(rows + more, n) == DebitTotal(rows, n)
    ensures CreditTotal(rows + more, n) == CreditTotal(rows, n)
  {
    if 0 < n {
      SumsOfPrefix(rows, more, account, n - 1);
    }
  }

  lemma SumsAppendAll(rows: seq<EntryRow>, sequence: int, entries: seq<Entry>, account: string)
    ensures
      var longer := rows + EntryRows(sequence, entries);
      && Net(longer, account, |longer|) == Net(rows, account, |rows|) + NetOfEntries(entries, account)
      && DebitTotal(longer, |longer|) == DebitTotal(rows, |rows|) + Debits(entries)
      && CreditTotal(longer, |longer|) == CreditTotal(rows, |rows|) + Credits(entries)
  {
    SumsAppend(rows, sequence, entries, account, |entries|);
    assert entries[..|entries|] == entries;
  }

  /** The rows of the tables add up to the accepted proposals. */
  lemma {:induction false} RowsMirrorLog(log: seq<Proposal>, account: string, n: nat)
    requires n <= |log| && forall i :: 0 <= i < n ==> Debits(log[i].entries) == Credits(log[i].entries)
    ensures
      var rows := AllEntryRows(log, n);
      && Net(rows, account, |rows|) == NetOfLog(log, account, n)
      && DebitTotal(rows, |rows|) == CreditTotal(rows, |rows|)
  {
    if 0 < n {
      RowsMirrorLog(log, account, n - 1);
      SumsAppendAll(AllEntryRows(log, n - 1), n, log[n - 1].entries, account);
    }
  }

  // ---------- balances over all accounts ----------

  /** The sum of the balances of the listed accounts. */
  function SumOfBalances(rows: seq<EntryRow>, accounts: seq<string>, n: nat): int
    requires n <= |accounts|
  {
    if n == 0 then 0 else SumOfBalances(rows, accounts, n - 1) + Net(rows, accounts[n - 1], |rows|)
  }

  lemma {:induction false} OneRowMore(rows: seq<EntryRow>, row: EntryRow, accounts: seq<string>, n: nat)
    requires n <= |accounts| && Distinct(accounts)
    ensures SumOfBalances(rows + [row], accounts, n) == SumOfBalances(rows, accounts, n)
      + if row.entry.account in accounts[..n] then row.entry.debitCents - row.entry.creditCents else 0
  {
    if 0 < n {
      OneRowMore(rows, row, accounts, n - 1);
      SumsOfPrefix(rows, [row], accounts[n - 1], |rows|);
      assert accounts[..n] == accounts[..n - 1] + [accounts[n - 1]];
      assert accounts[n - 1] !in accounts[..n - 1];
    }
  }

  lemma {:induction false} NoRows(accounts: seq<string>, n: nat)
    requires n <= |accounts|
    ensures SumOfBalances([], accounts, n) == 0
  {
    if 0 < n {
      NoRows(accounts, n - 1);
    }
  }

  /** Over any duplicate-free list of all accounts in use, the balances sum to debits minus credits. */
  lemma {:induction false} BalancesSumToTotals(rows: seq<EntryRow>, accounts: seq<string>)
    requires Distinct(accounts) && forall r :: r in rows ==> r.entry.account in accounts
    ensures SumOfBalances(rows, accounts, |accounts|) == DebitTotal(rows, |rows|) - CreditTotal(rows, |rows|)
  {
    if rows == [] {
      NoRows(accounts, |accounts|);
    } else {
      var front, last := rows[..|rows| - 1], rows[|rows| - 1];
      assert rows == front + [last];
      BalancesSumToTotals(front, accounts);
      OneRowMore(front, last, accounts, |accounts|);
      SumsOfPrefix(front, [last], "", |front|);
      assert accounts[..|accounts|] == accounts && last in rows;
    }
  }

  /**
    Double entry: in every reachable journal each balance is the fold of the accepted proposals, the balances
    of all accounts sum to zero, and the totals agree.
   */
  lemma MoneyIsConserved(h: Digests, t: Tables, log: seq<Proposal>, accounts: seq<string>)
    requires Represents(h, t, log)
    requires Distinct(accounts) && forall r :: r in t.entries ==> r.entry.account in accounts
    ensures forall account :: Net(t.entries, account, |t.entries|) == NetOfLog(log, account, |log|)
    ensures SumOfBalances(t.entries, accounts, |accounts|) == 0
    ensures DebitTotal(t.entries, |t.entries|) == CreditTotal(t.entries, |t.entries|)
  {
    assert forall i :: 0 <= i < |log| ==> ValidProposal(log[i]);
    forall account
      ensures Net(t.entries, account, |t.entries|) == NetOfLog(log, account, |log|)
      ensures DebitTotal(t.entries, |t.entries|) == CreditTotal(t.entries, |t.entries|)
    {
      RowsMirrorLog(log, account, |log|);
    }
    BalancesSumToTotals(t.entries, accounts);
  }

  // ---------- the snapshot ----------

  /** The entries of one transaction, in row order. */
  function EntriesOf(rows: seq<EntryRow>, sequence: int, n: nat): seq<Entry>
    requires n <= |rows|
  {
    if n == 0 then [] else
    var front := EntriesOf(rows, sequence, n - 1);
    if rows[n - 1].sequence == sequence then front + [rows[n - 1].entry] else front
  }

  function ParentOf(h: Digests, rows: seq<TransactionRow>, i: nat): string
    requires i <= |rows|
  {
    if i == 0 then h.genesis else rows[i - 1].transactionHash
  }

  function StoredPayload(t: Tables, i: nat): Payload
    requires i < |t.transactions|
  {
    var row := t.transactions[i];
    Payload(i + 1, row.parentHash, row.stage, EntriesOf(t.entries, i + 1, |t.entries|), row.source, row.proposalHash)
  }

  predicate LinkValid(h: Digests, t: Tables, i: nat)
    requires i < |t.transactions|
  {
    var entries := EntriesOf(t.entries, i + 1, |t.entries|);
    && t.transactions[i].sequence == i + 1
    && t.transactions[i].parentHash == ParentOf(h, t.transactions, i)
    && t.transactions[i].transactionHash == h.transaction(StoredPayload(t, i))
    && 0 < Debits(entries) == Credits(entries)
  }

  ghost predicate ChainValid(h: Digests, t: Tables, n: nat)
    requires n <= |t.transactions|
  {
    forall i :: 0 <= i < n ==> LinkValid(h, t, i)
  }

  ghost predicate Consistent(h: Digests, t: Tables) {
    && ChainValid(h, t, |t.transactions|)
    && t.head == ParentOf(h, t.transactions, |t.transactions|)
    && DebitTotal(t.entries, |t.entries|) == CreditTotal(t.entries, |t.entries|)
  }

  datatype JournalError =
    | SequenceGap(index: int)
    | ParentBreak(index: int)
    | HashMismatch(index: int)
    | Unbalanced(index: int)
    | HeadMismatch
    | GlobalImbalance

  datatype Snapshot = Snapshot(
    headHash: string, transactionCount: nat, entryCount: nat, debitTotalCents: int, creditTotalCents: int,
    balances: map<string, int>, invariantErrors: seq<JournalError>)

  /** What a snapshot says about the tables it was taken of. */
  ghost predicate SnapshotOf(h: Digests, t: Tables, snap: Snapshot) {
    && snap.headHash == t.head
    && snap.transactionCount == |t.transactions| && snap.entryCount == |t.entries|
    && snap.debitTotalCents == DebitTotal(t.entries, |t.entries|)
    && snap.creditTotalCents == CreditTotal(t.entries, |t.entries|)
    && (forall a :: a in snap.balances <==> exists r :: r in t.entries && r.entry.account == a)
    && (forall a :: a in snap.balances ==> snap.balances[a] == Net(t.entries, a, |t.entries|))
    && (snap.invariantErrors == [] <==> Consistent(h, t))
  }

  method CheckChain(h: Digests, t: Tables) returns (errors: seq<JournalError>, expectedParent: string)
    ensures errors == [] <==> ChainValid(h, t, |t.transactions|)
    ensures expectedParent == ParentOf(h, t.transactions, |t.transactions|)
  {
    errors, expectedParent := [], h.genesis;
    ghost var valid := true;
    for i := 0 to |t.transactions|
      invariant expectedParent == ParentOf(h, t.transactions, i)
      invariant valid <==> ChainValid(h, t, i)
      invariant valid <==> errors == []
    {
      var row := t.transactions[i];
      var entries := EntriesOf(t.entries, i + 1, |t.entries|);
      if row.sequence != i + 1 {
        errors := errors + [SequenceGap(i + 1)];
      }
      if row.parentHash != expectedParent {
        errors := errors + [ParentBreak(i + 1)];
      }
      if row.transactionHash != h.transaction(StoredPayload(t, i)) {
        errors := errors + [HashMismatch(i + 1)];
      }
      if Debits(entries) <= 0 || Debits(entries) != Credits(entries) {
        errors := errors + [Unbalanced(i + 1)];
      }
      valid := valid && LinkValid(h, t, i);
      expectedParent := row.transactionHash;
    }
  }

  method FoldBalances(rows: seq<EntryRow>) returns (balances: map<string, int>)
    ensures forall a :: a in balances <==> exists r :: r in rows && r.entry.account == a
    ensures forall a :: a in balances ==> balances[a] == Net(rows, a, |rows|)
  {
    balances := map[];
    for n := 0 to |rows|
      invariant forall a :: a in balances <==> exists r :: r in rows[..n] && r.entry.account == a
      invariant forall a :: a in balances ==> balances[a] == Net(rows, a, n)
      invariant forall a :: a !in balances ==> Net(rows, a, n) == 0
    {
      var e := rows[n].entry;
      assert rows[..n + 1] == rows[..n] + [rows[n]];
      var before := if e.account in balances then balances[e.account] else 0;
      balances := balances[e.account := before + e.debitCents - e.creditCents];
    }
    assert rows[..|rows|] == rows;
  }

  method TakeSnapshot(h: Digests, t: Tables) returns (snap: Snapshot)
    ensures SnapshotOf(h, t, snap)
  {
    var errors, expectedParent := CheckChain(h, t);
    var balances := FoldBalances(t.entries);
    var debits, credits := DebitTotal(t.entries, |t.entries|), CreditTotal(t.entries, |t.entries|);
    if t.head != expectedParent {
      errors := errors + [HeadMismatch];
    }
    if debits != credits {
      errors := errors + [GlobalImbalance];
    }
    snap := Snapshot(t.head, |t.transactions|, |t.entries|, debits, credits, balances, errors);
  }

  lemma {:induction false} EntriesOfAppend(rows: seq<EntryRow>, sequence: int, entries: seq<Entry>, wanted: int, n: nat)
    requires n <= |entries|
    ensures
      var longer := rows + EntryRows(sequence, entries);
      EntriesOf(longer, wanted, |rows| + n)
      == EntriesOf(rows, wanted, |rows|) + if sequence == wanted then entries[..n] else []
  {
    if n == 0 {
      EntriesOfPrefix(rows, EntryRows(sequence, entries), wanted, |rows|);
    } else {
      EntriesOfAppend(rows, sequence, entries, wanted, n - 1);
      assert entries[..n] == entries[..n - 1] + [entries[n - 1]];
    }
  }

  lemma EntriesOfAppendAll(rows: seq<EntryRow>, sequence: int, entries: seq<Entry>, wanted: int)
    ensures
      var longer := rows + EntryRows(sequence, entries);
      EntriesOf(longer, wanted, |longer|)
      == EntriesOf(rows, wanted, |rows|) + if sequence == wanted then entries else []
  {
    EntriesOfAppend(rows, sequence, entries, wanted, |entries|);
    assert entries[..|entries|] == entries;
  }

  lemma {:induction false} EntriesOfPrefix(rows: seq<EntryRow>, more: seq<EntryRow>, wanted: int, n: nat)
    requires n <= |rows|
    ensures EntriesOf(rows + more, wanted, n) == EntriesOf(rows, wanted, n)
  {
    if 0 < n {
      EntriesOfPrefix(rows, more, wanted, n - 1);
    }
  }

  /** The rows of transaction `i` are the entries of proposal `i`. */
  lemma {:induction false} StoredEntries(log: seq<Proposal>, i: nat, n: nat)
    requires n <= |log| && i < |log|
    ensures EntriesOf(AllEntryRows(log, n), i + 1, |AllEntryRows(log, n)|) == if i < n then log[i].entries else []
  {
    if 0 < n {
      StoredEntries(log, i, n - 1);
      EntriesOfAppendAll(AllEntryRows(log, n - 1), n, log[n - 1].entries, i + 1);
    }
  }

  /** Every reachable journal has an error-free snapshot. */
  lemma RepresentedIsConsistent(h: Digests, t: Tables, log: seq<Proposal>)
    requires Represents(h, t, log)
    ensures Consistent(h, t)
  {
    forall i | 0 <= i < |log|
      ensures LinkValid(h, t, i)
    {
      StoredEntries(log, i, |log|);
      assert t.transactions[i] == TransactionAt(h, log, i) && ValidProposal(log[i]);
      assert 0 < i ==> t.transactions[i - 1] == TransactionAt(h, log, i - 1);
    }
    assert log != [] ==> t.transactions[|log| - 1] == TransactionAt(h, log, |log| - 1);
    RowsMirrorLog(log, "", |log|);
  }

  // ---------- what the head authenticates ----------

  ghost predicate NoCollision(h: Digests, s: Tables, t: Tables) {
    && (forall i, j ::
          ( && 0 <= i < |s.transactions| && 0 <= j < |t.transactions|
            && h.transaction(StoredPayload(s, i)) == h.transaction(StoredPayload(t, j)))
          ==> StoredPayload(s, i) == StoredPayload(t, j))
    && (forall i :: 0 <= i < |s.transactions| ==> h.transaction(StoredPayload(s, i)) != h.genesis)
    && (forall j :: 0 <= j < |t.transactions| ==> h.transaction(StoredPayload(t, j)) != h.genesis)
  }

  lemma RowIsNotGenesis(h: Digests, s: Tables, t: Tables, n: nat)
    requires 0 < n <= |s.transactions| && ChainValid(h, s, n) && NoCollision(h, s, t)
    ensures ParentOf(h, s.transactions, n) != h.genesis
  {
    assert LinkValid(h, s, n - 1);
  }

  lemma {:induction false} ChainsAgree(h: Digests, s: Tables, t: Tables, m: nat, n: nat)
    requires m <= |s.transactions| && n <= |t.transactions| && ChainValid(h, s, m) && ChainValid(h, t, n)
    requires NoCollision(h, s, t) && ParentOf(h, s.transactions, m) == ParentOf(h, t.transactions, n)
    ensures m == n
    ensures forall i :: 0 <= i < m ==> StoredPayload(s, i) == StoredPayload(t, i)
  {
    if 0 < m && 0 < n {
      assert LinkValid(h, s, m - 1) && LinkValid(h, t, n - 1);
      assert StoredPayload(s, m - 1) == StoredPayload(t, n - 1);
      ChainsAgree(h, s, t, m - 1, n - 1);
    } else if 0 < m {
      RowIsNotGenesis(h, s, t, m);
    } else if 0 < n {
      RowIsNotGenesis(h, t, s, n);
    }
  }

  /** Two journals with error-free snapshots and the same head agree on everything that is hashed. */
  lemma EqualHeadsAuthenticate(h: Digests, s: Tables, t: Tables, snapS: Snapshot, snapT: Snapshot)
    requires SnapshotOf(h, s, snapS) && SnapshotOf(h, t, snapT)
    requires snapS.invariantErrors == [] && snapT.invariantErrors == []
    requires snapS.headHash == snapT.headHash && NoCollision(h, s, t)
    ensures |s.transactions| == |t.transactions|
    ensures forall i :: 0 <= i < |s.transactions| ==> StoredPayload(s, i) == StoredPayload(t, i)
  {
    ChainsAgree(h, s, t, |s.transactions|, |t.transactions|);
  }

  // ---------- the predicted lifecycle ----------

  datatype Stage = Stage(name: string, entries: seq<Entry>)

  predicate BalancedStage(s: Stage) {
    0 < Debits(s.entries) == Credits(s.entries) && s.entries != [] && forall e :: e in s.entries ==> ValidEntry(e)
  }

  function StageProposal(stages: seq<Stage>, source: nat -> string, i: nat, parent: string): Proposal
    requires i < |stages|
  {
    Proposal(
      "FIN-TX-" + PrintNat(i + 1), "finance-lifecycle:" + PrintNat(i + 1) + ":r1", stages[i].name, parent,
      stages[i].entries, source(i + 1), REVISION, false, false)
  }

  /** Proposal `i` expects the head that the first `i` proposals would leave. */
  ghost predicate PredictedAt(
    h: Digests, stages: seq<Stage>, source: nat -> string, proposals: seq<Proposal>, i: nat)
    requires i < |proposals| == |stages|
  {
    proposals[i] == StageProposal(stages, source, i, HeadAfter(h, proposals, i))
  }

  ghost predicate Predicted(
    h: Digests, stages: seq<Stage>, source: nat -> string, proposals: seq<Proposal>)
  {
    |proposals| == |stages| && forall i :: 0 <= i < |stages| ==> PredictedAt(h, stages, source, proposals, i)
  }

  lemma {:induction false} HeadAfterExtends(h: Digests, a: seq<Proposal>, b: seq<Proposal>, n: nat)
    requires a <= b && n <= |a|
    ensures HeadAfter(h, a, n) == HeadAfter(h, b, n)
  {
    if 0 < n {
      HeadAfterExtends(h, a, b, n - 1);
    }
  }

  /** `build_finance_lifecycle` from genesis, with the stage table as a parameter. */
  method BuildFinanceLifecycle(h: Digests, stages: seq<Stage>, source: nat -> string) returns (proposals: seq<Proposal>)
    ensures Predicted(h, stages, source, proposals)
  {
    proposals := [];
    var currentParent := h.genesis;
    for n := 0 to |stages|
      invariant Predicted(h, stages[..n], source, proposals)
      invariant currentParent == HeadAfter(h, proposals, n)
    {
      var proposal := StageProposal(stages, source, n, currentParent);
      PredictNext(h, stages, source, proposals, proposal, n);
      proposals := proposals + [proposal];
      currentParent := h.transaction(PayloadFor(h, proposal, n + 1, currentParent));
    }
    assert stages[..|stages|] == stages;
  }

  lemma PredictNext(
    h: Digests, stages: seq<Stage>, source: nat -> string, proposals: seq<Proposal>, p: Proposal, n: nat)
    requires n < |stages| && Predicted(h, stages[..n], source, proposals)
    requires p == StageProposal(stages, source, n, HeadAfter(h, proposals, n))
    ensures Predicted(h, stages[..n + 1], source, proposals + [p])
    ensures HeadAfter(h, proposals + [p], n + 1)
         == h.transaction(PayloadFor(h, p, n + 1, HeadAfter(h, proposals, n)))
  {
    var longer, front := proposals + [p], stages[..n + 1];
    forall i | 0 <= i < n + 1
      ensures PredictedAt(h, front, source, longer, i)
    {
      HeadAfterExtends(h, proposals, longer, i);
      assert i < n ==> PredictedAt(h, stages[..n], source, proposals, i);
    }
    HeadAfterExtends(h, proposals, longer, n);
  }

  /** The hashes along the predicted chain are long enough and none occurs twice. */
  ghost predicate HashesUsable(h: Digests, source: nat -> string, proposals: seq<Proposal>) {
    && (forall i :: 0 <= i <= |proposals| ==> |HeadAfter(h, proposals, i)| == 64)
    && (forall i: nat :: |source(i)| == 64)
    && (forall i, j :: 0 < i < j <= |proposals| ==> HeadAfter(h, proposals, i) != HeadAfter(h, proposals, j))
  }

  lemma KeysDiffer(stages: seq<Stage>, source: nat -> string, i: nat, j: nat, a: string, b: string)
    requires i < j < |stages|
    ensures StageProposal(stages, source, i, a).transactionId != StageProposal(stages, source, j, b).transactionId
    ensures StageProposal(stages, source, i, a).idempotencyKey != StageProposal(stages, source, j, b).idempotencyKey
  {
    var m, n := PrintNat(i + 1), PrintNat(j + 1);
    if m == n {
      PrintInjective(i + 1, j + 1);
    }
    assert ("FIN-TX-" + m)[7..] == m && ("FIN-TX-" + n)[7..] == n;
    var x, y := "finance-lifecycle:" + m + ":r1", "finance-lifecycle:" + n + ":r1";
    assert x[18..|x| - 3] == m && y[18..|y| - 3] == n;
  }

  /** Proposal `n` of the chain is accepted by a journal that holds the first `n`. */
  lemma NextPredictedAccepted(
    h: Digests, stages: seq<Stage>, source: nat -> string, proposals: seq<Proposal>, n: nat)
    requires Predicted(h, stages, source, proposals) && HashesUsable(h, source, proposals) && n < |stages|
    requires forall s :: s in stages ==> BalancedStage(s)
    ensures Admissible(h, proposals[..n], proposals[n])
  {
    var log, p := proposals[..n], proposals[n];
    assert BalancedStage(stages[n]) && PredictedAt(h, stages, source, proposals, n);
    HeadAfterExtends(h, log, proposals, n);
    forall i | 0 <= i < n
      ensures log[i].idempotencyKey != p.idempotencyKey && !ClashAt(h, log, p, i)
    {
      PredictedDiffers(h, stages, source, proposals, i, n);
    }
  }

  lemma PredictedDiffers(
    h: Digests, stages: seq<Stage>, source: nat -> string, proposals: seq<Proposal>, i: nat, n: nat)
    requires Predicted(h, stages, source, proposals) && HashesUsable(h, source, proposals) && i < n < |stages|
    ensures proposals[i].idempotencyKey != proposals[n].idempotencyKey
    ensures !ClashAt(h, proposals[..n], proposals[n], i)
  {
    var log, p := proposals[..n], proposals[n];
    assert PredictedAt(h, stages, source, proposals, i) && PredictedAt(h, stages, source, proposals, n);
    KeysDiffer(stages, source, i, n, HeadAfter(h, proposals, i), HeadAfter(h, proposals, n));
    HeadAfterExtends(h, log, proposals, n);
    HeadAfterExtends(h, log, proposals, i + 1);
    assert NextHash(h, log, p) == HeadAfter(h, proposals, n + 1);
  }

  /** So posting it yields an acceptance and the chain grows by one. */
  lemma PredictedPost(
    h: Digests, stages: seq<Stage>, source: nat -> string, proposals: seq<Proposal>, n: nat)
    requires Predicted(h, stages, source, proposals) && HashesUsable(h, source, proposals) && n < |stages|
    requires forall s :: s in stages ==> BalancedStage(s)
    ensures Posted(h, proposals[..n], proposals[n], None) == proposals[..n + 1]
    ensures Disposed(PostOutcome(h, proposals[..n], proposals[n], None), Accepted)
  {
    NextPredictedAccepted(h, stages, source, proposals, n);
    assert proposals[..n + 1] == proposals[..n] + [proposals[n]];
  }

  ghost predicate Disposed(outcome: Outcome, disposition: Disposition) {
    outcome.Decided? && outcome.decision.disposition == disposition
  }

  /** A proposal that the journal already holds is answered as a duplicate. */
  lemma HeldIsDuplicate(h: Digests, log: seq<Proposal>, i: nat)
    requires LogValid(log) && i < |log|
    ensures PostOutcome(h, log, log[i], None) == Decided(Named(h, log[i], DuplicateReplay, log, i))
    ensures Posted(h, log, log[i], None) == log
  {
    assert OwnerOf(log, log[i].idempotencyKey) == Some(i);
  }

  ghost predicate AllDisposed(outcomes: seq<Outcome>, disposition: Disposition) {
    forall i :: 0 <= i < |outcomes| ==> Disposed(outcomes[i], disposition)
  }

  /** Posts the predicted chain to an empty journal. */
  method PostLifecycle(
    journal: SQLiteFinanceJournal, proposals: seq<Proposal>, ghost stages: seq<Stage>, ghost source: nat -> string)
    returns (outcomes: seq<Outcome>)
    requires journal.Valid() && journal.log == []
    requires Predicted(journal.h, stages, source, proposals) && forall s :: s in stages ==> BalancedStage(s)
    requires HashesUsable(journal.h, source, proposals)
    modifies journal
    ensures journal.Valid() && journal.log == proposals
    ensures |outcomes| == |stages| && AllDisposed(outcomes, Accepted)
  {
    outcomes := [];
    for n := 0 to |proposals|
      invariant journal.Valid() && journal.log == proposals[..n]
      invariant |outcomes| == n && AllDisposed(outcomes, Accepted)
    {
      PredictedPost(journal.h, stages, source, proposals, n);
      var outcome := journal.Post(proposals[n], None);
      outcomes := outcomes + [outcome];
    }
    assert proposals[..|proposals|] == proposals;
  }

  /** Posting again what the journal holds yields duplicates only and changes nothing. */
  method PostAgain(journal: SQLiteFinanceJournal, proposals: seq<Proposal>) returns (outcomes: seq<Outcome>)
    requires journal.Valid() && journal.log == proposals
    modifies journal
    ensures journal.Valid() && journal.log == proposals && journal.Durable() == old(journal.Durable())
    ensures |outcomes| == |proposals| && AllDisposed(outcomes, DuplicateReplay)
  {
    outcomes := [];
    for n := 0 to |proposals|
      invariant journal.Valid() && journal.log == proposals && journal.Durable() == old(journal.Durable())
      invariant |outcomes| == n && AllDisposed(outcomes, DuplicateReplay)
    {
      HeldIsDuplicate(journal.h, proposals, n);
      var outcome := journal.Post(proposals[n], None);
      outcomes := outcomes + [outcome];
    }
  }
}
